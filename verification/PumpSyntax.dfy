/**
 Tokens, abstract syntax and concrete syntax of the Pump template language.
 The abstract syntax is generic in its expressions: the parser keeps their text,
 the evaluator their meaning.
 */
module PumpSyntax {
  import opened Wrappers

  /** A token, with its text where the text matters. */
  datatype Token =
    | VarKw | ElifKw | ElseKw | ForKw | IfKw | RangeKw
    | DollarId(name: string)   // `$name`
    | LitDollar                // `$($)`
    | Dollar                   // `$` before a parenthesised expression
    | Open | Close             // `[[` and `]]`
    | Id(id: string) | Eq | DotDot
    | Exp(exp: string)
    | Code(text: string)

  /** The atomic code list of a `CodeNode`. */
  datatype Code<E> = End | Then(head: Node<E>, tail: Code<E>)

  datatype Node<E> =
    | VarNode(id: string, def: Node<E>)
    | RangeNode(id: string, lower: E, upper: E)
    | ForNode(id: string, sep: Option<string>, body: Code<E>)
    | IfNode(cond: E, thn: Code<E>, els: Else<E>)
    | RawNode(text: string)
    | ExpNode(exp: E)
    | DollarNode
    | CodeNode(code: Code<E>)

  datatype Else<E> = NoElse | ElseCode(code: Code<E>)

  // -------------------------------------------------------- concrete syntax

  datatype CCode = CEnd | CThen(head: CNode, tail: CCode)

  /** One constructor for each way to write an atomic code. */
  datatype CNode =
    | CRaw(text: string)
    | CVarExp(id: string, exp: string)
    | CVarCode(id: string, body: CCode)
    | CRange(id: string, lower: string, upper: string)
    | CFor(id: string, sep: Option<string>, body: CCode)
    | CIf(cond: string, thn: CCode, els: CElse)
    | CId(name: string)
    | CExp(exp: string)
    | CDollar
    | CBlock(code: CCode)

  /** Whitespace may stand before an `$else` or `$elif`, or where none follows. */
  datatype CElse =
    | CNoElse
    | CElseCode(code: CCode)
    | CElif(cond: string, thn: CCode, els: CElse)
    | CBlank(text: string, els: CElse)

  predicate IsSpace(c: char) {
    c == ' ' || '\t' <= c <= '\r'
  }

  /** `not text.strip()` */
  predicate Blank(text: string) {
    forall k | 0 <= k < |text| :: IsSpace(text[k])
  }

  /** `s.lstrip()` */
  function LStrip(s: string): (r: string)
    ensures |r| <= |s| && (r != "" ==> !IsSpace(r[0]))
  {
    if s != "" && IsSpace(s[0]) then LStrip(s[1..]) else s
  }

  /** `s.rstrip()` */
  function RStrip(s: string): (r: string)
    ensures |r| <= |s| && (r != "" ==> !IsSpace(r[|r| - 1]))
  {
    if s != "" && IsSpace(s[|s| - 1]) then RStrip(s[..|s| - 1]) else s
  }

  /** `s.strip()` */
  function Strip(s: string): (r: string)
    ensures |r| <= |s|
  {
    RStrip(LStrip(s))
  }

  /** What is stripped is blank. */
  lemma {:induction false} LStripped(s: string)
    ensures var k := |s| - |LStrip(s)|; Blank(s[..k]) && LStrip(s) == s[k..]
  {
    if s != "" && IsSpace(s[0]) {
      LStripped(s[1..]);
      var k := |s| - |LStrip(s)|;
      assert s[1..][k - 1..] == s[k..];
      assert forall j | 1 <= j < k :: s[..k][j] == s[1..][..k - 1][j - 1];
    }
  }

  lemma {:induction false} RStripped(s: string)
    ensures var k := |RStrip(s)|; RStrip(s) == s[..k] && Blank(s[k..])
  {
    if s != "" && IsSpace(s[|s| - 1]) {
      var front := s[..|s| - 1];
      RStripped(front);
      var k := |RStrip(s)|;
      assert front[..k] == s[..k];
      assert forall j | 0 <= j < |s[k..]| - 1 :: s[k..][j] == front[k..][j];
    }
  }

  /** `not token.value.strip()`: punctuation is never blank. */
  predicate BlankToken(t: Token) {
    match t
    case Code(text) => Blank(text)
    case Id(id) => Blank(id)
    case Exp(exp) => Blank(exp)
    case _ => false
  }

  // --------------------------------------------- what concrete syntax denotes

  function Ast(c: CCode): Code<string> {
    match c
    case CEnd => End
    case CThen(head, tail) => Then(AstNode(head), Ast(tail))
  }

  function AstNode(n: CNode): Node<string> {
    match n
    case CRaw(text) => RawNode(text)
    case CVarExp(id, exp) => VarNode(id, ExpNode(exp))
    case CVarCode(id, body) => VarNode(id, CodeNode(Ast(body)))
    case CRange(id, lower, upper) => RangeNode(id, lower, upper)
    case CFor(id, sep, body) => ForNode(id, sep, Ast(body))
    case CIf(cond, thn, els) => IfNode(cond, Ast(thn), AstElse(els))
    case CId(name) => ExpNode(name)
    case CExp(exp) => ExpNode(exp)
    case CDollar => DollarNode
    case CBlock(code) => CodeNode(Ast(code))
  }

  /** An `$elif` stands for an else branch that is a lone `$if`. */
  function AstElse(e: CElse): Else<string> {
    match e
    case CNoElse => NoElse
    case CElseCode(code) => ElseCode(Ast(code))
    case CElif(cond, thn, els) => ElseCode(Then(IfNode(cond, Ast(thn), AstElse(els)), End))
    case CBlank(_, els) => AstElse(els)
  }

  // ---------------------------------------- how concrete syntax is written down

  /** `PushFront` */
  function Push(t: Token, ts: seq<Token>): (r: seq<Token>)
    ensures |r| == 1 + |ts| && r[0] == t && r[1..] == ts
  {
    [t] + ts
  }

  /** The tokens of `c`, followed by `rest`. */
  function Emit(c: CCode, rest: seq<Token>): (r: seq<Token>)
    ensures |r| >= |rest|
    decreases c, 0
  {
    match c
    case CEnd => rest
    case CThen(head, tail) => EmitNode(head, Emit(tail, rest))
  }

  function EmitBlock(c: CCode, rest: seq<Token>): (r: seq<Token>)
    ensures |r| >= |rest| + 2 && r[0] == Open
    decreases c, 1
  {
    Push(Open, Emit(c, Push(Close, rest)))
  }

  function EmitNode(n: CNode, rest: seq<Token>): (r: seq<Token>)
    ensures |r| > |rest|
    decreases n, 0
  {
    match n
    case CRaw(text) => Push(Code(text), rest)
    case CVarExp(id, exp) => Push(VarKw, Push(Id(id), Push(Eq, Push(Exp(exp), rest))))
    case CVarCode(id, body) => Push(VarKw, Push(Id(id), Push(Eq, EmitBlock(body, rest))))
    case CRange(id, lower, upper) =>
      Push(RangeKw, Push(Id(id), Push(Exp(lower), Push(DotDot, Push(Exp(upper), rest)))))
    case CFor(id, sep, body) =>
      var block := EmitBlock(body, rest);
      Push(ForKw, Push(Id(id), if sep.Some? then Push(Code(sep.value), block) else block))
    case CIf(cond, thn, els) => Push(IfKw, Push(Code(cond), EmitBlock(thn, EmitElse(els, rest))))
    case CId(name) => Push(DollarId(name), rest)
    case CExp(exp) => Push(Dollar, Push(Exp(exp), rest))
    case CDollar => Push(LitDollar, rest)
    case CBlock(code) => EmitBlock(code, rest)
  }

  function EmitElse(e: CElse, rest: seq<Token>): (r: seq<Token>)
    ensures |r| >= |rest|
    decreases e, 0
  {
    match e
    case CNoElse => rest
    case CElseCode(code) => Push(ElseKw, EmitBlock(code, rest))
    case CElif(cond, thn, els) => Push(ElifKw, Push(Code(cond), EmitBlock(thn, EmitElse(els, rest))))
    case CBlank(text, els) => Push(Code(text), EmitElse(els, rest))
  }

  // ------------------------------------------------- where it may be written

  /** No code can start here: the end, or a token that only closes or continues. */
  predicate CodeStops(rest: seq<Token>) {
    rest == [] || rest[0].Close? || rest[0].ElseKw? || rest[0].ElifKw?
    || rest[0].Id? || rest[0].Eq? || rest[0].Exp? || rest[0].DotDot?
  }

  /** No else branch can start here, and no whitespace that might precede one. */
  predicate ElseStops(rest: seq<Token>) {
    rest == [] || !(rest[0].ElseKw? || rest[0].ElifKw? || BlankToken(rest[0]))
  }

  /** `c` written before `rest` reads as `c` and nothing more. */
  predicate Fits(c: CCode, rest: seq<Token>) {
    match c
    case CEnd => CodeStops(rest)
    case CThen(head, tail) => FitsNode(head, Emit(tail, rest)) && Fits(tail, rest)
  }

  predicate FitsNode(n: CNode, rest: seq<Token>) {
    match n
    case CVarCode(_, body) => Fits(body, Push(Close, rest))
    case CFor(_, _, body) => Fits(body, Push(Close, rest))
    case CIf(_, thn, els) => Fits(thn, Push(Close, EmitElse(els, rest))) && FitsElse(els, rest)
    case CBlock(code) => Fits(code, Push(Close, rest))
    case _ => true
  }

  predicate FitsElse(e: CElse, rest: seq<Token>) {
    match e
    case CNoElse => ElseStops(rest)
    case CElseCode(code) => Fits(code, Push(Close, rest))
    case CElif(_, thn, els) => Fits(thn, Push(Close, EmitElse(els, rest))) && FitsElse(els, rest)
    case CBlank(text, els) => Blank(text) && FitsElse(els, rest)
  }
}
