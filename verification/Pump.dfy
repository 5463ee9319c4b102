/**
 The whole translation: tokens, tree, text. Reading a meta expression is a
 parameter, since its syntax is Python's. With it, the dispatcher template is
 followed to the lines of C it becomes.
 */
module Pump {
  import opened Dispatcher
  import opened PumpEval
  import opened PumpLexer
  import opened PumpParser
  import opened PumpPatterns
  import opened PumpRun
  import opened PumpScan
  import opened PumpSyntax
  import opened PumpText
  import opened PumpTokens
  import opened Wrappers

  // ----------------------------------------------------------- the stages

  /** The parser's view of a positioned token. */
  function ToToken(t: Lexeme): Token {
    match t.kind
    case KVar => VarKw
    case KElif => ElifKw
    case KElse => ElseKw
    case KFor => ForKw
    case KIf => IfKw
    case KRange => RangeKw
    case KDollarId => DollarId(if t.value == "" then "" else t.value[1..])
    case KLitDollar => LitDollar
    case KDollar => Dollar
    case KOpen => Open
    case KClose => Close
    case KId => Id(t.value)
    case KEq => Eq
    case KDots => DotDot
    case KExp => Exp(t.value)
    case KCode => Code(t.value)
  }

  function ToTokens(ts: seq<Lexeme>): seq<Token> {
    seq(|ts|, k requires 0 <= k < |ts| => ToToken(ts[k]))
  }

  /** A tree over expressions from a tree over their texts. */
  function Read(code: Code<string>, read: string -> Expr): Code<Expr> {
    match code
    case End => End
    case Then(head, tail) => Then(ReadNode(head, read), Read(tail, read))
  }

  function ReadNode(node: PumpSyntax.Node<string>, read: string -> Expr): PumpSyntax.Node<Expr> {
    match node
    case VarNode(id, def) => VarNode(id, ReadNode(def, read))
    case RangeNode(id, lower, upper) => RangeNode(id, read(lower), read(upper))
    case ForNode(id, sep, body) => ForNode(id, sep, Read(body, read))
    case IfNode(cond, thn, els) =>
      IfNode(read(cond), Read(thn, read), if els.ElseCode? then ElseCode(Read(els.code, read)) else NoElse)
    case RawNode(text) => RawNode(text)
    case ExpNode(exp) => ExpNode(read(exp))
    case DollarNode => DollarNode
    case CodeNode(code) => CodeNode(Read(code, read))
  }

  /** What a token list means: the text its tree writes, if it parses and runs. */
  ghost function Meaning(tokens: seq<Lexeme>, read: string -> Expr): Option<string> {
    match ParseCode(ToTokens(tokens))
    case None => None
    case Some((code, _)) => RunIn(Bindings([], []), Read(code, read))
  }

  /**
   `ConvertFromPumpSource` up to the wrapping: the text is what the tokens of the source
   mean, and it exits with an error only if there are no such tokens or they mean nothing.
   */
  method Convert(lines: seq<string>, read: string -> Expr)
    returns (ok: bool, ghost tokens: seq<Lexeme>, text: string)
    requires Split(lines)
    ensures ok ==> Tokenized(lines, tokens) && Meaning(tokens, read) == Some(text)
    ensures !ok ==> forall ts :: Tokenized(lines, ts) ==> Meaning(ts, read) == None
  {
    hide Tokenized, ParseCode, Run, Split;
    text := "";
    var found;
    PumpCover.SplitIsNotEmpty(lines);
    ok, found := TokenizeLines(lines);
    tokens := found;
    if !ok {
      return;
    }
    forall ts | Tokenized(lines, ts) ensures ts == tokens {
      TokensAreUnique(lines, ts, tokens);
    }
    var list := new TokenList(ToTokens(found));
    var code := ParseCodeNode(list);
    if code.None? {
      return false, tokens, text;
    }
    var env := new Env();
    var output := new Output();
    ok := RunCode(env, Read(code.value, read), output);
    text := output.str;
    if ok {
      ghost var run := Run(Bindings([], []), Read(code.value, read)).value.1;
      assert "" + run == run;
    }
  }

  // ------------------------------------------------- the template, as written

  /** `[[ msg->argv[$(j - 1)].data ]]` */
  function ArgSyntax(): CCode {
    CThen(CRaw(" msg->argv["), CThen(CExp("(j - 1)"), CThen(CRaw("].data "), CEnd)))
  }

  /** What is between `$for i [[` and its `]]`. */
  function CaseSyntax(call: string): CCode {
    CThen(CRaw("\n    " + INDENT),
    CThen(CRange("j", "1", "i\n"),
    CThen(CRaw("    " + INDENT + "case "),
    CThen(CId("i"),
    CThen(CRaw(":\n        " + INDENT + call + "("),
    CThen(CFor("j", Some(", "), ArgSyntax()),
    CThen(CRaw(");\n        " + INDENT + "break;\n\n" + INDENT), CEnd)))))))
  }

  function SectionSyntax(call: string, bound: string, rest: CCode): CCode {
    CThen(CRange("i", "0", bound),
    CThen(CRaw(INDENT),
    CThen(CFor("i", None, CaseSyntax(call)), rest)))
  }

  function TemplateSyntax(bound: string, head: string, mid: string, mid': string, tail: string): CCode {
    CThen(CRaw(head), SectionSyntax(VOID_CALL, bound,
    CThen(CRaw(mid), SectionSyntax(INT_CALL, bound,
    CThen(CRaw(mid'), SectionSyntax(STR_CALL, bound,
    CThen(CRaw(tail), CEnd)))))))
  }

  /** The template's expressions are read as what they say. */
  ghost predicate Reads(read: string -> Expr, bound: string, n: nat) {
    && read("0") == Num(0) && read("1") == Num(1) && read(bound) == Num(n)
    && read("i") == Name("i") && read("i\n") == Name("i")
    && read("(j - 1)") == Bin(Minus, Name("j"), Num(1))
  }

  /** Reading goes node by node, and so does fitting before other code. */
  lemma Cons(read: string -> Expr, head: CNode, tail: CCode, rest: seq<Token>)
    requires !head.CIf? && !head.CVarCode? && !head.CBlock?
    ensures Read(Ast(CThen(head, tail)), read) == Then(ReadNode(AstNode(head), read), Read(Ast(tail), read))
    ensures Fits(tail, rest) && (head.CFor? ==> Fits(head.body, Push(Close, Emit(tail, rest)))) ==>
              Fits(CThen(head, tail), rest)
  {
    hide Emit, Read, ReadNode;
    assert Read(Then(AstNode(head), Ast(tail)), read) == Then(ReadNode(AstNode(head), read), Read(Ast(tail), read)) by {
      ReadThen(read, AstNode(head), Ast(tail));
    }
  }

  lemma ReadThen(read: string -> Expr, head: PumpSyntax.Node<string>, tail: Code<string>)
    ensures Read(Then(head, tail), read) == Then(ReadNode(head, read), Read(tail, read))
  {
  }

  lemma Nothing(read: string -> Expr, rest: seq<Token>)
    ensures Read(Ast(CEnd), read) == End && (CodeStops(rest) ==> Fits(CEnd, rest))
  {
  }

  lemma ArgReads(read: string -> Expr, bound: string, n: nat, rest: seq<Token>)
    requires Reads(read, bound, n) && CodeStops(rest)
    ensures Read(Ast(ArgSyntax()), read) == ArgBody() && Fits(ArgSyntax(), rest)
  {
    hide Read, Ast, Fits;
    Nothing(read, rest);
    var a2 := CThen(CRaw("].data "), CEnd);
    Cons(read, a2.head, CEnd, rest);
    var a1 := CThen(CExp("(j - 1)"), a2);
    Cons(read, a1.head, a2, rest);
    Cons(read, CRaw(" msg->argv["), a1, rest);
  }

  lemma CaseReads(read: string -> Expr, bound: string, n: nat, call: string, rest: seq<Token>)
    requires Reads(read, bound, n) && CodeStops(rest)
    ensures Read(Ast(CaseSyntax(call)), read) == CaseBody(call) && Fits(CaseSyntax(call), rest)
  {
    hide Read, Ast, Fits, ArgSyntax, ArgBody, Emit;
    Nothing(read, rest);
    var c6 := CThen(CRaw(");\n        " + INDENT + "break;\n\n" + INDENT), CEnd);
    Cons(read, c6.head, CEnd, rest);
    var c5 := CThen(CFor("j", Some(", "), ArgSyntax()), c6);
    ArgReads(read, bound, n, Push(Close, Emit(c6, rest)));
    ForReads(read, c5.head);
    Cons(read, c5.head, c6, rest);
    var c4 := CThen(CRaw(":\n        " + INDENT + call + "("), c5);
    Cons(read, c4.head, c5, rest);
    var c3 := CThen(CId("i"), c4);
    Cons(read, c3.head, c4, rest);
    var c2 := CThen(CRaw("    " + INDENT + "case "), c3);
    Cons(read, c2.head, c3, rest);
    var c1 := CThen(CRange("j", "1", "i\n"), c2);
    Cons(read, c1.head, c2, rest);
    Cons(read, CRaw("\n    " + INDENT), c1, rest);
    assert CaseSyntax(call) == CThen(CRaw("\n    " + INDENT), c1);
  }

  lemma ForReads(read: string -> Expr, n: CNode)
    requires n.CFor?
    ensures ReadNode(AstNode(n), read) == ForNode(n.id, n.sep, Read(Ast(n.body), read))
  {
  }

  lemma SectionReads(read: string -> Expr, bound: string, n: nat, call: string, tail: CCode, rest: seq<Token>)
    requires Reads(read, bound, n) && Fits(tail, rest)
    ensures Read(Ast(SectionSyntax(call, bound, tail)), read) == Section(call, n, Read(Ast(tail), read))
    ensures Fits(SectionSyntax(call, bound, tail), rest)
  {
    hide Read, Ast, Fits, CaseSyntax, CaseBody, Emit;
    var s2 := CThen(CFor("i", None, CaseSyntax(call)), tail);
    CaseReads(read, bound, n, call, Push(Close, Emit(tail, rest)));
    ForReads(read, s2.head);
    Cons(read, s2.head, tail, rest);
    var s1 := CThen(CRaw(INDENT), s2);
    Cons(read, CRaw(INDENT), s2, rest);
    Cons(read, CRange("i", "0", bound), s1, rest);
    assert SectionSyntax(call, bound, tail) == CThen(CRange("i", "0", bound), s1);
  }

  /**
   From the template's tokens to C: parsing them and running the tree writes, in
   each section, the cases 0 to `n` in order, case k passing arguments 0 to k - 1.
   */
  lemma DispatcherGenerated(read: string -> Expr, bound: string, n: nat,
                            head: string, mid: string, mid': string, tail: string)
    requires Reads(read, bound, n)
    ensures var parsed := ParseCode(Emit(TemplateSyntax(bound, head, mid, mid', tail), []));
            && parsed.Some? && parsed.value.1 == []
            && RunIn(Bindings([], []), Read(parsed.value.0, read))
               == Some(head + SectionText(VOID_CALL, n) + mid + SectionText(INT_CALL, n)
                       + mid' + SectionText(STR_CALL, n) + tail)
  {
    hide Emit, Ast, Fits, ParseCode, RunIn, Section, SectionSyntax, SectionText, Read;
    Nothing(read, []);
    var c6 := CThen(CRaw(tail), CEnd);
    Cons(read, c6.head, CEnd, []);
    var c5 := SectionSyntax(STR_CALL, bound, c6);
    SectionReads(read, bound, n, STR_CALL, c6, []);
    var c4 := CThen(CRaw(mid'), c5);
    Cons(read, c4.head, c5, []);
    var c3 := SectionSyntax(INT_CALL, bound, c4);
    SectionReads(read, bound, n, INT_CALL, c4, []);
    var c2 := CThen(CRaw(mid), c3);
    Cons(read, c2.head, c3, []);
    var c1 := SectionSyntax(VOID_CALL, bound, c2);
    SectionReads(read, bound, n, VOID_CALL, c2, []);
    Cons(read, CRaw(head), c1, []);
    var source := TemplateSyntax(bound, head, mid, mid', tail);
    assert source == CThen(CRaw(head), c1);
    assert Read(Ast(source), read) == Template(n, head, mid, mid', tail);
    ParseEmit(source, []);
    TemplateRuns(n, head, mid, mid', tail);
  }
}
