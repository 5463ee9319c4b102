/**
 The Pump parser as functions that say what it returns, and the theorem that the
 grammar and the parser describe the same language.
 */
module PumpParser {
  import opened PumpSyntax
  import opened Wrappers

  /** The outcome of parsing one atomic code. */
  datatype Atomic =
    | Got(node: Node<string>, rest: seq<Token>)
    | Stop    // the first token starts no code; nothing is consumed
    | Error   // an expected token is missing

  function ParseCode(ts: seq<Token>): (r: Option<(Code<string>, seq<Token>)>)
    ensures r.Some? ==> |r.value.1| <= |ts|
    decreases |ts|, 3
  {
    if ts == [] then Some((End, []))
    else
      match ParseAtomic(ts)
      case Error => None
      case Stop => Some((End, ts))
      case Got(node, rest) =>
        match ParseCode(rest)
        case None => None
        case Some((code, rest')) => Some((Then(node, code), rest'))
  }

  /** `[[`, code, `]]` */
  function ParseBlock(ts: seq<Token>): (r: Option<(Code<string>, seq<Token>)>)
    ensures r.Some? ==> |r.value.1| < |ts|
    decreases |ts|, 1
  {
    if ts == [] || ts[0] != Open then None
    else
      match ParseCode(ts[1..])
      case None => None
      case Some((code, rest)) => if rest == [] || rest[0] != Close then None else Some((code, rest[1..]))
  }

  function ParseAtomic(ts: seq<Token>): (r: Atomic)
    requires ts != []
    ensures r.Got? ==> |r.rest| < |ts|
    decreases |ts|, 2
  {
    match ts[0]
    case Code(text) => Got(RawNode(text), ts[1..])
    case VarKw =>
      if |ts| < 4 || !ts[1].Id? || ts[2] != Eq then Error
      else if ts[3].Exp? then Got(VarNode(ts[1].id, ExpNode(ts[3].exp)), ts[4..])
      else
        (match ParseBlock(ts[3..])
         case None => Error
         case Some((code, rest)) => Got(VarNode(ts[1].id, CodeNode(code)), rest))
    case ForKw =>
      if |ts| < 3 || !ts[1].Id? then Error
      else
        var sep := if ts[2].Code? then Some(ts[2].text) else None;
        (match ParseBlock(if sep.Some? then ts[3..] else ts[2..])
         case None => Error
         case Some((code, rest)) => Got(ForNode(ts[1].id, sep, code), rest))
    case IfKw =>
      if |ts| < 2 || !ts[1].Code? then Error
      else
        (match ParseBlock(ts[2..])
         case None => Error
         case Some((code, rest)) =>
           match ParseElse(rest)
           case None => Error
           case Some((els, rest')) => Got(IfNode(ts[1].text, code, els), rest'))
    case RangeKw =>
      if |ts| < 5 || !ts[1].Id? || !ts[2].Exp? || ts[3] != DotDot || !ts[4].Exp? then Error
      else Got(RangeNode(ts[1].id, ts[2].exp, ts[4].exp), ts[5..])
    case DollarId(name) => Got(ExpNode(name), ts[1..])
    case LitDollar => Got(DollarNode, ts[1..])
    case Dollar => if |ts| < 2 || !ts[1].Exp? then Error else Got(ExpNode(ts[1].exp), ts[2..])
    case Open =>
      (match ParseBlock(ts)
       case None => Error
       case Some((code, rest)) => Got(CodeNode(code), rest))
    case _ => Stop
  }

  function ParseElse(ts: seq<Token>): (r: Option<(Else<string>, seq<Token>)>)
    ensures r.Some? ==> |r.value.1| <= |ts|
    decreases |ts|, 2
  {
    if ts == [] then Some((NoElse, []))
    else if ts[0] == ElseKw then
      match ParseBlock(ts[1..])
      case None => None
      case Some((code, rest)) => Some((ElseCode(code), rest))
    else if ts[0] == ElifKw then
      if |ts| < 2 || !ts[1].Code? then None
      else
        match ParseBlock(ts[2..])
        case None => None
        case Some((code, rest)) =>
          match ParseElse(rest)
          case None => None
          case Some((els, rest')) => Some((ElseCode(Then(IfNode(ts[1].text, code, els), End)), rest'))
    else if BlankToken(ts[0]) then
      if ts[0].Code? then ParseElse(ts[1..]) else None
    else Some((NoElse, ts))
  }

  // ------------------------------------------- parsing undoes writing it down

  lemma {:induction false} ParseEmit(c: CCode, rest: seq<Token>)
    requires Fits(c, rest)
    ensures ParseCode(Emit(c, rest)) == Some((Ast(c), rest))
    decreases c, 1
  {
    match c
    case CEnd =>
    case CThen(head, tail) =>
      ParseEmitNode(head, Emit(tail, rest));
      ParseEmit(tail, rest);
  }

  lemma {:induction false} ParseEmitBlock(c: CCode, rest: seq<Token>)
    requires Fits(c, Push(Close, rest))
    ensures ParseBlock(EmitBlock(c, rest)) == Some((Ast(c), rest))
    decreases c, 2
  {
    ParseEmit(c, Push(Close, rest));
  }

  lemma {:induction false} ParseEmitNode(n: CNode, rest: seq<Token>)
    requires FitsNode(n, rest)
    ensures ParseAtomic(EmitNode(n, rest)) == Got(AstNode(n), rest)
    decreases n, 0
  {
    hide ParseAtomic, ParseBlock, EmitNode, EmitBlock, AstNode, Fits;
    match n
    case CVarCode(_, body) => ParseEmitBlock(body, rest); ParseVar(n, rest);
    case CFor(_, _, body) => ParseEmitBlock(body, rest); ParseFor(n, rest);
    case CIf(_, thn, els) =>
      ParseEmitBlock(thn, EmitElse(els, rest));
      ParseEmitElse(els, rest);
      ParseIf(n, rest);
    case CBlock(code) => ParseEmitBlock(code, rest); ParseNested(n, rest);
    case _ => ParseFlat(n, rest);
  }

  lemma ParseFlat(n: CNode, rest: seq<Token>)
    requires !n.CVarCode? && !n.CFor? && !n.CIf? && !n.CBlock?
    ensures ParseAtomic(EmitNode(n, rest)) == Got(AstNode(n), rest)
  {
    hide ParseBlock, EmitBlock, EmitElse, ParseElse, ParseAtomic, EmitNode, AstNode;
    match n
    case CVarExp(_, _) => ParseVarExp(n, rest);
    case CRange(_, _, _) => ParseRange(n, rest);
    case _ => ParseShort(n, rest);
  }

  lemma ParseVarExp(n: CNode, rest: seq<Token>)
    requires n.CVarExp?
    ensures ParseAtomic(EmitNode(n, rest)) == Got(AstNode(n), rest)
  {
    hide ParseBlock, EmitBlock, EmitElse, ParseElse;
    Drop(EmitNode(n, rest), 4);
  }

  lemma ParseRange(n: CNode, rest: seq<Token>)
    requires n.CRange?
    ensures ParseAtomic(EmitNode(n, rest)) == Got(AstNode(n), rest)
  {
    hide ParseAtomic, EmitBlock, EmitElse;
    var ts := EmitNode(n, rest);
    Drop(ts, 5);
    ParseRangeTokens(ts);
  }

  lemma ParseRangeTokens(ts: seq<Token>)
    requires |ts| >= 5 && ts[0] == RangeKw && ts[1].Id? && ts[2].Exp? && ts[3] == DotDot && ts[4].Exp?
    ensures ParseAtomic(ts) == Got(RangeNode(ts[1].id, ts[2].exp, ts[4].exp), ts[5..])
  {
  }

  lemma ParseShort(n: CNode, rest: seq<Token>)
    requires n.CRaw? || n.CId? || n.CExp? || n.CDollar?
    ensures ParseAtomic(EmitNode(n, rest)) == Got(AstNode(n), rest)
  {
    hide ParseBlock, EmitBlock, EmitElse, ParseElse;
    if n.CExp? {
      Drop(EmitNode(n, rest), 2);
    }
  }

  lemma ParseVar(n: CNode, rest: seq<Token>)
    requires n.CVarCode? && ParseBlock(EmitBlock(n.body, rest)) == Some((Ast(n.body), rest))
    ensures ParseAtomic(EmitNode(n, rest)) == Got(AstNode(n), rest)
  {
    hide ParseBlock, EmitBlock, EmitElse, ParseElse;
    Drop(EmitNode(n, rest), 4);
  }

  lemma ParseFor(n: CNode, rest: seq<Token>)
    requires n.CFor? && ParseBlock(EmitBlock(n.body, rest)) == Some((Ast(n.body), rest))
    ensures ParseAtomic(EmitNode(n, rest)) == Got(AstNode(n), rest)
  {
    hide ParseBlock, EmitBlock, EmitElse, ParseElse;
    Drop(EmitNode(n, rest), 3);
  }

  lemma ParseIf(n: CNode, rest: seq<Token>)
    requires n.CIf?
    requires ParseBlock(EmitBlock(n.thn, EmitElse(n.els, rest))) == Some((Ast(n.thn), EmitElse(n.els, rest)))
    requires ParseElse(EmitElse(n.els, rest)) == Some((AstElse(n.els), rest))
    ensures ParseAtomic(EmitNode(n, rest)) == Got(AstNode(n), rest)
  {
    hide ParseBlock, EmitBlock, EmitElse, ParseElse;
    Drop(EmitNode(n, rest), 2);
  }

  lemma ParseNested(n: CNode, rest: seq<Token>)
    requires n.CBlock? && ParseBlock(EmitBlock(n.code, rest)) == Some((Ast(n.code), rest))
    ensures ParseAtomic(EmitNode(n, rest)) == Got(AstNode(n), rest)
  {
    hide ParseBlock, EmitBlock, EmitElse, ParseElse;
  }

  lemma {:induction false} ParseEmitElse(e: CElse, rest: seq<Token>)
    requires FitsElse(e, rest)
    ensures ParseElse(EmitElse(e, rest)) == Some((AstElse(e), rest))
    decreases e, 0
  {
    hide Emit, EmitBlock, Fits, ParseCode, ParseBlock, Blank;
    match e
    case CNoElse =>
    case CElseCode(code) => ParseEmitBlock(code, rest);
    case CElif(_, thn, els) =>
      hide ParseElse, EmitElse, AstElse;
      ParseEmitBlock(thn, EmitElse(els, rest));
      ParseEmitElse(els, rest);
      ParseElif(e, rest);
    case CBlank(_, els) => ParseEmitElse(els, rest);
  }

  lemma ParseElif(e: CElse, rest: seq<Token>)
    requires e.CElif?
    requires ParseBlock(EmitBlock(e.thn, EmitElse(e.els, rest))) == Some((Ast(e.thn), EmitElse(e.els, rest)))
    requires ParseElse(EmitElse(e.els, rest)) == Some((AstElse(e.els), rest))
    ensures ParseElse(EmitElse(e, rest)) == Some((AstElse(e), rest))
  {
    hide ParseBlock, EmitBlock, Blank;
    Drop(EmitElse(e, rest), 2);
  }

  /** Dropping several tokens is dropping one at a time. */
  lemma Drop(ts: seq<Token>, n: nat)
    requires 2 <= n <= 5
    ensures n <= |ts| ==> ts[n..] == ts[n - 1..][1..]
    ensures 2 <= |ts| ==> ts[2..] == ts[1..][1..] && ts[1] == ts[1..][0]
    ensures 3 <= |ts| ==> ts[3..] == ts[2..][1..] && ts[2] == ts[2..][0]
    ensures 4 <= |ts| ==> ts[4..] == ts[3..][1..] && ts[3] == ts[3..][0]
    ensures 5 <= |ts| ==> ts[5..] == ts[4..][1..] && ts[4] == ts[4..][0]
  {
  }

  // ----------------------------------------- whatever parses was written down

  lemma {:induction false} ReadCode(ts: seq<Token>) returns (c: CCode)
    requires ParseCode(ts).Some?
    ensures var (code, rest) := ParseCode(ts).value;
            Fits(c, rest) && Emit(c, rest) == ts && Ast(c) == code
    decreases |ts|, 3
  {
    hide ParseAtomic;
    c := CEnd;
    if ts != [] {
      match ParseAtomic(ts) {
        case Stop => StopsHere(ts);
        case Got(_, rest) =>
          var n := ReadAtomic(ts);
          var tail := ReadCode(rest);
          c := CThen(n, tail);
        case Error =>
      }
    }
  }

  lemma StopsHere(ts: seq<Token>)
    requires ts != [] && ParseAtomic(ts) == Stop
    ensures CodeStops(ts)
  {
  }

  lemma {:induction false} ReadBlock(ts: seq<Token>) returns (c: CCode)
    requires ParseBlock(ts).Some?
    ensures var (code, rest) := ParseBlock(ts).value;
            Fits(c, Push(Close, rest)) && EmitBlock(c, rest) == ts && Ast(c) == code
    decreases |ts|, 0
  {
    c := ReadCode(ts[1..]);
    var rest := ParseCode(ts[1..]).value.1;
    assert rest == Push(Close, rest[1..]);
    assert ts == Push(Open, ts[1..]);
  }

  lemma {:induction false} ReadAtomic(ts: seq<Token>) returns (n: CNode)
    requires ts != [] && ParseAtomic(ts).Got?
    ensures var r := ParseAtomic(ts);
            FitsNode(n, r.rest) && EmitNode(n, r.rest) == ts && AstNode(n) == r.node
    decreases |ts|, 2
  {
    hide ParseAtomic, ParseBlock, EmitNode, FitsNode, AstNode;
    match ts[0] {
      case VarKw => n := ReadVar(ts);
      case ForKw => n := ReadFor(ts);
      case IfKw => n := ReadIf(ts);
      case Open => n := ReadNested(ts);
      case _ => n := ReadFlat(ts);
    }
  }

  lemma ReadFlat(ts: seq<Token>) returns (n: CNode)
    requires ts != [] && ParseAtomic(ts).Got?
    requires !ts[0].VarKw? && !ts[0].ForKw? && !ts[0].IfKw? && !ts[0].Open?
    ensures var r := ParseAtomic(ts);
            FitsNode(n, r.rest) && EmitNode(n, r.rest) == ts && AstNode(n) == r.node
  {
    hide ParseBlock, EmitBlock, EmitElse, Fits;
    Spell(ts);
    match ts[0] {
      case Code(text) => n := CRaw(text);
      case RangeKw => n := CRange(ts[1].id, ts[2].exp, ts[4].exp);
      case DollarId(name) => n := CId(name);
      case LitDollar => n := CDollar;
      case Dollar => n := CExp(ts[1].exp);
      case _ =>
    }
  }

  lemma {:induction false} ReadVar(ts: seq<Token>) returns (n: CNode)
    requires ts != [] && ParseAtomic(ts).Got? && ts[0].VarKw?
    ensures var r := ParseAtomic(ts);
            FitsNode(n, r.rest) && EmitNode(n, r.rest) == ts && AstNode(n) == r.node
    decreases |ts|, 1
  {
    hide ParseBlock, EmitBlock, EmitElse, Fits, ParseElse;
    Spell(ts);
    if ts[3].Exp? {
      n := CVarExp(ts[1].id, ts[3].exp);
    } else {
      var body := ReadBlock(ts[3..]);
      n := CVarCode(ts[1].id, body);
    }
  }

  lemma {:induction false} ReadFor(ts: seq<Token>) returns (n: CNode)
    requires ts != [] && ParseAtomic(ts).Got? && ts[0].ForKw?
    ensures var r := ParseAtomic(ts);
            FitsNode(n, r.rest) && EmitNode(n, r.rest) == ts && AstNode(n) == r.node
    decreases |ts|, 1
  {
    hide ParseBlock, EmitBlock, EmitElse, Fits, ParseElse;
    Spell(ts);
    if ts[2].Code? {
      var body := ReadBlock(ts[3..]);
      n := CFor(ts[1].id, Some(ts[2].text), body);
    } else {
      var body := ReadBlock(ts[2..]);
      n := CFor(ts[1].id, None, body);
    }
  }

  lemma {:induction false} ReadIf(ts: seq<Token>) returns (n: CNode)
    requires ts != [] && ParseAtomic(ts).Got? && ts[0].IfKw?
    ensures var r := ParseAtomic(ts);
            FitsNode(n, r.rest) && EmitNode(n, r.rest) == ts && AstNode(n) == r.node
    decreases |ts|, 1
  {
    hide ParseBlock, EmitBlock, EmitElse, Fits, ParseElse;
    Spell(ts);
    var thn := ReadBlock(ts[2..]);
    var els := ReadElse(ParseBlock(ts[2..]).value.1);
    n := CIf(ts[1].text, thn, els);
  }

  lemma {:induction false} ReadNested(ts: seq<Token>) returns (n: CNode)
    requires ts != [] && ParseAtomic(ts).Got? && ts[0].Open?
    ensures var r := ParseAtomic(ts);
            FitsNode(n, r.rest) && EmitNode(n, r.rest) == ts && AstNode(n) == r.node
    decreases |ts|, 1
  {
    hide ParseBlock, EmitBlock, EmitElse, Fits, ParseElse;
    var code := ReadBlock(ts);
    n := CBlock(code);
  }

  lemma {:induction false} ReadElse(ts: seq<Token>) returns (e: CElse)
    requires ParseElse(ts).Some?
    ensures var (els, rest) := ParseElse(ts).value;
            FitsElse(e, rest) && EmitElse(e, rest) == ts && AstElse(e) == els
    decreases |ts|, 2
  {
    hide ParseBlock, ParseCode, EmitBlock, Fits, Blank;
    e := CNoElse;
    Drop(ts, 2);
    Spell(ts);
    if ts == [] {
    } else if ts[0] == ElseKw {
      var code := ReadBlock(ts[1..]);
      e := CElseCode(code);
    } else if ts[0] == ElifKw {
      var thn := ReadBlock(ts[2..]);
      var els := ReadElse(ParseBlock(ts[2..]).value.1);
      e := CElif(ts[1].text, thn, els);
    } else if BlankToken(ts[0]) {
      var els := ReadElse(ts[1..]);
      e := CBlank(ts[0].text, els);
    }
  }

  /** A list is its first tokens pushed on what follows them. */
  lemma Spell(ts: seq<Token>)
    ensures |ts| >= 1 ==> ts == Push(ts[0], ts[1..])
    ensures |ts| >= 2 ==> ts[1..] == Push(ts[1], ts[2..])
    ensures |ts| >= 3 ==> ts[2..] == Push(ts[2], ts[3..])
    ensures |ts| >= 4 ==> ts[3..] == Push(ts[3], ts[4..])
    ensures |ts| >= 5 ==> ts[4..] == Push(ts[4], ts[5..])
  {
  }

  /**
   The parser decides the grammar: it returns `code` and leaves `rest` exactly
   when the list spells some way of writing `code` that fits before `rest`.
   */
  lemma ParserIsGrammar(ts: seq<Token>, code: Code<string>, rest: seq<Token>)
    ensures ParseCode(ts) == Some((code, rest))
       <==> exists c :: Fits(c, rest) && Emit(c, rest) == ts && Ast(c) == code
  {
    hide ParseCode, Fits, Emit, Ast;
    if ParseCode(ts) == Some((code, rest)) {
      var c := ReadCode(ts);
      assert Fits(c, rest) && Emit(c, rest) == ts && Ast(c) == code;
    }
    forall c | Fits(c, rest) && Emit(c, rest) == ts && Ast(c) == code
      ensures ParseCode(ts) == Some((code, rest))
    {
      ParseEmit(c, rest);
    }
  }

  // ------------------------------------------------ printing a syntax tree

  /** The trees the parser builds: a variable is defined by an expression or a block. */
  predicate Canonical(code: Code<string>) {
    match code
    case End => true
    case Then(head, tail) =>
      && CanonicalNode(head) && Canonical(tail)
      && (head.IfNode? && head.els.NoElse? && tail.Then? && tail.head.RawNode? ==> !Blank(tail.head.text))
  }

  predicate CanonicalNode(n: Node<string>) {
    match n
    case VarNode(_, def) => def.ExpNode? || (def.CodeNode? && Canonical(def.code))
    case ForNode(_, _, body) => Canonical(body)
    case IfNode(_, thn, els) => Canonical(thn) && (els.NoElse? || Canonical(els.code))
    case CodeNode(code) => Canonical(code)
    case _ => true
  }

  function Print(code: Code<string>): (c: CCode)
    requires Canonical(code)
    ensures Ast(c) == code
  {
    match code
    case End => CEnd
    case Then(head, tail) => CThen(PrintNode(head), Print(tail))
  }

  function PrintNode(n: Node<string>): (c: CNode)
    requires CanonicalNode(n)
    ensures AstNode(c) == n
    ensures c.CRaw? ==> n.RawNode? && c.text == n.text
    ensures c.CIf? ==> n.IfNode? && (c.els.CNoElse? <==> n.els.NoElse?)
  {
    match n
    case VarNode(id, def) => if def.ExpNode? then CVarExp(id, def.exp) else CVarCode(id, Print(def.code))
    case RangeNode(id, lower, upper) => CRange(id, lower, upper)
    case ForNode(id, sep, body) => CFor(id, sep, Print(body))
    case IfNode(cond, thn, els) =>
      CIf(cond, Print(thn), if els.NoElse? then CNoElse else CElseCode(Print(els.code)))
    case RawNode(text) => CRaw(text)
    case ExpNode(exp) => CExp(exp)
    case DollarNode => CDollar
    case CodeNode(code) => CBlock(Print(code))
  }

  lemma {:induction false} PrintFits(code: Code<string>, rest: seq<Token>)
    requires Canonical(code)
    requires rest == [] || rest[0] == Close
    ensures Fits(Print(code), rest)
    decreases code
  {
    match code
    case End =>
    case Then(head, tail) =>
      PrintFits(tail, rest);
      if tail.Then? {
        FirstToken(PrintNode(tail.head), Emit(Print(tail.tail), rest));
      }
      PrintNodeFits(head, Emit(Print(tail), rest));
  }

  /** Only raw code starts with a token that could be blank. */
  lemma FirstToken(n: CNode, rest: seq<Token>)
    ensures ElseStops(EmitNode(n, rest)) || (n.CRaw? && Blank(n.text))
  {
    hide Blank;
  }

  lemma {:induction false} PrintNodeFits(n: Node<string>, rest: seq<Token>)
    requires CanonicalNode(n)
    requires n.IfNode? && n.els.NoElse? ==> ElseStops(rest)
    ensures FitsNode(PrintNode(n), rest)
    decreases n
  {
    match n
    case VarNode(_, def) => if def.CodeNode? { PrintFits(def.code, Push(Close, rest)); }
    case ForNode(_, _, body) => PrintFits(body, Push(Close, rest));
    case IfNode(_, thn, els) =>
      PrintFits(thn, Push(Close, EmitElse(PrintNode(n).els, rest)));
      if els.ElseCode? {
        PrintFits(els.code, Push(Close, rest));
      }
    case CodeNode(code) => PrintFits(code, Push(Close, rest));
    case _ =>
  }

  /** Printing a canonical tree and parsing it gives it back, and leaves `rest`. */
  lemma ParsePrint(code: Code<string>, rest: seq<Token>)
    requires Canonical(code)
    requires rest == [] || rest[0] == Close
    ensures ParseCode(Emit(Print(code), rest)) == Some((code, rest))
  {
    PrintFits(code, rest);
    ParseEmit(Print(code), rest);
  }

  // ------------------------------------------------- only canonical trees

  lemma {:induction false} FitsIsCanonical(c: CCode, rest: seq<Token>)
    requires Fits(c, rest)
    ensures Canonical(Ast(c))
    decreases c, 0
  {
    match c
    case CEnd =>
    case CThen(head, tail) =>
      FitsNodeIsCanonical(head, Emit(tail, rest));
      FitsIsCanonical(tail, rest);
      if tail.CThen? && AstNode(tail.head).RawNode? {
        assert Emit(tail, rest)[0] == Code(tail.head.text);
      }
      assert AstNode(head).IfNode? ==> head.CIf?;
  }

  /** An `$if` that ends without an else branch is not followed by blank code. */
  lemma {:induction false} FitsNodeIsCanonical(n: CNode, rest: seq<Token>)
    requires FitsNode(n, rest)
    ensures CanonicalNode(AstNode(n))
    ensures n.CIf? && AstElse(n.els).NoElse? ==> ElseStops(rest)
    decreases n, 0
  {
    match n
    case CVarCode(_, body) => FitsIsCanonical(body, Push(Close, rest));
    case CFor(_, _, body) => FitsIsCanonical(body, Push(Close, rest));
    case CIf(_, thn, els) =>
      FitsIsCanonical(thn, Push(Close, EmitElse(els, rest)));
      FitsElseIsCanonical(els, rest);
    case CBlock(code) => FitsIsCanonical(code, Push(Close, rest));
    case _ =>
  }

  lemma {:induction false} FitsElseIsCanonical(e: CElse, rest: seq<Token>)
    requires FitsElse(e, rest)
    ensures AstElse(e).NoElse? ==> ElseStops(rest)
    ensures AstElse(e).ElseCode? ==> Canonical(AstElse(e).code)
    decreases e, 0
  {
    match e
    case CNoElse =>
    case CElseCode(code) => FitsIsCanonical(code, Push(Close, rest));
    case CElif(_, thn, els) =>
      FitsIsCanonical(thn, Push(Close, EmitElse(els, rest)));
      FitsElseIsCanonical(els, rest);
    case CBlank(_, els) => FitsElseIsCanonical(els, rest);
  }

  /** The canonical trees are exactly those some source parses to. */
  lemma CanonicalIsParsed(code: Code<string>)
    ensures Canonical(code) <==> exists ts :: ParseCode(ts) == Some((code, []))
  {
    hide Canonical, ParseCode, Emit;
    if Canonical(code) {
      ParsePrint(code, []);
    }
    forall ts | ParseCode(ts) == Some((code, [])) ensures Canonical(code) {
      var c := ReadCode(ts);
      FitsIsCanonical(c, []);
    }
  }
}
