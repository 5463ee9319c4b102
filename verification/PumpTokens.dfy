/**
 The parser as the script runs it: methods that pop tokens off one shared list,
 and abort where the script exits. Each is proved against its function.
 */
module PumpTokens {
  import opened PumpParser
  import opened PumpSyntax
  import opened Wrappers

  /** The `token_type` of a token. */
  datatype TokenType =
    | TVar | TElif | TElse | TFor | TIf | TRange | TDollarId | TLitDollar | TDollar
    | TOpen | TClose | TId | TEq | TDotDot | TExp | TCode

  function TypeOf(t: Token): TokenType {
    match t
    case VarKw => TVar
    case ElifKw => TElif
    case ElseKw => TElse
    case ForKw => TFor
    case IfKw => TIf
    case RangeKw => TRange
    case DollarId(_) => TDollarId
    case LitDollar => TLitDollar
    case Dollar => TDollar
    case Open => TOpen
    case Close => TClose
    case Id(_) => TId
    case Eq => TEq
    case DotDot => TDotDot
    case Exp(_) => TExp
    case Code(_) => TCode
  }

  class TokenList {
    var tokens: seq<Token>

    constructor (tokens: seq<Token>)
      ensures this.tokens == tokens
    {
      this.tokens := tokens;
    }

    /** Removes the first token; `None` is the script's exception on an empty list. */
    method PopFront() returns (head: Option<Token>)
      modifies this
      ensures old(tokens) == [] ==> head == None
      ensures old(tokens) != [] ==> head == Some(old(tokens)[0]) && tokens == old(tokens)[1..]
    {
      if tokens == [] {
        return None;
      }
      head := Some(tokens[0]);
      tokens := tokens[1..];
    }

    method PushFront(t: Token)
      modifies this
      ensures tokens == [t] + old(tokens)
    {
      tokens := [t] + tokens;
    }

    /** Removes the first token if it has the expected type, and aborts otherwise. */
    method Pop(tokenType: TokenType) returns (t: Option<Token>)
      modifies this
      ensures t.Some? <==> old(tokens) != [] && TypeOf(old(tokens)[0]) == tokenType
      ensures t.Some? ==> t.value == old(tokens)[0] && tokens == old(tokens)[1..]
    {
      t := PopFront();
      if t.Some? && TypeOf(t.value) != tokenType {
        t := None;
      }
    }
  }

  /** A node, the news that no code starts here, or an abort. */
  datatype Outcome = Node(node: Node<string>) | NoNode | Abort

  /** `Pop('[['); ParseCodeNode; Pop(']]')` */
  method ParseBlockNode(list: TokenList) returns (code: Option<Code<string>>)
    modifies list
    ensures code.Some? <==> ParseBlock(old(list.tokens)).Some?
    ensures code.Some? ==> ParseBlock(old(list.tokens)) == Some((code.value, list.tokens))
    decreases |list.tokens|, 1
  {
    code := None;
    var open := list.Pop(TOpen);
    if open.Some? {
      code := ParseCodeNode(list);
      if code.Some? {
        var close := list.Pop(TClose);
        if close.None? {
          code := None;
        }
      }
    }
  }

  method ParseCodeNode(list: TokenList) returns (code: Option<Code<string>>)
    modifies list
    ensures code.Some? <==> ParseCode(old(list.tokens)).Some?
    ensures code.Some? ==> ParseCode(old(list.tokens)) == Some((code.value, list.tokens))
    decreases |list.tokens|, 3
  {
    hide ParseAtomic;
    var atomicCodeList := [];
    ghost var ts := list.tokens;
    while list.tokens != []
      invariant |list.tokens| <= |ts|
      invariant ParseCode(ts) == Prepend(atomicCodeList, ParseCode(list.tokens))
      decreases |list.tokens|
    {
      ghost var before := list.tokens;
      var atomic := ParseAtomicCodeNode(list);
      match atomic {
        case Node(node) =>
          PrependMore(atomicCodeList, node, ParseCode(list.tokens));
          atomicCodeList := atomicCodeList + [node];
        case NoNode =>
          PrependEnd(atomicCodeList, list.tokens);
          return Some(FromList(atomicCodeList));
        case Abort =>
          return None;
      }
    }
    PrependEnd(atomicCodeList, []);
    return Some(FromList(atomicCodeList));
  }

  /** A method's outcome against the function's, given the tokens left over. */
  predicate Agrees(r: Outcome, spec: Atomic, left: seq<Token>) {
    match r
    case Node(node) => spec == Got(node, left)
    case NoNode => spec == Stop
    case Abort => spec == Error
  }

  method ParseAtomicCodeNode(list: TokenList) returns (r: Outcome)
    requires list.tokens != []
    modifies list
    ensures Agrees(r, ParseAtomic(old(list.tokens)), list.tokens)
    ensures r.NoNode? ==> list.tokens == old(list.tokens)
    decreases |list.tokens|, 2
  {
    hide ParseBlock, ParseElse;
    ghost var ts := list.tokens;
    var head := list.PopFront();
    assert ts == Push(head.value, list.tokens);
    match head.value {
      case Code(text) => return Node(RawNode(text));
      case VarKw => r := ParseVarNode(list);
      case ForKw => r := ParseForNode(list);
      case IfKw => r := ParseIfNode(list);
      case RangeKw => r := ParseRangeNode(list);
      case DollarId(name) => return Node(ExpNode(name));
      case LitDollar => return Node(DollarNode);
      case Dollar =>
        var exp := list.Pop(TExp);
        if exp.None? {
          return Abort;
        }
        return Node(ExpNode(exp.value.exp));
      case Open => r := ParseNestedNode(list);
      case _ =>
        list.PushFront(head.value);
        return NoNode;
    }
  }

  method ParseVarNode(list: TokenList) returns (r: Outcome)
    modifies list
    ensures !r.NoNode? && Agrees(r, ParseAtomic(Push(VarKw, old(list.tokens))), list.tokens)
    decreases |list.tokens|, 2
  {
    hide ParseBlock, ParseElse;
    Drop(Push(VarKw, list.tokens), 4);
    var id := list.Pop(TId);
    if id.None? {
      return Abort;
    }
    var eq := list.Pop(TEq);
    if eq.None? || list.tokens == [] {
      return Abort;
    }
    if list.tokens[0].Exp? {
      var exp := list.PopFront();
      return Node(VarNode(id.value.id, ExpNode(exp.value.exp)));
    }
    var code := ParseBlockNode(list);
    return if code.None? then Abort else Node(VarNode(id.value.id, CodeNode(code.value)));
  }

  method ParseForNode(list: TokenList) returns (r: Outcome)
    modifies list
    ensures !r.NoNode? && Agrees(r, ParseAtomic(Push(ForKw, old(list.tokens))), list.tokens)
    decreases |list.tokens|, 2
  {
    hide ParseBlock, ParseElse;
    Drop(Push(ForKw, list.tokens), 3);
    var id := list.Pop(TId);
    if id.None? || list.tokens == [] {
      return Abort;
    }
    var sep := None;
    if list.tokens[0].Code? {
      var sepToken := list.PopFront();
      sep := Some(sepToken.value.text);
    }
    var code := ParseBlockNode(list);
    return if code.None? then Abort else Node(ForNode(id.value.id, sep, code.value));
  }

  method ParseIfNode(list: TokenList) returns (r: Outcome)
    modifies list
    ensures !r.NoNode? && Agrees(r, ParseAtomic(Push(IfKw, old(list.tokens))), list.tokens)
    decreases |list.tokens|, 2
  {
    hide ParseBlock, ParseElse;
    Drop(Push(IfKw, list.tokens), 2);
    var exp := list.Pop(TCode);
    if exp.None? {
      return Abort;
    }
    var code := ParseBlockNode(list);
    if code.None? {
      return Abort;
    }
    var els := ParseElseNode(list);
    return if els.None? then Abort else Node(IfNode(exp.value.text, code.value, els.value));
  }

  method ParseRangeNode(list: TokenList) returns (r: Outcome)
    modifies list
    ensures !r.NoNode? && Agrees(r, ParseAtomic(Push(RangeKw, old(list.tokens))), list.tokens)
    decreases |list.tokens|, 2
  {
    hide ParseBlock, ParseElse;
    Drop(Push(RangeKw, list.tokens), 5);
    var id := list.Pop(TId);
    if id.None? {
      return Abort;
    }
    var exp1 := list.Pop(TExp);
    if exp1.None? {
      return Abort;
    }
    var dots := list.Pop(TDotDot);
    if dots.None? {
      return Abort;
    }
    var exp2 := list.Pop(TExp);
    if exp2.None? {
      return Abort;
    }
    return Node(RangeNode(id.value.id, exp1.value.exp, exp2.value.exp));
  }

  method ParseNestedNode(list: TokenList) returns (r: Outcome)
    modifies list
    ensures !r.NoNode? && Agrees(r, ParseAtomic(Push(Open, old(list.tokens))), list.tokens)
    decreases |list.tokens|, 4
  {
    hide ParseElse, ParseCode;
    var code := ParseCodeNode(list);
    if code.None? {
      return Abort;
    }
    var close := list.Pop(TClose);
    return if close.None? then Abort else Node(CodeNode(code.value));
  }

  method ParseElseNode(list: TokenList) returns (els: Option<Else<string>>)
    modifies list
    ensures els.Some? <==> ParseElse(old(list.tokens)).Some?
    ensures els.Some? ==> ParseElse(old(list.tokens)) == Some((els.value, list.tokens))
    decreases |list.tokens|, 2
  {
    hide ParseBlock, Blank;
    Drop(list.tokens, 2);
    if list.tokens == [] {
      return Some(NoElse);
    }
    var next := list.tokens[0];
    if next.ElseKw? {
      var keyword := list.Pop(TElse);
      var code := ParseBlockNode(list);
      return if code.None? then None else Some(ElseCode(code.value));
    } else if next.ElifKw? {
      var keyword := list.Pop(TElif);
      var exp := list.Pop(TCode);
      if exp.None? {
        return None;
      }
      var code := ParseBlockNode(list);
      if code.None? {
        return None;
      }
      var inner := ParseElseNode(list);
      return if inner.None? then None
        else Some(ElseCode(Then(IfNode(exp.value.text, code.value, inner.value), End)));
    } else if BlankToken(next) {
      var blank := list.Pop(TCode);
      if blank.None? {
        return None;
      }
      els := ParseElseNode(list);
    } else {
      return Some(NoElse);
    }
  }

  // ------------------------------------------------ the loop's growing list

  function FromList(nodes: seq<Node<string>>): Code<string> {
    if nodes == [] then End else Then(nodes[0], FromList(nodes[1..]))
  }

  function Append(nodes: seq<Node<string>>, code: Code<string>): Code<string> {
    if nodes == [] then code else Then(nodes[0], Append(nodes[1..], code))
  }

  /** The nodes collected so far, in front of what the rest parses to. */
  function Prepend(nodes: seq<Node<string>>, r: Option<(Code<string>, seq<Token>)>)
    : Option<(Code<string>, seq<Token>)>
  {
    match r
    case None => None
    case Some((code, rest)) => Some((Append(nodes, code), rest))
  }

  lemma {:induction false} AppendMore(nodes: seq<Node<string>>, node: Node<string>, code: Code<string>)
    ensures Append(nodes, Then(node, code)) == Append(nodes + [node], code)
  {
    if nodes == [] {
      assert [node][1..] == [];
    } else {
      AppendMore(nodes[1..], node, code);
      assert (nodes + [node])[1..] == nodes[1..] + [node];
    }
  }

  lemma PrependMore(nodes: seq<Node<string>>, node: Node<string>, r: Option<(Code<string>, seq<Token>)>)
    ensures r.None? ==> Prepend(nodes + [node], r) == None
    ensures r.Some? ==>
              Prepend(nodes, Some((Then(node, r.value.0), r.value.1))) == Prepend(nodes + [node], r)
  {
    if r.Some? {
      AppendMore(nodes, node, r.value.0);
    }
  }

  lemma {:induction false} AppendEnd(nodes: seq<Node<string>>)
    ensures Append(nodes, End) == FromList(nodes)
  {
    if nodes != [] {
      AppendEnd(nodes[1..]);
    }
  }

  lemma PrependEnd(nodes: seq<Node<string>>, rest: seq<Token>)
    ensures Prepend(nodes, Some((End, rest))) == Some((FromList(nodes), rest))
  {
    AppendEnd(nodes);
  }
}
