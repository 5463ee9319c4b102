/**
 What the tokens of a Pump source are. A token list is built up token by token; the
 tokens so far determine a state, and the state which token may come next, where it
 is and what its text is. At most one list of tokens comes to the end of a source.
 */
module PumpLexer {
  import opened PumpPatterns
  import opened PumpSyntax
  import opened PumpText
  import opened Wrappers

  /** A token with its position. */
  datatype Lexeme = Lexeme(start: Cursor, end: Cursor, value: string, kind: Kind)

  /** What has to come next. */
  datatype Mode =
    | Top        // raw code, or a token of the table
    | Marker     // a token of the table, after raw code
    | VarId | VarEq | VarExp
    | ForId
    | RangeId | Lower | Dots | Upper
    | DollarExp
    | Finished

  datatype State = State(mode: Mode, pos: Cursor)

  const START := State(Top, Cursor(0, 0))

  // -------------------------------------------------------------- the next token

  /** Some pattern of the table matches here. */
  predicate MarkerAt(lines: seq<string>, c: Cursor) {
    Opens(Line(lines, c))
  }

  /** None does from one position up to another. */
  ghost predicate NoMarker(lines: seq<string>, from: Cursor, upTo: Cursor) {
    forall c: Cursor | !Before(c, from) && Before(c, upTo) :: !MarkerAt(lines, c)
  }

  /** Does a token of this kind take a line break away from the code before it? */
  predicate Strips(kind: Kind) {
    kind == KVar || kind == KFor || kind == KRange || kind == KClose || kind == KIf || kind == KElif || kind == KElse
  }

  /** `RStripNewLineFromToken`, on the text. */
  function Chomp(text: string): string {
    if text != "" && text[|text| - 1] == '\n' then text[..|text| - 1] else text
  }

  /** The next `n` characters of the line. */
  ghost predicate Takes(lines: seq<string>, pos: Cursor, t: Lexeme, kind: Kind, n: Option<nat>) {
    && n.Some? && n.value <= |Line(lines, pos)|
    && t == Lexeme(pos, Right(pos, n.value), Line(lines, pos)[..n.value], kind)
  }

  /** The first pattern of the table that matches here, and all that it matches. */
  ghost predicate TakesMarker(lines: seq<string>, pos: Cursor, t: Lexeme) {
    && FirstMatch(TABLE, Line(lines, pos)) == Some(t.kind)
    && Takes(lines, pos, t, t.kind, MatchHere(t.kind, Line(lines, pos)))
  }

  /**
   Everything up to the next place where some pattern matches, or to the end; without
   its last line break if what follows takes that away.
   */
  ghost predicate TakesCode(lines: seq<string>, pos: Cursor, t: Lexeme)
    requires lines != [] && On(lines, pos)
  {
    && t.kind == KCode && t.start == pos
    && if t.end == EOF then
         NoMarker(lines, pos, Cursor(|lines|, 0)) && SubString(lines, pos, EOF) == Some(t.value)
       else
         && On(lines, t.end) && Before(pos, t.end)
         && MarkerAt(lines, t.end) && NoMarker(lines, pos, t.end)
         && var text := SubString(lines, pos, t.end);
            text.Some? && t.value == if StripsAt(lines, t.end) then Chomp(text.value) else text.value
  }

  predicate StripsAt(lines: seq<string>, c: Cursor) {
    var kind := FirstMatch(TABLE, Line(lines, c));
    kind.Some? && Strips(kind.value)
  }

  /** The rest of the line and its line break, up to the next line. */
  ghost predicate TakesUpper(lines: seq<string>, pos: Cursor, t: Lexeme)
    requires lines != [] && On(lines, pos)
  {
    && pos.line < |lines|
    && t.kind == KExp && t.start == pos && t.end == Cursor(pos.line + 1, 0)
    && SubString(lines, pos, t.end) == Some(t.value)
  }

  /** The modes in which some characters of the line come next. */
  predicate IsPiece(mode: Mode) {
    !mode.Top? && !mode.Marker? && !mode.Upper? && !mode.Finished?
  }

  function PieceKind(mode: Mode): (kind: Kind)
    ensures kind != KCode
  {
    match mode
    case VarEq => KEq
    case VarExp => KExp
    case Lower => KExp
    case Dots => KDots
    case DollarExp => KExp
    case _ => KId
  }

  /** How many: an identifier, `=`, `..`, or an expression up to where it ends. */
  function PieceLength(mode: Mode, r: string): (n: Option<nat>)
    ensures n.Some? ==> n.value <= |r|
  {
    match mode
    case VarEq => if r != "" && r[0] == '=' then Some(1) else None
    case VarExp => RestOfLine(r)
    case Lower => FindDots(r)
    case Dots => if Twice('.', r) then Some(2) else None
    case DollarExp => ParenLength(r)
    case _ => IdLength(r)
  }

  /** This token may come next. */
  ghost predicate Follows(lines: seq<string>, st: State, t: Lexeme)
    requires lines != []
  {
    On(lines, st.pos) &&
    match st.mode
    case Top => if MarkerAt(lines, st.pos) then TakesMarker(lines, st.pos, t) else TakesCode(lines, st.pos, t)
    case Marker => TakesMarker(lines, st.pos, t)
    case Upper => TakesUpper(lines, st.pos, t)
    case Finished => false
    case _ => Takes(lines, st.pos, t, PieceKind(st.mode), PieceLength(st.mode, Line(lines, st.pos)))
  }

  // -------------------------------------------------------------- the next state

  /** Past whitespace, as far as the line goes. */
  function PastSpaces(lines: seq<string>, c: Cursor): Cursor {
    Right(c, Spaces(Line(lines, c)))
  }

  function PastOneSpace(lines: seq<string>, c: Cursor): Cursor {
    var r := Line(lines, c);
    if r != "" && IsSpace(r[0]) then Right(c, 1) else c
  }

  function AfterMarker(kind: Kind): Mode {
    match kind
    case KVar => VarId
    case KFor => ForId
    case KRange => RangeId
    case KDollar => DollarExp
    case _ => Top
  }

  function NextState(lines: seq<string>, st: State, t: Lexeme): State {
    match st.mode
    case Top =>
      if t.kind == KCode then State(if t.end == EOF then Finished else Marker, t.end)
      else State(AfterMarker(t.kind), t.end)
    case Marker => State(AfterMarker(t.kind), t.end)
    case VarId => State(VarEq, PastSpaces(lines, t.end))
    case VarEq =>
      var p := PastSpaces(lines, t.end);
      State(if Twice('[', Line(lines, p)) then Top else VarExp, p)
    case VarExp => State(Top, Cursor(t.end.line + 1, 0))
    case ForId => State(Top, PastOneSpace(lines, t.end))
    case RangeId => State(Lower, PastSpaces(lines, t.end))
    case Lower => State(Dots, t.end)
    case Dots => State(Upper, t.end)
    case Upper => State(Top, t.end)
    case DollarExp => State(Top, t.end)
    case Finished => st
  }

  function StateAfter(lines: seq<string>, ts: seq<Lexeme>): State {
    if ts == [] then START else NextState(lines, StateAfter(lines, ts[..|ts| - 1]), ts[|ts| - 1])
  }

  /** Each token is one that may come next. */
  ghost predicate Lexed(lines: seq<string>, ts: seq<Lexeme>)
    requires lines != []
  {
    ts != [] ==>
      && Lexed(lines, ts[..|ts| - 1])
      && Follows(lines, StateAfter(lines, ts[..|ts| - 1]), ts[|ts| - 1])
  }

  /** These are the tokens of the whole source. */
  ghost predicate Tokenized(lines: seq<string>, ts: seq<Lexeme>)
    requires lines != []
  {
    Lexed(lines, ts) && StateAfter(lines, ts).mode == Finished
  }

  /** No token can come next, and the source is not at its end. */
  ghost predicate Dead(lines: seq<string>, ts: seq<Lexeme>)
    requires lines != []
  {
    && Lexed(lines, ts) && StateAfter(lines, ts).mode != Finished
    && forall t: Lexeme :: !Follows(lines, StateAfter(lines, ts), t)
  }

  lemma OneMore(lines: seq<string>, ts: seq<Lexeme>, t: Lexeme)
    requires lines != [] && Lexed(lines, ts) && Follows(lines, StateAfter(lines, ts), t)
    ensures Lexed(lines, ts + [t]) && StateAfter(lines, ts + [t]) == NextState(lines, StateAfter(lines, ts), t)
  {
    hide Follows, NextState;
    assert (ts + [t])[..|ts|] == ts;
  }

  // ------------------------------------------------------- one tokenization at most

  /** Where a pattern matches there is text. */
  lemma MarkerIsBeforeEnd(lines: seq<string>, c: Cursor)
    requires On(lines, c) && MarkerAt(lines, c)
    ensures c.line < |lines| && Before(c, Cursor(|lines|, 0)) && c != EOF
  {
  }

  lemma CodeIsUnique(lines: seq<string>, pos: Cursor, a: Lexeme, b: Lexeme)
    requires lines != [] && On(lines, pos) && TakesCode(lines, pos, a) && TakesCode(lines, pos, b)
    ensures a == b
  {
    hide MarkerAt, SubString;
    if a.end != EOF {
      MarkerIsBeforeEnd(lines, a.end);
    }
    if b.end != EOF {
      MarkerIsBeforeEnd(lines, b.end);
    }
    assert a.end == b.end;
  }

  lemma NextIsUnique(lines: seq<string>, st: State, a: Lexeme, b: Lexeme)
    requires lines != [] && Follows(lines, st, a) && Follows(lines, st, b)
    ensures a == b
  {
    hide FirstMatch, MatchHere, PieceLength, SubString, TakesCode, MarkerAt;
    if st.mode.Top? && !MarkerAt(lines, st.pos) {
      CodeIsUnique(lines, st.pos, a, b);
    }
  }

  lemma {:induction false} LexedPrefix(lines: seq<string>, ts: seq<Lexeme>, n: nat)
    requires lines != [] && Lexed(lines, ts) && n <= |ts|
    ensures Lexed(lines, ts[..n])
    ensures n < |ts| ==> Follows(lines, StateAfter(lines, ts[..n]), ts[n])
    decreases |ts|
  {
    hide Follows, StateAfter;
    if n == |ts| {
      assert ts[..n] == ts;
    } else if n < |ts| - 1 {
      LexedPrefix(lines, ts[..|ts| - 1], n);
      assert ts[..|ts| - 1][..n] == ts[..n];
    }
  }

  /** Two token lists agree as far as both go. */
  lemma {:induction false} SamePrefix(lines: seq<string>, a: seq<Lexeme>, b: seq<Lexeme>, n: nat)
    requires lines != [] && Lexed(lines, a) && Lexed(lines, b) && n <= |a| && n <= |b|
    ensures a[..n] == b[..n]
  {
    hide Follows, StateAfter, Lexed;
    if n > 0 {
      SamePrefix(lines, a, b, n - 1);
      LexedPrefix(lines, a, n - 1);
      LexedPrefix(lines, b, n - 1);
      NextIsUnique(lines, StateAfter(lines, a[..n - 1]), a[n - 1], b[n - 1]);
      assert a[..n] == a[..n - 1] + [a[n - 1]] && b[..n] == b[..n - 1] + [b[n - 1]];
    }
  }

  /** Nothing follows the end. */
  lemma NothingAfterEnd(lines: seq<string>, ts: seq<Lexeme>, n: nat)
    requires lines != [] && Lexed(lines, ts) && n < |ts|
    ensures StateAfter(lines, ts[..n]).mode != Finished
  {
    hide StateAfter, Lexed, FirstMatch, MatchHere;
    LexedPrefix(lines, ts, n);
  }

  /** A source has at most one list of tokens. */
  lemma TokensAreUnique(lines: seq<string>, a: seq<Lexeme>, b: seq<Lexeme>)
    requires lines != [] && Tokenized(lines, a) && Tokenized(lines, b)
    ensures a == b
  {
    hide StateAfter, Lexed;
    var n := if |a| < |b| then |a| else |b|;
    SamePrefix(lines, a, b, n);
    assert a[..|a|] == a && b[..|b|] == b;
    if |a| < |b| {
      NothingAfterEnd(lines, b, n);
    } else if |b| < |a| {
      NothingAfterEnd(lines, a, n);
    }
  }

  /** From where no token can come next, no list comes to the end. */
  lemma DeadIsFinal(lines: seq<string>, dead: seq<Lexeme>, ts: seq<Lexeme>)
    requires lines != [] && Dead(lines, dead)
    ensures !Tokenized(lines, ts)
  {
    hide StateAfter, Lexed, Follows;
    if Tokenized(lines, ts) {
      var n := if |ts| < |dead| then |ts| else |dead|;
      SamePrefix(lines, dead, ts, n);
      assert dead[..|dead|] == dead && ts[..|ts|] == ts;
      if |ts| < |dead| {
        NothingAfterEnd(lines, dead, n);
      } else if |dead| < |ts| {
        LexedPrefix(lines, ts, n);
      }
    }
  }
}
