/**
 What the tokens of a source account for: its text, in order, but for what may be
 skipped; and raw code without any marker.
 */
module PumpCover {
  import opened PumpLexer
  import opened PumpPatterns
  import opened PumpSyntax
  import opened PumpText
  import opened Wrappers

  // --------------------------------------------------------- plain stretches

  /** Plain text up to a line start, then more plain text. */
  lemma JoinSpans(text: string, a: nat, b: nat, c: nat)
    requires a <= b <= c <= |text| && Clean(Span(text, a, b)) && Clean(Span(text, b, c))
    requires a < b < c ==> Break(text[b - 1])
    ensures Clean(Span(text, a, c))
  {
    if b == c {
      assert text[a..c] == text[a..b];
    } else {
      CleanConcat(Span(text, a, b), Span(text, b, c));
      assert text[a..c] == text[a..b] + text[b..c];
    }
  }

  lemma LastOfLine(lines: seq<string>, k: nat)
    requires Split(lines) && k < |lines|
    ensures Offset(lines, Cursor(k, |lines[k]|)) == Offset(lines, Cursor(k + 1, 0)) <= |Join(lines)|
    ensures k + 1 < |lines| ==>
              Offset(lines, Cursor(k + 1, 0)) > 0 && Break(Join(lines)[Offset(lines, Cursor(k + 1, 0)) - 1])
    ensures k + 1 == |lines| ==> Offset(lines, Cursor(k + 1, 0)) == |Join(lines)|
  {
    TextAround(lines, k);
    OffsetFits(lines, Cursor(k + 1, 0));
  }

  /** On one line: no marker, so plain text. */
  lemma LineIsClean(lines: seq<string>, k: nat, a: nat, b: nat)
    requires k < |lines| && a <= b <= |lines[k]| && NoMarker(lines, Cursor(k, a), Cursor(k, b))
    ensures Offset(lines, Cursor(k, a)) <= Offset(lines, Cursor(k, b)) <= |Join(lines)|
    ensures Clean(Span(Join(lines), Offset(lines, Cursor(k, a)), Offset(lines, Cursor(k, b))))
  {
    hide Join, Span, Clean, Opens;
    SameLineSpan(lines, k, a, b);
    var r := lines[k][a..];
    forall j | 0 <= j < b - a ensures !Opens(r[j..]) {
      assert !MarkerAt(lines, Cursor(k, a + j));
      assert r[j..] == lines[k][a + j..];
    }
    CleanPrefix(r, b - a);
    assert r[..b - a] == lines[k][a..b];
  }

  /** Where no pattern matches the text is plain. */
  lemma {:induction false} NoMarkerIsClean(lines: seq<string>, from: Cursor, upTo: Cursor)
    requires Split(lines) && On(lines, from) && On(lines, upTo) && !Before(upTo, from)
    requires NoMarker(lines, from, upTo)
    ensures Offset(lines, from) <= Offset(lines, upTo) <= |Join(lines)|
    ensures Clean(Span(Join(lines), Offset(lines, from), Offset(lines, upTo)))
    decreases upTo.line - from.line
  {
    hide Join, Clean, MarkerAt, Span;
    var k := from.line;
    OffsetFits(lines, upTo);
    if k == |lines| {
      NothingIsClean(Join(lines), |Join(lines)|);
    } else if k == upTo.line {
      LineIsClean(lines, k, from.column, upTo.column);
    } else {
      LineIsClean(lines, k, from.column, |lines[k]|);
      LastOfLine(lines, k);
      NoMarkerIsClean(lines, Cursor(k + 1, 0), upTo);
      JoinSpans(Join(lines), Offset(lines, from), Offset(lines, Cursor(k + 1, 0)), Offset(lines, upTo));
    }
  }

  lemma NothingIsClean(text: string, at: nat)
    requires at <= |text|
    ensures Clean(Span(text, at, at))
  {
    assert text[at..at] == "";
  }

  // ---------------------------------------------------------------- accounts

  /** What is stepped over between tokens: whitespace, or the rest of a comment line. */
  predicate Skipped(s: string) {
    Blank(s) || Twice('$', s)
  }

  ghost predicate Placed(lines: seq<string>, t: Lexeme) {
    On(lines, t.start) && (t.end == EOF || (On(lines, t.end) && !Before(t.end, t.start)))
  }

  /**
   The value is the text at the position, but for a final line break of raw code; and
   raw code has no `$`, no `[[` and no `]]` in it.
   */
  ghost predicate Faithful(lines: seq<string>, t: Lexeme) {
    && Placed(lines, t)
    && var text := Span(Join(lines), Offset(lines, t.start), EndOffset(lines, t.end));
    && (t.value == text || (t.kind == KCode && t.value + "\n" == text))
    && (t.kind == KCode ==> Clean(t.value))
  }

  /**
   The tokens follow each other up to offset `at`: each starts where the last one
   ended or after something skipped.
   */
  ghost predicate Covers(lines: seq<string>, ts: seq<Lexeme>, at: nat) {
    if ts == [] then Skipped(Span(Join(lines), 0, at))
    else
      var t := ts[|ts| - 1];
      && Faithful(lines, t) && Offset(lines, t.start) <= EndOffset(lines, t.end) <= at
      && Skipped(Span(Join(lines), EndOffset(lines, t.end), at))
      && Covers(lines, ts[..|ts| - 1], Offset(lines, t.start))
  }

  lemma CoversMore(lines: seq<string>, ts: seq<Lexeme>, t: Lexeme, at: nat)
    requires Faithful(lines, t) && Offset(lines, t.start) <= EndOffset(lines, t.end) <= at
    requires Covers(lines, ts, Offset(lines, t.start))
    requires Skipped(Span(Join(lines), EndOffset(lines, t.end), at))
    ensures Covers(lines, ts + [t], at)
  {
    hide Join, Clean, Skipped, Span, Offset, Faithful;
    assert (ts + [t])[..|ts|] == ts;
  }

  /** Covered tokens are ordered, disjoint and true to the text. */
  lemma {:induction false} CoveredInOrder(lines: seq<string>, ts: seq<Lexeme>, at: nat, j: nat)
    requires Covers(lines, ts, at) && j < |ts|
    ensures Faithful(lines, ts[j]) && Offset(lines, ts[j].start) <= EndOffset(lines, ts[j].end) <= at
    ensures forall i | 0 <= i < j ::
              Faithful(lines, ts[i]) && EndOffset(lines, ts[i].end) <= Offset(lines, ts[j].start)
    ensures j > 0 ==> Faithful(lines, ts[j - 1]) && Skipped(Span(Join(lines), EndOffset(lines, ts[j - 1].end), Offset(lines, ts[j].start)))
    ensures j == 0 ==> Skipped(Span(Join(lines), 0, Offset(lines, ts[j].start)))
    decreases |ts|, 1
  {
    hide Join, Clean, Skipped, Span;
    var front, t := ts[..|ts| - 1], ts[|ts| - 1];
    if j == |ts| - 1 {
      forall i | 0 <= i < j
        ensures Faithful(lines, ts[i]) && EndOffset(lines, ts[i].end) <= Offset(lines, t.start)
      {
        CoveredInOrder(lines, front, Offset(lines, t.start), i);
      }
    } else {
      CoveredInOrder(lines, front, Offset(lines, t.start), j);
    }
  }

  // ------------------------------------------------- every step accounts for text

  /** A token within one line, and what is skipped behind it on that line. */
  lemma LineToken(lines: seq<string>, ts: seq<Lexeme>, pos: Cursor, t: Lexeme, kind: Kind, n: Option<nat>, next: nat)
    requires On(lines, pos) && pos.line < |lines| && Takes(lines, pos, t, kind, n) && kind != KCode
    requires t.end.column <= next <= |lines[pos.line]| && Skipped(lines[pos.line][t.end.column..next])
    requires Covers(lines, ts, Offset(lines, pos))
    ensures Offset(lines, pos) + n.value <= Offset(lines, Cursor(pos.line, next)) <= |Join(lines)|
    ensures Covers(lines, ts + [t], Offset(lines, Cursor(pos.line, next)))
  {
    hide Join, Covers, Skipped, Clean, Span;
    var k := pos.line;
    SameLineSpan(lines, k, pos.column, t.end.column);
    SameLineSpan(lines, k, t.end.column, next);
    assert Line(lines, pos)[..n.value] == lines[k][pos.column..t.end.column];
    CoversMore(lines, ts, t, Offset(lines, Cursor(k, next)));
  }

  lemma SpacesAreSkipped(r: string, n: nat)
    requires n <= Spaces(r)
    ensures Skipped(r[..n])
  {
  }

  /** Where a piece of the line is taken there is a line. */
  lemma TakesFromLine(lines: seq<string>, pos: Cursor, t: Lexeme, kind: Kind, n: Option<nat>)
    requires On(lines, pos) && Takes(lines, pos, t, kind, n)
    ensures n.value > 0 ==> pos.line < |lines|
    ensures pos.line < |lines| ==> t.end.column <= |lines[pos.line]| && Line(lines, t.end) == lines[pos.line][t.end.column..]
  {
  }

  /** A token, and then `skip` spaces. */
  lemma SpacedToken(lines: seq<string>, ts: seq<Lexeme>, pos: Cursor, t: Lexeme, kind: Kind, n: Option<nat>, skip: nat)
    requires On(lines, pos) && pos.line < |lines| && Takes(lines, pos, t, kind, n) && kind != KCode
    requires skip <= Spaces(Line(lines, t.end)) && Covers(lines, ts, Offset(lines, pos))
    ensures On(lines, Right(t.end, skip)) && Offset(lines, pos) + n.value <= Offset(lines, Right(t.end, skip)) <= |Join(lines)|
    ensures Covers(lines, ts + [t], Offset(lines, Right(t.end, skip)))
  {
    hide Join, Covers, Skipped, Takes, Offset;
    TakesFromLine(lines, pos, t, kind, n);
    TakesEnd(lines, pos, t, kind, n);
    var r, b := Line(lines, t.end), t.end.column;
    SpacesAreSkipped(r, skip);
    assert lines[pos.line][b..b + skip] == r[..skip];
    LineToken(lines, ts, pos, t, kind, n, b + skip);
  }

  lemma TakesEnd(lines: seq<string>, pos: Cursor, t: Lexeme, kind: Kind, n: Option<nat>)
    requires Takes(lines, pos, t, kind, n)
    ensures n.Some? && t.start == pos && t.end == Right(pos, n.value) && t.kind == kind
  {
  }

  /** Raw code up to a marker. */
  lemma CodeToken(lines: seq<string>, ts: seq<Lexeme>, pos: Cursor, t: Lexeme)
    requires Split(lines) && On(lines, pos) && TakesCode(lines, pos, t)
    requires Covers(lines, ts, Offset(lines, pos))
    ensures Offset(lines, pos) <= EndOffset(lines, t.end) <= |Join(lines)|
    ensures Covers(lines, ts + [t], EndOffset(lines, t.end))
  {
    hide Join, Covers, Clean, Span, NoMarker, MarkerAt, SubString;
    var upTo := if t.end == EOF then Cursor(|lines|, 0) else t.end;
    OffsetFits(lines, upTo);
    NoMarkerIsClean(lines, pos, upTo);
    SubStringIsSpan(lines, pos, t.end);
    var text := SubString(lines, pos, t.end).value;
    ChompedIsClean(text);
    NothingSkipped(Join(lines), EndOffset(lines, t.end));
    CoversMore(lines, ts, t, EndOffset(lines, t.end));
  }

  lemma ChompedIsClean(text: string)
    ensures Clean(text) ==> Clean(Chomp(text))
    ensures Chomp(text) == text || Chomp(text) + "\n" == text
  {
    if Chomp(text) != text {
      assert Chomp(text) + "\n" == text;
      if Clean(text) {
        CleanShorter(text, |text| - 1);
      }
    }
  }

  lemma NothingSkipped(text: string, at: nat)
    requires at <= |text|
    ensures Skipped(Span(text, at, at))
  {
    assert text[at..at] == "";
  }

  /** An expression up to the start of the next line. */
  lemma UpperToken(lines: seq<string>, ts: seq<Lexeme>, pos: Cursor, t: Lexeme)
    requires Split(lines) && On(lines, pos) && TakesUpper(lines, pos, t)
    requires Covers(lines, ts, Offset(lines, pos))
    ensures On(lines, t.end) && Offset(lines, pos) <= Offset(lines, t.end) <= |Join(lines)|
    ensures Covers(lines, ts + [t], Offset(lines, t.end))
  {
    hide Join, Covers, Span, SubString;
    SubStringIsSpan(lines, pos, t.end);
    NothingSkipped(Join(lines), EndOffset(lines, t.end));
    CoversMore(lines, ts, t, Offset(lines, t.end));
  }

  /** An expression up to the end of the line, and the comment behind it. */
  lemma VarExpToken(lines: seq<string>, ts: seq<Lexeme>, pos: Cursor, t: Lexeme)
    requires Split(lines) && On(lines, pos) && pos.line < |lines|
    requires Takes(lines, pos, t, KExp, PieceLength(VarExp, Line(lines, pos)))
    requires Covers(lines, ts, Offset(lines, pos))
    ensures var next := Cursor(pos.line + 1, 0);
            && On(lines, next) && Offset(lines, pos) <= Offset(lines, next) <= |Join(lines)|
            && Covers(lines, ts + [t], Offset(lines, next))
  {
    hide Join, Covers, Takes, RestOfLine, Offset;
    var n := RestOfLine(Line(lines, pos));
    TakesFromLine(lines, pos, t, KExp, n);
    TakesEnd(lines, pos, t, KExp, n);
    RestOfLineStops(Line(lines, pos));
    var k, b := pos.line, t.end.column;
    var rest := Line(lines, pos)[n.value..];
    assert lines[k][b..|lines[k]|] == rest;
    LineToken(lines, ts, pos, t, KExp, n, |lines[k]|);
    LastOfLine(lines, k);
  }

  /** A state that can be reached: an expression is only expected where there is a line. */
  ghost predicate Sound(lines: seq<string>, st: State) {
    st.mode != Finished ==> On(lines, st.pos) && (!st.mode.Top? ==> st.pos.line < |lines|)
  }

  /** The token keeps the account, and the position does not move back. */
  ghost predicate Moves(lines: seq<string>, ts: seq<Lexeme>, st: State, t: Lexeme)
    requires On(lines, st.pos)
  {
    var next := NextState(lines, st, t);
    && Sound(lines, next)
    && (if next.mode == Finished then Covers(lines, ts + [t], |Join(lines)|)
        else
          && Offset(lines, st.pos) <= Offset(lines, next.pos) <= |Join(lines)|
          && Covers(lines, ts + [t], Offset(lines, next.pos)))
  }

  /** A table token moves on. */
  lemma MarkerMoves(lines: seq<string>, ts: seq<Lexeme>, st: State, t: Lexeme)
    requires On(lines, st.pos) && TakesMarker(lines, st.pos, t) && (st.mode.Top? || st.mode.Marker?)
    requires Covers(lines, ts, Offset(lines, st.pos))
    ensures Moves(lines, ts, st, t)
    ensures t.kind != KCode && Offset(lines, st.pos) < Offset(lines, NextState(lines, st, t).pos)
  {
    hide Join, Covers, MatchHere, FirstMatch, Takes, Offset;
    var r := Line(lines, st.pos);
    FirstMatchIsFirst(TABLE, r);
    TableHasNoCode(t.kind, r);
    var n := MatchHere(t.kind, r);
    TakesEnd(lines, st.pos, t, t.kind, n);
    TakesFromLine(lines, st.pos, t, t.kind, n);
    SpacedToken(lines, ts, st.pos, t, t.kind, n, 0);
    assert Right(t.end, 0) == t.end;
  }

  lemma TableHasNoCode(kind: Kind, r: string)
    requires MatchHere(kind, r).Some?
    ensures kind != KCode && MatchHere(kind, r).value > 0
  {
  }

  lemma StepMoves(lines: seq<string>, ts: seq<Lexeme>, st: State, t: Lexeme)
    requires Split(lines) && Sound(lines, st) && Follows(lines, st, t) && Covers(lines, ts, Offset(lines, st.pos))
    ensures Moves(lines, ts, st, t)
  {
    hide Join, Covers, MatchHere, FirstMatch, Takes, TakesCode, TakesUpper, TakesMarker, Offset, MarkerAt;
    hide PieceLength, Spaces, NextState;
    var pos := st.pos;
    match st.mode {
      case Top =>
        if MarkerAt(lines, pos) {
          MarkerMoves(lines, ts, st, t);
        } else {
          CodeToken(lines, ts, pos, t);
          CodeMoves(lines, st, t);
        }
      case Marker => MarkerMoves(lines, ts, st, t);
      case Upper => UpperToken(lines, ts, pos, t); UpperMoves(lines, st, t);
      case VarExp => VarExpToken(lines, ts, pos, t); VarExpMoves(lines, st, t);
      case _ =>
        var skip := SkipIs(lines, st, t);
        PieceMoves(lines, ts, st, t, skip);
    }
  }

  /** How many spaces are skipped behind a piece. */
  lemma SkipIs(lines: seq<string>, st: State, t: Lexeme) returns (skip: nat)
    requires IsPiece(st.mode) && !st.mode.VarExp?
    ensures skip <= Spaces(Line(lines, t.end)) && NextState(lines, st, t).pos == Right(t.end, skip)
    ensures NextState(lines, st, t).mode != Finished
  {
    assert Right(t.end, 0) == t.end;
    skip := if st.mode.VarId? || st.mode.VarEq? || st.mode.RangeId? then Spaces(Line(lines, t.end))
            else if st.mode.ForId? then PastOneSpace(lines, t.end).column - t.end.column
            else 0;
  }

  lemma PieceMoves(lines: seq<string>, ts: seq<Lexeme>, st: State, t: Lexeme, skip: nat)
    requires On(lines, st.pos) && st.pos.line < |lines| && IsPiece(st.mode)
    requires Takes(lines, st.pos, t, PieceKind(st.mode), PieceLength(st.mode, Line(lines, st.pos)))
    requires skip <= Spaces(Line(lines, t.end)) && Covers(lines, ts, Offset(lines, st.pos))
    requires NextState(lines, st, t).pos == Right(t.end, skip) && NextState(lines, st, t).mode != Finished
    ensures Moves(lines, ts, st, t)
  {
    hide Join, Covers, Takes, Offset, NextState, Spaces, PieceLength;
    var kind, n := PieceKind(st.mode), PieceLength(st.mode, Line(lines, st.pos));
    TakesEnd(lines, st.pos, t, kind, n);
    SpacedToken(lines, ts, st.pos, t, kind, n, skip);
  }

  lemma CodeMoves(lines: seq<string>, st: State, t: Lexeme)
    requires lines != [] && On(lines, st.pos) && st.mode.Top? && TakesCode(lines, st.pos, t)
    ensures Sound(lines, NextState(lines, st, t))
    ensures NextState(lines, st, t) == State(if t.end == EOF then Finished else Marker, t.end)
  {
    hide SubString, MarkerAt;
    if t.end != EOF {
      MarkerIsBeforeEnd(lines, t.end);
    }
  }

  lemma UpperMoves(lines: seq<string>, st: State, t: Lexeme)
    requires lines != [] && On(lines, st.pos) && st.mode.Upper? && TakesUpper(lines, st.pos, t)
    ensures NextState(lines, st, t) == State(Top, t.end)
  {
  }

  lemma VarExpMoves(lines: seq<string>, st: State, t: Lexeme)
    requires st.mode.VarExp? && Takes(lines, st.pos, t, KExp, PieceLength(st.mode, Line(lines, st.pos)))
    ensures NextState(lines, st, t) == State(Top, Cursor(st.pos.line + 1, 0))
  {
    hide RestOfLine;
  }

  /** Everything up to the state's position is accounted for. */
  ghost predicate Accounted(lines: seq<string>, ts: seq<Lexeme>, st: State) {
    && Sound(lines, st)
    && (if st.mode == Finished then Covers(lines, ts, |Join(lines)|)
        else Offset(lines, st.pos) <= |Join(lines)| && Covers(lines, ts, Offset(lines, st.pos)))
  }

  lemma StepAccounted(lines: seq<string>, ts: seq<Lexeme>, st: State, t: Lexeme)
    requires Split(lines) && Accounted(lines, ts, st) && Follows(lines, st, t)
    ensures Accounted(lines, ts + [t], NextState(lines, st, t))
  {
    hide Join, Follows, NextState, Covers, Offset, Split;
    SplitIsNotEmpty(lines);
    FollowsIsNotFinished(lines, st, t);
    StepMoves(lines, ts, st, t);
  }

  lemma {:induction false} LexedCovers(lines: seq<string>, ts: seq<Lexeme>)
    requires Split(lines) && Lexed(lines, ts)
    ensures Accounted(lines, ts, StateAfter(lines, ts))
  {
    hide Follows, NextState, Accounted, Split;
    SplitIsNotEmpty(lines);
    if ts == [] {
      StartCovers(lines);
    } else {
      var front, t := ts[..|ts| - 1], ts[|ts| - 1];
      LexedCovers(lines, front);
      StepAccounted(lines, front, StateAfter(lines, front), t);
      assert ts == front + [t];
    }
  }

  lemma SplitIsNotEmpty(lines: seq<string>)
    requires Split(lines)
    ensures lines != []
  {
  }

  lemma StartCovers(lines: seq<string>)
    requires lines != []
    ensures Accounted(lines, [], START)
  {
    assert lines[..0] == [];
    NothingSkipped(Join(lines), 0);
  }

  lemma FollowsIsNotFinished(lines: seq<string>, st: State, t: Lexeme)
    requires lines != [] && Follows(lines, st, t)
    ensures st.mode != Finished
  {
  }

  // -------------------------------------------------------------- whole sources

  /** The tokens account for the whole text, in order. */
  ghost predicate InOrder(lines: seq<string>, ts: seq<Lexeme>) {
    && ts != [] && (forall j | 0 <= j < |ts| :: Faithful(lines, ts[j]))
    && (forall i, j | 0 <= i < j < |ts| :: EndOffset(lines, ts[i].end) <= Offset(lines, ts[j].start))
    && Skipped(Span(Join(lines), 0, Offset(lines, ts[0].start)))
    && (forall j | 0 < j < |ts| :: Skipped(Span(Join(lines), EndOffset(lines, ts[j - 1].end), Offset(lines, ts[j].start))))
    && Skipped(Span(Join(lines), EndOffset(lines, ts[|ts| - 1].end), |Join(lines)|))
  }

  /**
   The tokens of a source are ordered and disjoint, true to its text, apart only by what
   may be skipped, and plain where they are raw code.
   */
  lemma TokensInOrder(lines: seq<string>, ts: seq<Lexeme>)
    requires Split(lines) && Tokenized(lines, ts)
    ensures InOrder(lines, ts)
  {
    hide Join, Clean, Skipped, Span, Lexed;
    LexedCovers(lines, ts);
    forall j | 0 <= j < |ts|
      ensures Faithful(lines, ts[j])
      ensures forall i | 0 <= i < j :: Faithful(lines, ts[i]) && EndOffset(lines, ts[i].end) <= Offset(lines, ts[j].start)
      ensures j > 0 ==> Skipped(Span(Join(lines), EndOffset(lines, ts[j - 1].end), Offset(lines, ts[j].start)))
      ensures j == 0 ==> Skipped(Span(Join(lines), 0, Offset(lines, ts[j].start)))
    {
      CoveredInOrder(lines, ts, |Join(lines)|, j);
    }
  }

  /** In a source without comments, only whitespace is left between tokens. */
  lemma GapsAreBlank(lines: seq<string>, ts: seq<Lexeme>)
    requires InOrder(lines, ts)
    requires forall k | 0 <= k < |Join(lines)| :: !Twice('$', Join(lines)[k..])
    ensures Blank(Span(Join(lines), 0, Offset(lines, ts[0].start)))
    ensures forall j | 0 < j < |ts| ::
              Blank(Span(Join(lines), EndOffset(lines, ts[j - 1].end), Offset(lines, ts[j].start)))
  {
    hide Join, Clean, Blank;
    NotAComment(Join(lines), 0, Offset(lines, ts[0].start));
    forall j | 0 < j < |ts|
      ensures Blank(Span(Join(lines), EndOffset(lines, ts[j - 1].end), Offset(lines, ts[j].start)))
    {
      NotAComment(Join(lines), EndOffset(lines, ts[j - 1].end), Offset(lines, ts[j].start));
    }
  }

  lemma NotAComment(text: string, a: nat, b: nat)
    requires Skipped(Span(text, a, b))
    requires forall k | 0 <= k < |text| :: !Twice('$', text[k..])
    ensures Blank(Span(text, a, b))
  {
    if a < b <= |text| {
      assert !Twice('$', text[a..]);
      assert b - a >= 2 ==> text[a..b][0] == text[a..][0] && text[a..b][1] == text[a..][1];
    }
  }
}
