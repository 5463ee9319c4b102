/**
 The tokenizer as the script runs it: a search for the next pattern of the table, and
 a loop that emits the tokens around it. It finds the tokens of a source if there are
 any.
 */
module PumpScan {
  import opened PumpCover
  import opened PumpLexer
  import opened PumpPatterns
  import opened PumpSyntax
  import opened PumpText
  import opened Wrappers

  // ------------------------------------------------------------ finding one

  /** Nothing matches among the next `n` places of the line either. */
  lemma Scanned(lines: seq<string>, from: Cursor, line: nat, column: nat, n: nat)
    requires line < |lines| && column + n <= |lines[line]| && NoMarker(lines, from, Cursor(line, column))
    requires forall j | 0 <= j < n :: FirstMatch(TABLE, lines[line][column..][j..]).None?
    ensures NoMarker(lines, from, Cursor(line, column + n))
  {
    hide Opens, FirstMatch;
    forall c: Cursor | !Before(c, from) && Before(c, Cursor(line, column + n)) ensures !MarkerAt(lines, c) {
      if !Before(c, Cursor(line, column)) {
        var j := c.column - column;
        assert lines[line][column..][j..] == Line(lines, c);
        OpensMatches(Line(lines, c));
      }
    }
  }

  lemma ScannedLine(lines: seq<string>, from: Cursor, line: nat)
    requires line < |lines| && NoMarker(lines, from, Cursor(line, |lines[line]|))
    ensures NoMarker(lines, from, Cursor(line + 1, 0))
  {
    forall c: Cursor | !Before(c, from) && Before(c, Cursor(line + 1, 0)) ensures !MarkerAt(lines, c) {
      if !Before(c, Cursor(line, |lines[line]|)) {
        assert Line(lines, c) == "";
      }
    }
  }

  /** `FindFirst`: the next place where some pattern matches, and the token there. */
  method FindFirst(lines: seq<string>, cursor: Cursor) returns (found: Option<Lexeme>)
    requires On(lines, cursor)
    ensures found.None? ==> NoMarker(lines, cursor, Cursor(|lines|, 0))
    ensures found.Some? ==>
              var f := found.value;
              && On(lines, f.start) && f.start.line < |lines| && !Before(f.start, cursor)
              && NoMarker(lines, cursor, f.start) && MarkerAt(lines, f.start)
              && TakesMarker(lines, f.start, f)
  {
    hide Best, MatchHere, FirstMatch, Opens, NoMarker, MarkerAt;
    var line, column := cursor.line, cursor.column;
    NothingScanned(lines, cursor);
    while line < |lines|
      invariant On(lines, Cursor(line, column)) && !Before(Cursor(line, column), cursor)
      invariant NoMarker(lines, cursor, Cursor(line, column))
      decreases |lines| - line
    {
      var s := lines[line][column..];
      BestFits(TABLE, s);
      BestIsBest(TABLE, s);
      var best := Best(TABLE, s);
      if best.Some? {
        var i, n := best.value.0, best.value.1;
        Scanned(lines, cursor, line, column, i);
        MarkerFound(lines, line, column, i, n, best.value.2);
        return Some(Lexeme(Cursor(line, column + i), Cursor(line, column + i + n), s[i..i + n], best.value.2));
      }
      Scanned(lines, cursor, line, column, |s|);
      ScannedLine(lines, cursor, line);
      line, column := line + 1, 0;
    }
    return None;
  }

  lemma NothingScanned(lines: seq<string>, from: Cursor)
    ensures NoMarker(lines, from, from)
  {
  }

  lemma MarkerFound(lines: seq<string>, line: nat, column: nat, i: nat, n: nat, kind: Kind)
    requires line < |lines| && column + i + n <= |lines[line]|
    requires var r := lines[line][column..][i..]; FirstMatch(TABLE, r) == Some(kind) && MatchHere(kind, r) == Some(n)
    ensures var start := Cursor(line, column + i);
            && MarkerAt(lines, start)
            && TakesMarker(lines, start, Lexeme(start, Right(start, n), lines[line][column..][i..i + n], kind))
  {
    hide FirstMatch, MatchHere, Opens;
    var r := lines[line][column + i..];
    assert lines[line][column..][i..] == r;
    OpensMatches(r);
    assert lines[line][column..][i..i + n] == r[..n];
  }

  // -------------------------------------------------------- one token at a time

  /** The tokens so far have led to this state. */
  ghost predicate Reached(lines: seq<string>, ts: seq<Lexeme>, mode: Mode, pos: Cursor)
    requires lines != []
  {
    && Lexed(lines, ts) && StateAfter(lines, ts) == State(mode, pos)
    && (mode != Finished ==> On(lines, pos)) && (mode != Finished && mode != Top ==> pos.line < |lines|)
  }

  lemma Reach(lines: seq<string>, ts: seq<Lexeme>, mode: Mode, pos: Cursor, t: Lexeme)
    requires Split(lines) && Reached(lines, ts, mode, pos) && Follows(lines, State(mode, pos), t)
    ensures var next := NextState(lines, State(mode, pos), t);
            Reached(lines, ts + [t], next.mode, next.pos)
  {
    hide Follows, NextState, StateAfter, Lexed, Split;
    SplitIsNotEmpty(lines);
    OneMore(lines, ts, t);
    LexedCovers(lines, ts + [t]);
  }

  /** Takes the piece that has to come next; if it is not there, nothing can. */
  method TakePiece(lines: seq<string>, ts: seq<Lexeme>, mode: Mode, pos: Cursor)
    returns (ok: bool, ts': seq<Lexeme>, end: Cursor)
    requires Split(lines) && IsPiece(mode) && Reached(lines, ts, mode, pos)
    ensures !ok ==> Dead(lines, ts')
    ensures ok ==>
              && |ts'| == |ts| + 1 && ts <= ts' && On(lines, end)
              && ts'[|ts|].kind == PieceKind(mode) && ts'[|ts|].end == end
              && var next := NextState(lines, State(mode, pos), ts'[|ts|]);
                 Reached(lines, ts', next.mode, next.pos)
  {
    hide NextState, Reached, Split, PieceLength;
    SplitIsNotEmpty(lines);
    ReachedIsOn(lines, ts, mode, pos);
    var n := PieceLength(mode, Line(lines, pos));
    if n.None? {
      DeadHere(lines, ts, mode, pos);
      return false, ts, pos;
    }
    end := Right(pos, n.value);
    var t := Lexeme(pos, end, Line(lines, pos)[..n.value], PieceKind(mode));
    Reach(lines, ts, mode, pos, t);
    return true, ts + [t], end;
  }

  lemma ReachedIsOn(lines: seq<string>, ts: seq<Lexeme>, mode: Mode, pos: Cursor)
    requires lines != [] && Reached(lines, ts, mode, pos) && mode != Finished
    ensures On(lines, pos) && (mode != Top ==> pos.line < |lines|)
  {
  }

  lemma DeadHere(lines: seq<string>, ts: seq<Lexeme>, mode: Mode, pos: Cursor)
    requires lines != [] && Reached(lines, ts, mode, pos) && mode != Finished
    requires forall t :: !Follows(lines, State(mode, pos), t)
    ensures Dead(lines, ts)
  {
  }

  /** What follows `$var`: an identifier, `=`, and unless a block comes, an expression. */
  method TokenizeVar(lines: seq<string>, ts: seq<Lexeme>, start: Cursor)
    returns (ok: bool, ts': seq<Lexeme>, pos: Cursor)
    requires Split(lines) && Reached(lines, ts, VarId, start)
    ensures ok ==> ts <= ts' && Reached(lines, ts', Top, pos)
    ensures !ok ==> Dead(lines, ts')
  {
    hide Reached, Split, PieceLength, Spaces;
    SplitIsNotEmpty(lines);
    pos := start;
    var end;
    ok, ts', end := TakePiece(lines, ts, VarId, pos);
    if !ok {
      return;
    }
    pos := PastSpaces(lines, end);
    ok, ts', end := TakePiece(lines, ts', VarEq, pos);
    if !ok {
      return;
    }
    pos := PastSpaces(lines, end);
    if !Twice('[', Line(lines, pos)) {
      ok, ts', end := TakePiece(lines, ts', VarExp, pos);
      pos := Cursor(end.line + 1, 0);
    }
  }

  /** What follows `$for`: an identifier, and one space at most. */
  method TokenizeFor(lines: seq<string>, ts: seq<Lexeme>, start: Cursor)
    returns (ok: bool, ts': seq<Lexeme>, pos: Cursor)
    requires Split(lines) && Reached(lines, ts, ForId, start)
    ensures ok ==> ts <= ts' && Reached(lines, ts', Top, pos)
    ensures !ok ==> Dead(lines, ts')
  {
    hide Reached, Split;
    SplitIsNotEmpty(lines);
    var end;
    ok, ts', end := TakePiece(lines, ts, ForId, start);
    pos := PastOneSpace(lines, end);
  }

  /** What follows `$range`: an identifier and two expressions with `..` between them. */
  method TokenizeRange(lines: seq<string>, ts: seq<Lexeme>, start: Cursor)
    returns (ok: bool, ts': seq<Lexeme>, pos: Cursor)
    requires Split(lines) && Reached(lines, ts, RangeId, start)
    ensures ok ==> ts <= ts' && Reached(lines, ts', Top, pos)
    ensures !ok ==> Dead(lines, ts')
  {
    hide Reached, Split, Spaces;
    SplitIsNotEmpty(lines);
    pos := start;
    var end;
    ok, ts', end := TakePiece(lines, ts, RangeId, pos);
    if !ok {
      return;
    }
    pos := PastSpaces(lines, end);
    ok, ts', pos := TakePiece(lines, ts', Lower, pos);
    if !ok {
      return;
    }
    ok, ts', pos := TakePiece(lines, ts', Dots, pos);
    if !ok {
      return;
    }
    ok, ts', pos := TakeUpper(lines, ts', pos);
  }

  /** The upper bound: the rest of the line, if there is a next line. */
  method TakeUpper(lines: seq<string>, ts: seq<Lexeme>, start: Cursor)
    returns (ok: bool, ts': seq<Lexeme>, pos: Cursor)
    requires Split(lines) && Reached(lines, ts, Upper, start)
    ensures ok ==> ts <= ts' && Reached(lines, ts', Top, pos)
    ensures !ok ==> Dead(lines, ts')
  {
    hide Reached, Split, SubString;
    SplitIsNotEmpty(lines);
    ReachedIsOn(lines, ts, Upper, start);
    pos := Cursor(start.line + 1, 0);
    var text := SubString(lines, start, pos);
    if text.None? {
      DeadHere(lines, ts, Upper, start);
      return false, ts, pos;
    }
    var t := Lexeme(start, pos, text.value, KExp);
    Reach(lines, ts, Upper, start, t);
    return true, ts + [t], pos;
  }

  /** What follows a lone `$`: an expression up to the parenthesis that closes it. */
  method TokenizeDollar(lines: seq<string>, ts: seq<Lexeme>, start: Cursor)
    returns (ok: bool, ts': seq<Lexeme>, pos: Cursor)
    requires Split(lines) && Reached(lines, ts, DollarExp, start)
    ensures ok ==> ts <= ts' && Reached(lines, ts', Top, pos)
    ensures !ok ==> Dead(lines, ts')
  {
    hide Reached, Split;
    SplitIsNotEmpty(lines);
    ok, ts', pos := TakePiece(lines, ts, DollarExp, start);
  }

  /** Emits the code before a token of the table, if any, and the token. */
  method EmitFound(lines: seq<string>, ts: seq<Lexeme>, pos: Cursor, found: Lexeme) returns (ts': seq<Lexeme>)
    requires Split(lines) && Reached(lines, ts, Top, pos)
    requires On(lines, found.start) && found.start.line < |lines| && !Before(found.start, pos)
    requires NoMarker(lines, pos, found.start) && MarkerAt(lines, found.start)
    requires TakesMarker(lines, found.start, found)
    ensures |ts'| == |ts| + (if found.start == pos then 1 else 2)
    ensures ts <= ts' && ts'[|ts'| - 1] == found && Reached(lines, ts', AfterMarker(found.kind), found.end)
  {
    hide Reached, Split, NoMarker, MarkerAt, FirstMatch, MatchHere, Takes, SubString;
    SplitIsNotEmpty(lines);
    ReachedIsOn(lines, ts, Top, pos);
    MarkerKind(lines, found);
    ts' := ts;
    if found.start != pos {
      NotAtMarker(lines, pos, found.start);
      CodeHasText(lines, pos, found.start);
      var text := SubString(lines, pos, found.start).value;
      var prev := Lexeme(pos, found.start, if Strips(found.kind) then Chomp(text) else text, KCode);
      Reach(lines, ts', Top, pos, prev);
      ts' := ts' + [prev];
      Reach(lines, ts', Marker, found.start, found);
    } else {
      Reach(lines, ts', Top, pos, found);
    }
    ts' := ts' + [found];
  }

  lemma MarkerKind(lines: seq<string>, t: Lexeme)
    requires TakesMarker(lines, t.start, t)
    ensures t.kind != KCode && StripsAt(lines, t.start) == Strips(t.kind)
    ensures FirstMatch(TABLE, Line(lines, t.start)) == Some(t.kind)
  {
    hide FirstMatch, MatchHere;
    FirstMatchIsFirst(TABLE, Line(lines, t.start));
    TableHasNoCode(t.kind, Line(lines, t.start));
  }

  lemma NotAtMarker(lines: seq<string>, pos: Cursor, c: Cursor)
    requires On(lines, pos) && On(lines, c) && !Before(c, pos) && c != pos && NoMarker(lines, pos, c)
    ensures Before(pos, c) && !MarkerAt(lines, pos)
  {
  }

  lemma CodeHasText(lines: seq<string>, pos: Cursor, c: Cursor)
    requires lines != [] && On(lines, pos) && On(lines, c) && c.line < |lines|
    ensures SubString(lines, pos, c).Some? && c != EOF
  {
  }

  // --------------------------------------------------------------- the loop

  lemma StartReached(lines: seq<string>)
    requires lines != []
    ensures Reached(lines, [], Top, Cursor(0, 0))
  {
  }

  /** How much of the text is before a position. */
  ghost function Passed(lines: seq<string>, pos: Cursor): nat {
    if On(lines, pos) then Offset(lines, pos) else 0
  }

  lemma PassedFits(lines: seq<string>, pos: Cursor)
    ensures Passed(lines, pos) <= |Join(lines)|
  {
    hide Join;
    if On(lines, pos) {
      OffsetFits(lines, pos);
    }
  }

  /** A token of the table takes some of the text. */
  lemma MarkerPasses(lines: seq<string>, pos: Cursor, found: Lexeme)
    requires On(lines, pos) && On(lines, found.start) && found.start.line < |lines| && !Before(found.start, pos)
    requires TakesMarker(lines, found.start, found)
    ensures On(lines, found.end) && Passed(lines, pos) < Passed(lines, found.end)
  {
    hide Join, FirstMatch, MatchHere;
    var n := MatchHere(found.kind, Line(lines, found.start));
    FirstMatchIsFirst(TABLE, Line(lines, found.start));
    TableHasNoCode(found.kind, Line(lines, found.start));
    Monotone(lines, pos, found.start);
  }

  /** More tokens do not lead back. */
  lemma {:induction false} LaterIsFurther(lines: seq<string>, ts: seq<Lexeme>, mode: Mode, pos: Cursor,
                                          ts': seq<Lexeme>, pos': Cursor)
    requires Split(lines) && Reached(lines, ts, mode, pos) && Reached(lines, ts', Top, pos')
    requires ts <= ts' && mode != Finished
    ensures Passed(lines, pos) <= Passed(lines, pos')
  {
    hide Join, Follows, Lexed, StateAfter, Split;
    SplitIsNotEmpty(lines);
    assert ts'[..|ts'|] == ts' && ts'[..|ts|] == ts;
    StatesMove(lines, ts', |ts|, |ts'|);
  }

  lemma {:induction false} StatesMove(lines: seq<string>, ts: seq<Lexeme>, m: nat, n: nat)
    requires Split(lines) && Lexed(lines, ts) && m <= n <= |ts| && StateAfter(lines, ts[..n]).mode != Finished
    ensures StateAfter(lines, ts[..m]).mode != Finished
    ensures Passed(lines, StateAfter(lines, ts[..m]).pos) <= Passed(lines, StateAfter(lines, ts[..n]).pos)
    decreases n - m
  {
    hide Join, Follows, NextState, Covers, Offset, Split, Lexed, StateAfter, Sound;
    SplitIsNotEmpty(lines);
    if m < n {
      LexedPrefix(lines, ts, n - 1);
      NothingAfterEnd(lines, ts, n - 1);
      var front := ts[..n - 1];
      var st := StateAfter(lines, front);
      LexedCovers(lines, front);
      StateIsOn(lines, st);
      StepMoves(lines, front, st, ts[n - 1]);
      assert ts[..n] == front + [ts[n - 1]];
      OneMore(lines, front, ts[n - 1]);
      StateIsOn(lines, StateAfter(lines, ts[..n]));
      StatesMove(lines, ts, m, n - 1);
    }
  }

  lemma StateIsOn(lines: seq<string>, st: State)
    requires Sound(lines, st) && st.mode != Finished
    ensures On(lines, st.pos)
  {
  }

  /** The raw code after the last token of the table. */
  method LastCode(lines: seq<string>, ts: seq<Lexeme>, pos: Cursor) returns (ts': seq<Lexeme>)
    requires Split(lines) && Reached(lines, ts, Top, pos) && NoMarker(lines, pos, Cursor(|lines|, 0))
    ensures ts <= ts' && Tokenized(lines, ts')
  {
    hide Reached, Split, NoMarker, MarkerAt, SubString, Follows, StateAfter, Lexed;
    SplitIsNotEmpty(lines);
    ReachedIsOn(lines, ts, Top, pos);
    RestHasText(lines, pos);
    var t := Lexeme(pos, EOF, SubString(lines, pos, EOF).value, KCode);
    LastFollows(lines, pos, t);
    Reach(lines, ts, Top, pos, t);
    ReachedEnd(lines, ts + [t], EOF);
    return ts + [t];
  }

  lemma RestHasText(lines: seq<string>, pos: Cursor)
    requires lines != [] && On(lines, pos)
    ensures SubString(lines, pos, EOF).Some?
  {
  }

  lemma LastFollows(lines: seq<string>, pos: Cursor, t: Lexeme)
    requires lines != [] && On(lines, pos) && NoMarker(lines, pos, Cursor(|lines|, 0))
    requires t.start == pos && t.end == EOF && t.kind == KCode && SubString(lines, pos, EOF) == Some(t.value)
    ensures Follows(lines, State(Top, pos), t)
  {
    hide SubString;
    if MarkerAt(lines, pos) {
      MarkerIsBeforeEnd(lines, pos);
    }
  }

  lemma ReachedEnd(lines: seq<string>, ts: seq<Lexeme>, pos: Cursor)
    requires lines != [] && Reached(lines, ts, Finished, pos)
    ensures Tokenized(lines, ts)
  {
  }

  /**
   `TokenizeLines` always ends, because every table token moves the position on. It
   returns the tokens of the source, and it exits with an error only if there are none.
   */
  method TokenizeLines(lines: seq<string>) returns (ok: bool, ts: seq<Lexeme>)
    requires Split(lines)
    ensures ok ==> Tokenized(lines, ts)
    ensures !ok ==> forall other :: !Tokenized(lines, other)
  {
    hide Reached, Split, Join, NoMarker, MarkerAt, TakesMarker, Tokenized, Dead, Offset, Passed;
    SplitIsNotEmpty(lines);
    var pos := Cursor(0, 0);
    ts := [];
    StartReached(lines);
    while true
      invariant Reached(lines, ts, Top, pos)
      decreases |Join(lines)| - Passed(lines, pos)
    {
      PassedFits(lines, pos);
      ReachedIsOn(lines, ts, Top, pos);
      var next := FindFirst(lines, pos);
      if next.None? {
        ts := LastCode(lines, ts, pos);
        return true, ts;
      }
      var found := next.value;
      ghost var before := pos;
      ts := EmitFound(lines, ts, pos, found);
      MarkerPasses(lines, before, found);
      ghost var sofar := ts;
      pos := found.end;
      ok := true;
      if found.kind == KVar {
        ok, ts, pos := TokenizeVar(lines, ts, pos);
      } else if found.kind == KFor {
        ok, ts, pos := TokenizeFor(lines, ts, pos);
      } else if found.kind == KRange {
        ok, ts, pos := TokenizeRange(lines, ts, pos);
      } else if found.kind == KDollar {
        ok, ts, pos := TokenizeDollar(lines, ts, pos);
      }
      if !ok {
        forall other ensures !Tokenized(lines, other) {
          DeadIsFinal(lines, ts, other);
        }
        return false, ts;
      }
      LaterIsFurther(lines, sofar, AfterMarker(found.kind), found.end, ts, pos);
    }
  }
}
