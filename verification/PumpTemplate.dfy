/**
 From the lines of the dispatcher template to its tokens. The lines of a section are
 given as they are in the file; the plain C around them is arbitrary.
 */
module PumpTemplate {
  import opened Dispatcher
  import opened Pump
  import opened PumpEval
  import opened PumpLexer
  import opened PumpParser
  import opened PumpPatterns
  import opened PumpText
  import opened Wrappers
  import PumpCover
  import PumpScan
  import S = PumpSyntax

  // ---------------------------------------------------------- following tokens

  /** Some tokens that the parser sees as these lead to this state. */
  ghost predicate Leads(lines: seq<string>, tokens: seq<S.Token>, mode: Mode, pos: Cursor)
    requires lines != []
  {
    exists ts :: Lexed(lines, ts) && StateAfter(lines, ts) == State(mode, pos) && ToTokens(ts) == tokens
  }

  lemma Step(lines: seq<string>, tokens: seq<S.Token>, mode: Mode, pos: Cursor, t: Lexeme)
    requires lines != [] && Leads(lines, tokens, mode, pos) && Follows(lines, State(mode, pos), t)
    ensures var next := NextState(lines, State(mode, pos), t);
            Leads(lines, tokens + [ToToken(t)], next.mode, next.pos)
  {
    hide Follows, NextState, ToToken;
    var ts :| Lexed(lines, ts) && StateAfter(lines, ts) == State(mode, pos) && ToTokens(ts) == tokens;
    OneMore(lines, ts, t);
    assert ToTokens(ts + [t]) == tokens + [ToToken(t)];
  }

  /** A token of the table. */
  lemma Mark(lines: seq<string>, tokens: seq<S.Token>, mode: Mode, pos: Cursor, kind: Kind, n: nat)
    requires lines != [] && Leads(lines, tokens, mode, pos) && On(lines, pos) && (mode == Top || mode == Marker)
    requires FirstMatch(TABLE, Line(lines, pos)) == Some(kind) && MatchHere(kind, Line(lines, pos)) == Some(n)
    ensures var t := Lexeme(pos, Right(pos, n), Line(lines, pos)[..n], kind);
            Leads(lines, tokens + [ToToken(t)], AfterMarker(kind), Right(pos, n))
  {
    hide FirstMatch, MatchHere, ToToken, Leads, Opens;
    var t := Lexeme(pos, Right(pos, n), Line(lines, pos)[..n], kind);
    OpensMatches(Line(lines, pos));
    FirstMatchIsFirst(TABLE, Line(lines, pos));
    PumpCover.TableHasNoCode(kind, Line(lines, pos));
    assert Follows(lines, State(mode, pos), t);
    Step(lines, tokens, mode, pos, t);
  }

  /** A piece of the line. */
  lemma Piece(lines: seq<string>, tokens: seq<S.Token>, mode: Mode, pos: Cursor, n: nat)
    requires lines != [] && Leads(lines, tokens, mode, pos) && On(lines, pos) && IsPiece(mode)
    requires PieceLength(mode, Line(lines, pos)) == Some(n)
    ensures var t := Lexeme(pos, Right(pos, n), Line(lines, pos)[..n], PieceKind(mode));
            var next := NextState(lines, State(mode, pos), t);
            Leads(lines, tokens + [ToToken(t)], next.mode, next.pos)
  {
    hide PieceLength, ToToken, Leads, NextState;
    Step(lines, tokens, mode, pos, Lexeme(pos, Right(pos, n), Line(lines, pos)[..n], PieceKind(mode)));
  }

  /** Raw code up to a marker, when no line break has to go. */
  lemma Raw(lines: seq<string>, tokens: seq<S.Token>, pos: Cursor, end: Cursor, text: string)
    requires lines != [] && Leads(lines, tokens, Top, pos) && On(lines, pos) && On(lines, end) && Before(pos, end)
    requires MarkerAt(lines, end) && NoMarker(lines, pos, end) && SubString(lines, pos, end) == Some(text)
    requires text != "" && text[|text| - 1] != '\n'
    ensures Leads(lines, tokens + [S.Code(text)], Marker, end)
  {
    hide FirstMatch, ToToken, Leads, Opens, SubString;
    PumpLexer.MarkerIsBeforeEnd(lines, end);
    var t := Lexeme(pos, end, text, KCode);
    assert !MarkerAt(lines, pos);
    Step(lines, tokens, Top, pos, t);
    CodeToken(t);
  }

  lemma CodeToken(t: Lexeme)
    requires t.kind == KCode
    ensures ToToken(t) == S.Code(t.value)
  {
  }

  // ------------------------------------------------------------ what matches

  lemma {:induction false} FirstMatchIs(table: seq<Kind>, r: string, t: nat)
    requires t < |table| && MatchHere(table[t], r).Some? && NoneAt(table[..t], r)
    ensures FirstMatch(table, r) == Some(table[t])
  {
    hide MatchHere;
    var front := table[..|table| - 1];
    if t < |table| - 1 {
      assert front[..t] == table[..t];
      FirstMatchIs(front, r, t);
    } else {
      assert front == table[..t];
      NoneMatches(front, r);
    }
  }

  lemma {:induction false} NoneMatches(table: seq<Kind>, r: string)
    requires NoneAt(table, r)
    ensures FirstMatch(table, r) == None
  {
    hide MatchHere;
    if table != [] {
      var front := table[..|table| - 1];
      assert forall t | 0 <= t < |front| :: front[t] == table[t];
      NoneMatches(front, r);
    }
  }

  lemma RangeFirst(r: string)
    requires |r| >= 8 && r[..7] == "$range " && !S.IsSpace(r[7])
    ensures FirstMatch(TABLE, r) == Some(KRange) && MatchHere(KRange, r) == Some(7)
  {
    assert r[0] == r[..7][0] && r[1] == r[..7][1] && r[6] == r[..7][6];
    assert r[..7][..6] == "$range" && r[..6] == r[..7][..6];
    OneSpace(r[6..]);
    assert forall u | 0 <= u < 5 :: MatchHere(TABLE[..5][u], r) == None;
    FirstMatchIs(TABLE, r, 5);
  }

  lemma ForFirst(r: string)
    requires |r| >= 6 && r[..5] == "$for " && !S.IsSpace(r[5])
    ensures FirstMatch(TABLE, r) == Some(KFor) && MatchHere(KFor, r) == Some(5)
  {
    assert r[0] == r[..5][0] && r[1] == r[..5][1] && r[4] == r[..5][4];
    assert r[..5][..4] == "$for" && r[..4] == r[..5][..4];
    OneSpace(r[4..]);
    assert forall u | 0 <= u < 3 :: MatchHere(TABLE[..3][u], r) == None;
    FirstMatchIs(TABLE, r, 3);
  }

  lemma OneSpace(r: string)
    requires |r| >= 2 && r[0] == ' ' && !S.IsSpace(r[1])
    ensures Spaces(r) == 1
  {
    assert r[1..][0] == r[1];
  }

  /** `$i` before a colon. */
  lemma IdFirst(r: string)
    requires |r| >= 3 && r[0] == '$' && r[1] == 'i' && r[2] == ':'
    ensures FirstMatch(TABLE, r) == Some(KDollarId) && MatchHere(KDollarId, r) == Some(2)
  {
    assert r[2..][0] == ':';
    assert forall u | 0 <= u < 6 :: MatchHere(TABLE[..6][u], r) == None;
    FirstMatchIs(TABLE, r, 6);
  }

  /** `$` before an expression in parentheses. */
  lemma DollarFirst(r: string)
    requires |r| >= 3 && r[0] == '$' && r[1] == '(' && r[2] != '$'
    ensures FirstMatch(TABLE, r) == Some(KDollar) && MatchHere(KDollar, r) == Some(1)
  {
    assert "$" <= r;
    assert forall u | 0 <= u < 8 :: MatchHere(TABLE[..8][u], r) == None;
    FirstMatchIs(TABLE, r, 8);
  }

  lemma OpenFirst(r: string)
    requires |r| >= 3 && r[0] == '[' && r[1] == '['
    ensures FirstMatch(TABLE, r) == Some(KOpen) && MatchHere(KOpen, r) == Some(if r[2] == '\n' then 3 else 2)
  {
    assert forall u | 0 <= u < 9 :: MatchHere(TABLE[..9][u], r) == None;
    FirstMatchIs(TABLE, r, 9);
  }

  lemma CloseFirst(r: string)
    requires |r| >= 3 && r[0] == ']' && r[1] == ']'
    ensures FirstMatch(TABLE, r) == Some(KClose) && MatchHere(KClose, r) == Some(if r[2] == '\n' then 3 else 2)
  {
    assert forall u | 0 <= u < 10 :: MatchHere(TABLE[..10][u], r) == None;
    FirstMatchIs(TABLE, r, 10);
  }

  lemma {:induction false} FindParenAt(s: string, i: nat, p: nat)
    requires i <= p < |s| && (s[p] == '(' || s[p] == ')')
    requires forall j | i <= j < p :: s[j] != '(' && s[j] != ')'
    ensures FindParen(s, i) == Some(p)
    decreases p - i
  {
    if i < p {
      FindParenAt(s, i + 1, p);
    }
  }

  // ------------------------------------------------------------ plain stretches

  /** No marker starts at `j`, if `next` follows the text. */
  predicate Quiet(m: string, j: nat, next: char)
    requires j < |m|
  {
    && m[j] != '$'
    && ((m[j] == '[' || m[j] == ']') ==> m[j] != if j + 1 < |m| then m[j + 1] else next)
  }

  /** No marker can start in this text, whatever starts with `next` follows it. */
  predicate Calm(m: string, next: char) {
    forall j | 0 <= j < |m| :: Quiet(m, j, next)
  }

  lemma CalmStretch(lines: seq<string>, k: nat, a: nat, m: string, next: char)
    requires k < |lines| && a + |m| <= |lines[k]| && lines[k][a..a + |m|] == m && Calm(m, next)
    requires a + |m| < |lines[k]| ==> lines[k][a + |m|] == next
    ensures NoMarker(lines, Cursor(k, a), Cursor(k, a + |m|))
  {
    hide Opens;
    forall c: Cursor | !Before(c, Cursor(k, a)) && Before(c, Cursor(k, a + |m|)) ensures !MarkerAt(lines, c) {
      CalmHere(lines[k], a, m, next, c.column - a);
    }
  }

  lemma CalmHere(line: string, a: nat, m: string, next: char, j: nat)
    requires a + |m| <= |line| && line[a..a + |m|] == m && Calm(m, next) && j < |m|
    requires a + |m| < |line| ==> line[a + |m|] == next
    ensures !Opens(line[a + j..])
  {
    var r := line[a + j..];
    assert r[0] == line[a..a + |m|][j] == m[j];
    if |r| >= 2 {
      assert r[1] == line[a + j + 1];
      assert j + 1 < |m| ==> r[1] == line[a..a + |m|][j + 1] == m[j + 1];
      assert j + 1 == |m| ==> r[1] == line[a + |m|] == next;
    }
    assert Quiet(m, j, next);
  }

  lemma EndOfLine(lines: seq<string>, k: nat)
    requires k < |lines|
    ensures NoMarker(lines, Cursor(k, |lines[k]|), Cursor(k + 1, 0))
  {
    forall c: Cursor | !Before(c, Cursor(k, |lines[k]|)) && Before(c, Cursor(k + 1, 0)) ensures !MarkerAt(lines, c) {
      assert Line(lines, c) == "";
    }
  }

  lemma JoinStretches(lines: seq<string>, a: Cursor, b: Cursor, c: Cursor)
    requires NoMarker(lines, a, b) && NoMarker(lines, b, c)
    ensures NoMarker(lines, a, c)
  {
    hide MarkerAt;
  }

  /** The rest of a line that is known as what was before and what comes. */
  lemma RestIs(lines: seq<string>, k: nat, p: string, r: string)
    requires k < |lines| && lines[k] == p + r
    ensures On(lines, Cursor(k, |p|)) && Line(lines, Cursor(k, |p|)) == r
  {
  }

  // ------------------------------------------------------------- whole phrases

  /** `$range id lo..hi`, in words: an identifier and a bound of one character each. */
  function RangeText(id: string, lo: string, hi: string): string {
    "$range " + id + " " + lo + ".." + hi + "\n"
  }

  lemma RangeTokens(lines: seq<string>, tokens: seq<S.Token>, k: nat, ind: string, id: string, lo: string, hi: string)
    requires k + 1 < |lines| && lines[k] == ind + RangeText(id, lo, hi)
    requires |id| == 1 && IdStart(id[0]) && |lo| == 1 && '0' <= lo[0] <= '9'
    requires Leads(lines, tokens, Marker, Cursor(k, |ind|))
    ensures Leads(lines, tokens + [S.RangeKw] + [S.Id(id)] + [S.Exp(lo)] + [S.DotDot] + [S.Exp(hi + "\n")],
                  Top, Cursor(k + 1, 0))
  {
    hide Leads, FirstMatch, MatchHere, Line, RangeText;
    var at := Cursor(k, |ind|);
    var r4 := hi + "\n";
    var r3 := ".." + r4;
    var r2 := lo + r3;
    var r1 := id + (" " + r2);
    var r0 := RangeText(id, lo, hi);
    RestIs(lines, k, ind, r0);
    Nested(id, lo, hi);
    Onward(lines, at, "$range ", r1);
    Onward(lines, Right(at, 7), id, " " + r2);
    Onward(lines, Right(at, 8), " ", r2);
    Onward(lines, Right(at, 9), lo, r3);
    Onward(lines, Right(at, 10), "..", r4);
    RangeStart(r1);
    Mark(lines, tokens, Marker, at, KRange, 7);
    RangePieces(lines, tokens + [S.RangeKw], k, |ind| + 7, id, lo, hi);
  }

  /** What is left of a line after the next piece of it. */
  lemma Onward(lines: seq<string>, pos: Cursor, a: string, b: string)
    requires On(lines, pos) && Line(lines, pos) == a + b && a != ""
    ensures On(lines, Right(pos, |a|)) && Line(lines, Right(pos, |a|)) == b
  {
    assert lines[pos.line][pos.column..][|a|..] == lines[pos.line][pos.column + |a|..];
  }

  lemma Nested(id: string, lo: string, hi: string)
    ensures RangeText(id, lo, hi) == "$range " + (id + (" " + (lo + (".." + (hi + "\n")))))
  {
    var a, b, c := "$range ", " ", "..";
    assert (((((a + id) + b) + lo) + c) + hi) + "\n" == a + (id + (b + (lo + (c + (hi + "\n")))));
  }

  lemma RangeStart(r: string)
    requires r != "" && !S.IsSpace(r[0])
    ensures FirstMatch(TABLE, "$range " + r) == Some(KRange) && MatchHere(KRange, "$range " + r) == Some(7)
  {
    assert ("$range " + r)[..7] == "$range ";
    RangeFirst("$range " + r);
  }

  lemma RangePieces(lines: seq<string>, tokens: seq<S.Token>, k: nat, p: nat, id: string, lo: string, hi: string)
    requires k + 1 < |lines| && |id| == 1 && IdStart(id[0]) && |lo| == 1 && '0' <= lo[0] <= '9'
    requires p + 5 <= |lines[k]|
    requires Line(lines, Cursor(k, p)) == id + (" " + (lo + (".." + (hi + "\n"))))
    requires Line(lines, Cursor(k, p + 1)) == " " + (lo + (".." + (hi + "\n")))
    requires Line(lines, Cursor(k, p + 2)) == lo + (".." + (hi + "\n"))
    requires Line(lines, Cursor(k, p + 3)) == ".." + (hi + "\n") && Line(lines, Cursor(k, p + 5)) == hi + "\n"
    requires Leads(lines, tokens, RangeId, Cursor(k, p))
    ensures Leads(lines, tokens + [S.Id(id)] + [S.Exp(lo)] + [S.DotDot] + [S.Exp(hi + "\n")], Top, Cursor(k + 1, 0))
  {
    hide Leads, Line, FindDots, IdLength, Spaces;
    var r4 := hi + "\n";
    var r3 := ".." + r4;
    var r2 := lo + r3;
    IdOfOne(id, " " + r2);
    OneSpace(" " + r2);
    Piece(lines, tokens, RangeId, Cursor(k, p), 1);
    assert (id + (" " + r2))[..1] == id;
    DotsAfterOne(lo, r4);
    Piece(lines, tokens + [S.Id(id)], Lower, Cursor(k, p + 2), 1);
    assert r2[..1] == lo;
    Piece(lines, tokens + [S.Id(id)] + [S.Exp(lo)], Dots, Cursor(k, p + 3), 2);
    UpperPiece(lines, tokens + [S.Id(id)] + [S.Exp(lo)] + [S.DotDot], k, p + 5, r4);
  }

  lemma IdOfOne(id: string, r: string)
    requires |id| == 1 && IdStart(id[0]) && r != "" && !WordChar(r[0])
    ensures IdLength(id + r) == Some(1)
  {
    assert (id + r)[1..] == r;
  }

  lemma DotsAfterOne(lo: string, r: string)
    requires |lo| == 1 && lo[0] != '.'
    ensures FindDots(lo + (".." + r)) == Some(1)
  {
    assert (lo + (".." + r))[1..] == ".." + r;
  }

  lemma UpperPiece(lines: seq<string>, tokens: seq<S.Token>, k: nat, p: nat, text: string)
    requires k + 1 < |lines| && p <= |lines[k]| && Line(lines, Cursor(k, p)) == text
    requires Leads(lines, tokens, Upper, Cursor(k, p))
    ensures Leads(lines, tokens + [S.Exp(text)], Top, Cursor(k + 1, 0))
  {
    hide Leads;
    assert Join([]) == "" && lines[k + 1..k + 1] == [];
    assert lines[k][p..] + "" + lines[k + 1][..0] == text;
    Step(lines, tokens, Upper, Cursor(k, p), Lexeme(Cursor(k, p), Cursor(k + 1, 0), text, KExp));
  }

  /** `$for id`, and the space behind it if there is one. */
  lemma ForTokens(lines: seq<string>, tokens: seq<S.Token>, k: nat, ind: string, id: string, r: string)
    requires k < |lines| && lines[k] == ind + ("$for " + id + r)
    requires |id| == 1 && IdStart(id[0]) && r != "" && !WordChar(r[0])
    requires Leads(lines, tokens, Marker, Cursor(k, |ind|))
    ensures Leads(lines, tokens + [S.ForKw] + [S.Id(id)], Top, Cursor(k, |ind| + 6 + if S.IsSpace(r[0]) then 1 else 0))
  {
    hide Leads, FirstMatch, MatchHere;
    var p := |ind|;
    RestIs(lines, k, ind, "$for " + id + r);
    assert lines[k] == (ind + "$for ") + (id + r);
    RestIs(lines, k, ind + "$for ", id + r);
    assert lines[k] == (ind + "$for " + id) + r;
    RestIs(lines, k, ind + "$for " + id, r);
    assert ("$for " + id + r)[..5] == "$for ";
    ForFirst("$for " + id + r);
    Mark(lines, tokens, Marker, Cursor(k, p), KFor, 5);
    IdOfOne(id, r);
    assert (id + r)[..1] == id;
    Piece(lines, tokens + [S.ForKw], ForId, Cursor(k, p + 5), 1);
  }

  /** Raw code within one line. */
  lemma RawInLine(lines: seq<string>, tokens: seq<S.Token>, k: nat, p: string, m: string, r: string)
    requires k < |lines| && lines[k] == p + m + r && m != "" && m[|m| - 1] != '\n'
    requires r != "" && Calm(m, r[0]) && Opens(r) && Leads(lines, tokens, Top, Cursor(k, |p|))
    ensures Leads(lines, tokens + [S.Code(m)], Marker, Cursor(k, |p| + |m|))
  {
    hide Leads, Opens, Calm;
    RestIs(lines, k, p + m, r);
    assert lines[k][|p|..|p| + |m|] == m && lines[k][|p| + |m|] == r[0];
    CalmStretch(lines, k, |p|, m, r[0]);
    Raw(lines, tokens, Cursor(k, |p|), Cursor(k, |p| + |m|), m);
  }

  lemma OpenTokens(lines: seq<string>, tokens: seq<S.Token>, mode: Mode, k: nat, p: string, r: string)
    requires k < |lines| && lines[k] == p + r && |r| >= 3 && r[0] == '[' && r[1] == '['
    requires (mode == Top || mode == Marker) && Leads(lines, tokens, mode, Cursor(k, |p|))
    ensures Leads(lines, tokens + [S.Open], Top, Cursor(k, |p| + if r[2] == '\n' then 3 else 2))
  {
    hide Leads, FirstMatch, MatchHere;
    RestIs(lines, k, p, r);
    OpenFirst(r);
    Mark(lines, tokens, mode, Cursor(k, |p|), KOpen, if r[2] == '\n' then 3 else 2);
  }

  lemma CloseTokens(lines: seq<string>, tokens: seq<S.Token>, k: nat, p: string, r: string)
    requires k < |lines| && lines[k] == p + r && |r| >= 3 && r[0] == ']' && r[1] == ']'
    requires Leads(lines, tokens, Marker, Cursor(k, |p|))
    ensures Leads(lines, tokens + [S.Close], Top, Cursor(k, |p| + if r[2] == '\n' then 3 else 2))
  {
    hide Leads, FirstMatch, MatchHere;
    RestIs(lines, k, p, r);
    CloseFirst(r);
    Mark(lines, tokens, Marker, Cursor(k, |p|), KClose, if r[2] == '\n' then 3 else 2);
  }

  /** `$(j - 1)` */
  lemma ExpTokens(lines: seq<string>, tokens: seq<S.Token>, k: nat, p: string, r: string)
    requires k < |lines| && lines[k] == p + ("$(j - 1)" + r)
    requires Leads(lines, tokens, Marker, Cursor(k, |p|))
    ensures Leads(lines, tokens + [S.Dollar] + [S.Exp("(j - 1)")], Top, Cursor(k, |p| + 8))
  {
    hide Leads, FirstMatch, MatchHere, Line, ParenLength;
    var at := Cursor(k, |p|);
    var inner := "(j - 1)" + r;
    RestIs(lines, k, p, "$(j - 1)" + r);
    assert "$(j - 1)" + r == "$" + inner;
    Onward(lines, at, "$", inner);
    DollarFirst("$" + inner);
    Mark(lines, tokens, Marker, at, KDollar, 1);
    ParenSeven(r);
    Piece(lines, tokens + [S.Dollar], DollarExp, Right(at, 1), 7);
  }

  lemma ParenSeven(r: string)
    ensures ParenLength("(j - 1)" + r) == Some(7) && ("(j - 1)" + r)[..7] == "(j - 1)"
  {
    hide FindParen;
    FindParenAt("(j - 1)" + r, 1, 6);
  }

  // ------------------------------------------------------------ a whole section

  /** The lines of a section, `gap` being what is between `$for j` and its comma. */
  function SectionLines(call: string, gap: string, bound: string): seq<string> {
    [ INDENT + RangeText("i", "0", bound),
      INDENT + ("$for i" + " [[\n"),
      "\n",
      (INDENT + "    ") + RangeText("j", "1", "i"),
      (INDENT + "    case ") + ("$i" + ":\n"),
      (INDENT + "        " + call + "(") + ("$for j" + (gap + ForRest())),
      INDENT + "        break;\n",
      "\n",
      INDENT + "]]\n" ]
  }

  /** What follows `$for j` and the gap. */
  function ForRest(): string {
    ", " + ("[[" + ArgRest())
  }

  function ArgRest(): string {
    " msg->argv[" + ("$(j - 1)" + ("].data " + ("]]" + ");\n")))
  }

  ghost predicate HoldsSection(lines: seq<string>, k: nat, call: string, gap: string, bound: string) {
    k + 9 < |lines| && lines[k..k + 9] == SectionLines(call, gap, bound)
  }

  /** A call's text has nothing a pattern could match. */
  predicate Ordinary(s: string) {
    forall j | 0 <= j < |s| :: s[j] != '$' && s[j] != '[' && s[j] != ']'
  }

  /** `$for j, [[` */
  lemma ArgsOpen(lines: seq<string>, tokens: seq<S.Token>, k: nat, ind: string, gap: string, r: string)
    requires k < |lines| && lines[k] == ind + ("$for j" + (gap + (", " + ("[[" + r)))) && (gap == "" || gap == " ")
    requires r != "" && r[0] == ' ' && Leads(lines, tokens, Marker, Cursor(k, |ind|))
    ensures Leads(lines, tokens + [S.ForKw] + [S.Id("j")] + [S.Code(", ")] + [S.Open],
                  Top, Cursor(k, |ind + "$for j" + gap| + 4))
  {
    hide Leads, Opens, Calm;
    var q := "[[" + r;
    assert "$for " + "j" + (gap + (", " + q)) == "$for j" + (gap + (", " + q));
    ForTokens(lines, tokens, k, ind, "j", gap + (", " + q));
    var p := ind + "$for j" + gap;
    assert lines[k] == p + ", " + q;
    Marks();
    RawInLine(lines, tokens + [S.ForKw] + [S.Id("j")], k, p, ", ", q);
    assert lines[k] == (p + ", ") + q;
    OpenTokens(lines, tokens + [S.ForKw] + [S.Id("j")] + [S.Code(", ")], Marker, k, p + ", ", q);
  }

  /** ` msg->argv[$(j - 1)].data ]]` */
  lemma ArgsBody(lines: seq<string>, tokens: seq<S.Token>, k: nat, p: string)
    requires k < |lines| && lines[k] == p + ArgRest() && Leads(lines, tokens, Top, Cursor(k, |p|))
    ensures Leads(lines, tokens + [S.Code(" msg->argv[")] + [S.Dollar] + [S.Exp("(j - 1)")] + [S.Code("].data ")]
                         + [S.Close], Top, Cursor(k, |p| + 28))
    ensures |p| + 28 <= |lines[k]| && lines[k][|p| + 28..] == ");\n"
  {
    hide Leads, Opens, Calm;
    var r6 := "]]" + ");\n";
    var r5 := "].data " + r6;
    var r4 := "$(j - 1)" + r5;
    Marks();
    assert lines[k] == p + " msg->argv[" + r4;
    RawInLine(lines, tokens, k, p, " msg->argv[", r4);
    var p5 := p + " msg->argv[";
    ExpTokens(lines, tokens + [S.Code(" msg->argv[")], k, p5, r5);
    var t4 := tokens + [S.Code(" msg->argv[")] + [S.Dollar] + [S.Exp("(j - 1)")];
    var p6 := p5 + "$(j - 1)";
    assert lines[k] == p6 + "].data " + r6;
    RawInLine(lines, t4, k, p6, "].data ", r6);
    var p7 := p6 + "].data ";
    assert lines[k] == p7 + r6;
    CloseTokens(lines, t4 + [S.Code("].data ")], k, p7, r6);
    assert lines[k] == (p7 + "]]") + ");\n";
    RestIs(lines, k, p7 + "]]", ");\n");
  }

  /** The tokens of the loop over the arguments: `$for j, [[ msg->argv[$(j - 1)].data ]]`. */
  lemma ArgTokens(lines: seq<string>, tokens: seq<S.Token>, k: nat, ind: string, gap: string)
    requires k < |lines| && lines[k] == ind + ("$for j" + (gap + ForRest())) && (gap == "" || gap == " ")
    requires Leads(lines, tokens, Marker, Cursor(k, |ind|))
    ensures Leads(lines, tokens + [S.ForKw] + [S.Id("j")] + [S.Code(", ")] + [S.Open] + [S.Code(" msg->argv[")]
                         + [S.Dollar] + [S.Exp("(j - 1)")] + [S.Code("].data ")] + [S.Close],
                  Top, Cursor(k, |ind| + 6 + |gap| + 32))
    ensures var e := |ind| + 6 + |gap| + 32; e <= |lines[k]| && lines[k][e..] == ");\n"
  {
    hide Leads, ArgRest;
    ArgRestStarts();
    ArgsOpen(lines, tokens, k, ind, gap, ArgRest());
    var p := ind + "$for j" + gap + ", " + "[[";
    assert lines[k] == p + ArgRest();
    ArgsBody(lines, tokens + [S.ForKw] + [S.Id("j")] + [S.Code(", ")] + [S.Open], k, p);
  }

  lemma ArgRestStarts()
    ensures ArgRest() != "" && ArgRest()[0] == ' '
  {
  }

  /** The pieces of raw code on the line, and what is at their ends. */
  lemma Marks()
    ensures Calm(", ", '[') && Calm(" msg->argv[", '$') && Calm("].data ", ']')
    ensures forall r: string :: Opens("[[" + r) && Opens("$(j - 1)" + r) && Opens("]]" + r)
  {
  }

  // ------------------------------------------------- raw code across line breaks

  /** A line from `a` on is plain. */
  lemma CalmLine(lines: seq<string>, k: nat, a: nat, m: string)
    requires k < |lines| && a + |m| == |lines[k]| && lines[k][a..] == m && Calm(m, '\n')
    ensures NoMarker(lines, Cursor(k, a), Cursor(k + 1, 0))
  {
    assert lines[k][a..a + |m|] == m;
    CalmStretch(lines, k, a, m, '\n');
    EndOfLine(lines, k);
    JoinStretches(lines, Cursor(k, a), Cursor(k, |lines[k]|), Cursor(k + 1, 0));
  }

  /** The front of a line is plain. */
  lemma CalmFront(lines: seq<string>, k: nat, p: string, r: string)
    requires k < |lines| && lines[k] == p + r && r != "" && Calm(p, r[0])
    ensures NoMarker(lines, Cursor(k, 0), Cursor(k, |p|))
  {
    hide Calm, NoMarker;
    assert lines[k][0..0 + |p|] == p;
    CalmStretch(lines, k, 0, p, r[0]);
  }

  lemma JoinOfOne(m: string)
    ensures Join([m]) == m && Join([]) == ""
  {
    assert [m][..0] == [];
  }

  lemma JoinOfTwo(m: string, n: string)
    ensures Join([m, n]) == m + n
  {
    JoinOfOne(m);
    assert [m, n][..1] == [m];
  }

  lemma CalmTexts(call: string)
    requires Ordinary(call)
    ensures Calm(INDENT, '$') && Calm(INDENT + "    ", '$') && Calm(INDENT + "    case ", '$')
    ensures Calm("\n", '\n') && Calm(":\n", '\n') && Calm(");\n", '\n') && Calm(INDENT + "        break;\n", '\n')
    ensures Calm(INDENT, ']') && Calm(INDENT + "        " + call + "(", '$')
  {
  }

  lemma Spaces20()
    ensures INDENT + "    " == "    " + INDENT && INDENT + "        " == "        " + INDENT
  {
  }

  /** Raw code from a place on one line to the front of a later one. */
  lemma RawAcross(lines: seq<string>, tokens: seq<S.Token>, k: nat, a: nat, j: nat, p: string, r: string, text: string)
    requires k < j < |lines| && a <= |lines[k]| && lines[j] == p + r && r != "" && Opens(r) && Calm(p, r[0])
    requires NoMarker(lines, Cursor(k, a), Cursor(j, 0)) && p != "" && p[|p| - 1] != '\n'
    requires text == lines[k][a..] + Join(lines[k + 1..j]) + p
    requires Leads(lines, tokens, Top, Cursor(k, a))
    ensures Leads(lines, tokens + [S.Code(text)], Marker, Cursor(j, |p|))
  {
    hide Leads, Opens, Calm, NoMarker, Join;
    RestIs(lines, j, p, r);
    CalmFront(lines, j, p, r);
    JoinStretches(lines, Cursor(k, a), Cursor(j, 0), Cursor(j, |p|));
    assert lines[j][..|p|] == p;
    assert text[|text| - 1] == p[|p| - 1];
    Raw(lines, tokens, Cursor(k, a), Cursor(j, |p|), text);
  }

  // The tokens of a section, part by part.

  function HeadPart(bound: string): seq<S.Token> {
    [S.RangeKw, S.Id("i"), S.Exp("0"), S.DotDot, S.Exp(bound + "\n"), S.Code(INDENT), S.ForKw, S.Id("i"), S.Open]
  }

  function InnerPart(): seq<S.Token> {
    [S.Code("\n    " + INDENT), S.RangeKw, S.Id("j"), S.Exp("1"), S.DotDot, S.Exp("i\n")]
  }

  function CasePart(): seq<S.Token> {
    [S.Code("    " + INDENT + "case "), S.DollarId("i")]
  }

  function CallPart(call: string): seq<S.Token> {
    [S.Code(":\n        " + INDENT + call + "("), S.ForKw, S.Id("j"), S.Code(", "), S.Open, S.Code(" msg->argv["),
     S.Dollar, S.Exp("(j - 1)"), S.Code("].data "), S.Close]
  }

  function EndPart(): seq<S.Token> {
    [S.Code(");\n        " + INDENT + "break;\n\n" + INDENT), S.Close]
  }

  function SectionTail(call: string, bound: string): seq<S.Token> {
    HeadPart(bound) + InnerPart() + CasePart() + CallPart(call) + EndPart()
  }

  lemma SectionLine(lines: seq<string>, k: nat, call: string, gap: string, bound: string, i: nat)
    requires HoldsSection(lines, k, call, gap, bound) && i < 9
    ensures k + i < |lines| && lines[k + i] == SectionLines(call, gap, bound)[i]
  {
    hide SectionLines;
    assert lines[k + i] == lines[k..k + 9][i];
  }

  /** `$range i 0..n` and `$for i [[` */
  lemma HeadTokens(lines: seq<string>, tokens: seq<S.Token>, k: nat, call: string, gap: string, bound: string)
    requires HoldsSection(lines, k, call, gap, bound) && Ordinary(call)
    requires Leads(lines, tokens, Marker, Cursor(k, 12))
    ensures Leads(lines, tokens + HeadPart(bound), Top, Cursor(k + 1, 22))
  {
    hide Leads, RangeText, Calm, Opens, HoldsSection;
    SectionLine(lines, k, call, gap, bound, 0);
    SectionLine(lines, k, call, gap, bound, 1);
    CalmTexts(call);
    RangeTokens(lines, tokens, k, INDENT, "i", "0", bound);
    var t1 := tokens + [S.RangeKw] + [S.Id("i")] + [S.Exp("0")] + [S.DotDot] + [S.Exp(bound + "\n")];
    var r := "$for i" + " [[\n";
    assert lines[k + 1] == "" + INDENT + r;
    OpensForms(r);
    RawInLine(lines, t1, k + 1, "", INDENT, r);
    assert r == "$for " + "i" + " [[\n";
    ForTokens(lines, t1 + [S.Code(INDENT)], k + 1, INDENT, "i", " [[\n");
    assert lines[k + 1] == (INDENT + "$for i ") + "[[\n";
    OpenTokens(lines, t1 + [S.Code(INDENT)] + [S.ForKw] + [S.Id("i")], Top, k + 1, INDENT + "$for i ", "[[\n");
    assert t1 + [S.Code(INDENT)] + [S.ForKw] + [S.Id("i")] + [S.Open] == tokens + HeadPart(bound);
  }

  lemma OpensForms(r: string)
    ensures r != "" && r[0] == '$' ==> Opens(r)
    ensures |r| >= 2 && r[0] == r[1] && (r[0] == '[' || r[0] == ']') ==> Opens(r)
  {
  }

  /** `$range j 1..i` */
  lemma InnerTokens(lines: seq<string>, tokens: seq<S.Token>, k: nat, call: string, gap: string, bound: string)
    requires HoldsSection(lines, k, call, gap, bound) && Ordinary(call)
    requires Leads(lines, tokens, Top, Cursor(k + 1, 22))
    ensures Leads(lines, tokens + InnerPart(), Top, Cursor(k + 4, 0))
  {
    hide Leads, Calm, Opens, HoldsSection, RangeText;
    SectionLine(lines, k, call, gap, bound, 1);
    SectionLine(lines, k, call, gap, bound, 2);
    SectionLine(lines, k, call, gap, bound, 3);
    SectionLine(lines, k, call, gap, bound, 4);
    CalmTexts(call);
    Spaces20();
    var ind, r := INDENT + "    ", RangeText("j", "1", "i");
    BlankLineBetween(lines, k);
    assert lines[k + 1][22..] == "";
    RangeTextStarts("j", "1", "i");
    OpensForms(r);
    assert "" + "\n" + ind == "\n    " + INDENT;
    RawAcross(lines, tokens, k + 1, 22, k + 3, ind, r, "\n    " + INDENT);
    RangeTokens(lines, tokens + [S.Code("\n    " + INDENT)], k + 3, ind, "j", "1", "i");
    assert "i" + "\n" == "i\n";
    assert tokens + [S.Code("\n    " + INDENT)]
           + [S.RangeKw] + [S.Id("j")] + [S.Exp("1")] + [S.DotDot] + [S.Exp("i\n")] == tokens + InnerPart();
  }

  lemma RangeTextStarts(id: string, lo: string, hi: string)
    ensures RangeText(id, lo, hi) != "" && RangeText(id, lo, hi)[0] == '$'
  {
  }

  /** `case $i` */
  lemma CaseTokens(lines: seq<string>, tokens: seq<S.Token>, k: nat, call: string, gap: string, bound: string)
    requires HoldsSection(lines, k, call, gap, bound) && Ordinary(call)
    requires Leads(lines, tokens, Top, Cursor(k + 4, 0))
    ensures Leads(lines, tokens + CasePart(), Top, Cursor(k + 4, 23))
  {
    hide Leads, Calm, Opens, HoldsSection, FirstMatch, MatchHere;
    SectionLine(lines, k, call, gap, bound, 4);
    CalmTexts(call);
    Spaces20();
    var m, r := INDENT + "    case ", "$i" + ":\n";
    assert m == (INDENT + "    ") + "case ";
    assert lines[k + 4] == "" + m + r;
    OpensForms(r);
    RawInLine(lines, tokens, k + 4, "", m, r);
    RestIs(lines, k + 4, m, r);
    IdFirst(r);
    assert r[..2] == "$i" && "$i"[1..] == "i";
    Mark(lines, tokens + [S.Code(m)], Marker, Cursor(k + 4, 21), KDollarId, 2);
    assert tokens + [S.Code(m)] + [S.DollarId("i")] == tokens + CasePart();
  }

  /** From the end of `[[` over the empty line to the next. */
  lemma BlankLineBetween(lines: seq<string>, k: nat)
    requires k + 3 < |lines| && |lines[k + 1]| == 22 && lines[k + 2] == "\n"
    ensures NoMarker(lines, Cursor(k + 1, 22), Cursor(k + 3, 0)) && Join(lines[k + 2..k + 3]) == "\n"
  {
    EndOfLine(lines, k + 1);
    CalmLine(lines, k + 2, 0, "\n");
    JoinStretches(lines, Cursor(k + 1, 22), Cursor(k + 2, 0), Cursor(k + 3, 0));
    assert lines[k + 2..k + 3] == [lines[k + 2]];
    JoinOfOne("\n");
  }

  /** The call and its arguments. */
  lemma CallTokens(lines: seq<string>, tokens: seq<S.Token>, k: nat, call: string, gap: string, bound: string)
    requires HoldsSection(lines, k, call, gap, bound) && (gap == "" || gap == " ") && Ordinary(call)
    requires Leads(lines, tokens, Top, Cursor(k + 4, 23))
    ensures var e := |call| + 21 + 38 + |gap|;
            && Leads(lines, tokens + CallPart(call), Top, Cursor(k + 5, e))
            && e <= |lines[k + 5]| && lines[k + 5][e..] == ");\n"
  {
    hide Leads, Calm, Opens, HoldsSection, ForRest;
    SectionLine(lines, k, call, gap, bound, 4);
    SectionLine(lines, k, call, gap, bound, 5);
    CalmTexts(call);
    Spaces20();
    var ind, r := INDENT + "        " + call + "(", "$for j" + (gap + ForRest());
    var text := ":\n        " + INDENT + call + "(";
    assert lines[k + 4][23..] == ":\n";
    CalmLine(lines, k + 4, 23, ":\n");
    JoinOfOne("");
    assert lines[k + 5..k + 5] == [];
    OpensForms(r);
    assert text == ":\n" + "" + ind;
    RawAcross(lines, tokens, k + 4, 23, k + 5, ind, r, text);
    ArgTokens(lines, tokens + [S.Code(text)], k + 5, ind, gap);
    assert tokens + [S.Code(text)] + [S.ForKw] + [S.Id("j")] + [S.Code(", ")] + [S.Open] + [S.Code(" msg->argv[")]
           + [S.Dollar] + [S.Exp("(j - 1)")] + [S.Code("].data ")] + [S.Close] == tokens + CallPart(call);
  }

  /** The rest of a case, and the end of the loop. */
  lemma JoinPair(lines: seq<string>, k: nat)
    requires k + 1 < |lines|
    ensures Join(lines[k..k + 2]) == lines[k] + lines[k + 1]
  {
    assert lines[k..k + 2] == [lines[k], lines[k + 1]];
    JoinOfTwo(lines[k], lines[k + 1]);
  }

  lemma EndTokens(lines: seq<string>, tokens: seq<S.Token>, k: nat, call: string, gap: string, bound: string, e: nat)
    requires HoldsSection(lines, k, call, gap, bound) && Ordinary(call)
    requires e <= |lines[k + 5]| && lines[k + 5][e..] == ");\n" && Leads(lines, tokens, Top, Cursor(k + 5, e))
    ensures Leads(lines, tokens + EndPart(), Top, Cursor(k + 8, 15))
  {
    hide Leads, Calm, Opens, HoldsSection, Join;
    SectionLine(lines, k, call, gap, bound, 6);
    SectionLine(lines, k, call, gap, bound, 7);
    SectionLine(lines, k, call, gap, bound, 8);
    CalmTexts(call);
    Spaces20();
    CalmLine(lines, k + 5, e, ");\n");
    CalmLine(lines, k + 6, 0, INDENT + "        break;\n");
    CalmLine(lines, k + 7, 0, "\n");
    JoinStretches(lines, Cursor(k + 5, e), Cursor(k + 6, 0), Cursor(k + 7, 0));
    JoinStretches(lines, Cursor(k + 5, e), Cursor(k + 7, 0), Cursor(k + 8, 0));
    JoinPair(lines, k + 6);
    var text := ");\n        " + INDENT + "break;\n\n" + INDENT;
    assert text == ");\n" + (lines[k + 6] + lines[k + 7]) + INDENT;
    OpensForms("]]\n");
    RawAcross(lines, tokens, k + 5, e, k + 8, INDENT, "]]\n", text);
    CloseTokens(lines, tokens + [S.Code(text)], k + 8, INDENT, "]]\n");
    assert tokens + [S.Code(text)] + [S.Close] == tokens + EndPart();
  }

  /** One section, from the first of its markers to the last. */
  lemma SectionTokens(lines: seq<string>, tokens: seq<S.Token>, k: nat, call: string, gap: string, bound: string)
    requires HoldsSection(lines, k, call, gap, bound) && (gap == "" || gap == " ") && Ordinary(call)
    requires Leads(lines, tokens, Marker, Cursor(k, 12))
    ensures Leads(lines, tokens + SectionTail(call, bound), Top, Cursor(k + 8, 15))
  {
    hide Leads, HoldsSection, HeadPart, InnerPart, CasePart, CallPart, EndPart;
    var h := tokens + HeadPart(bound);
    HeadTokens(lines, tokens, k, call, gap, bound);
    var i := h + InnerPart();
    InnerTokens(lines, h, k, call, gap, bound);
    var c := i + CasePart();
    CaseTokens(lines, i, k, call, gap, bound);
    var a := c + CallPart(call);
    CallTokens(lines, c, k, call, gap, bound);
    EndTokens(lines, a, k, call, gap, bound, |call| + 21 + 38 + |gap|);
    assert a + EndPart() == tokens + SectionTail(call, bound);
  }

  // ------------------------------------------------------- the parts as written

  lemma EmitThen(head: S.CNode, tail: S.CCode, rest: seq<S.Token>)
    ensures S.Emit(S.CThen(head, tail), rest) == S.EmitNode(head, S.Emit(tail, rest))
  {
  }

  lemma EmitRaw(text: string, rest: seq<S.Token>)
    ensures S.EmitNode(S.CRaw(text), rest) == [S.Code(text)] + rest
    ensures S.EmitNode(S.CId(text), rest) == [S.DollarId(text)] + rest
    ensures S.EmitNode(S.CExp(text), rest) == [S.Dollar, S.Exp(text)] + rest
  {
    assert [S.Dollar] + ([S.Exp(text)] + rest) == [S.Dollar, S.Exp(text)] + rest;
  }

  lemma EmitRange(id: string, lo: string, hi: string, rest: seq<S.Token>)
    ensures S.EmitNode(S.CRange(id, lo, hi), rest) == [S.RangeKw, S.Id(id), S.Exp(lo), S.DotDot, S.Exp(hi)] + rest
  {
    var a, b, c, d, e := [S.RangeKw], [S.Id(id)], [S.Exp(lo)], [S.DotDot], [S.Exp(hi)];
    assert a + (b + (c + (d + (e + rest)))) == [S.RangeKw, S.Id(id), S.Exp(lo), S.DotDot, S.Exp(hi)] + rest;
  }

  lemma EmitFor(id: string, sep: Option<string>, body: S.CCode, rest: seq<S.Token>)
    ensures S.EmitNode(S.CFor(id, sep, body), rest) ==
            [S.ForKw, S.Id(id)] + (if sep.Some? then [S.Code(sep.value)] else []) + [S.Open] + S.Emit(body, [S.Close] + rest)
  {
    hide S.Emit;
    var inner := S.Emit(body, [S.Close] + rest);
    var block := S.EmitBlock(body, rest);
    assert block == [S.Open] + inner;
    if sep.Some? {
      assert [S.ForKw] + ([S.Id(id)] + ([S.Code(sep.value)] + block))
          == [S.ForKw, S.Id(id)] + [S.Code(sep.value)] + [S.Open] + inner;
    } else {
      assert [S.ForKw] + ([S.Id(id)] + block) == [S.ForKw, S.Id(id)] + [] + [S.Open] + inner;
    }
  }

  lemma ArgEmits(rest: seq<S.Token>)
    ensures S.Emit(ArgSyntax(), rest)
         == [S.Code(" msg->argv["), S.Dollar, S.Exp("(j - 1)"), S.Code("].data ")] + rest
  {
    hide S.Emit, S.EmitNode;
    EmitEnd(rest);
    var a2 := S.CThen(S.CRaw("].data "), S.CEnd);
    EmitThen(a2.head, S.CEnd, rest);
    EmitRaw("].data ", rest);
    var a1 := S.CThen(S.CExp("(j - 1)"), a2);
    EmitThen(a1.head, a2, rest);
    EmitRaw("(j - 1)", S.Emit(a2, rest));
    EmitThen(S.CRaw(" msg->argv["), a1, rest);
    EmitRaw(" msg->argv[", S.Emit(a1, rest));
  }

  lemma EmitEnd(rest: seq<S.Token>)
    ensures S.Emit(S.CEnd, rest) == rest
  {
  }

  /** A case, between its brackets: the parts from the inner range on. */
  lemma CaseEmits(call: string, rest: seq<S.Token>)
    ensures S.Emit(CaseSyntax(call), [S.Close] + rest)
         == InnerPart() + CasePart() + CallPart(call) + EndPart() + rest
  {
    hide S.Emit, S.EmitNode, ArgSyntax;
    var close := [S.Close] + rest;
    var last := ");\n        " + INDENT + "break;\n\n" + INDENT;
    EmitEnd(close);
    var c6 := S.CThen(S.CRaw(last), S.CEnd);
    EmitThen(c6.head, S.CEnd, close);
    EmitRaw(last, close);
    var e6 := EndPart() + rest;
    assert [S.Code(last)] + close == e6;
    var c5 := S.CThen(S.CFor("j", Some(", "), ArgSyntax()), c6);
    EmitThen(c5.head, c6, close);
    EmitFor("j", Some(", "), ArgSyntax(), e6);
    ArgEmits([S.Close] + e6);
    var m4 := ":\n        " + INDENT + call + "(";
    var c4 := S.CThen(S.CRaw(m4), c5);
    EmitThen(c4.head, c5, close);
    EmitRaw(m4, S.Emit(c5, close));
    CallPartIs(call, e6);
    var e4 := CallPart(call) + e6;
    var c3 := S.CThen(S.CId("i"), c4);
    EmitThen(c3.head, c4, close);
    EmitRaw("i", e4);
    var m2 := "    " + INDENT + "case ";
    var c2 := S.CThen(S.CRaw(m2), c3);
    EmitThen(c2.head, c3, close);
    EmitRaw(m2, [S.DollarId("i")] + e4);
    var e2 := CasePart() + e4;
    assert [S.Code(m2)] + ([S.DollarId("i")] + e4) == e2;
    var c1 := S.CThen(S.CRange("j", "1", "i\n"), c2);
    EmitThen(c1.head, c2, close);
    EmitRange("j", "1", "i\n", e2);
    EmitThen(S.CRaw("\n    " + INDENT), c1, close);
    EmitRaw("\n    " + INDENT, [S.RangeKw, S.Id("j"), S.Exp("1"), S.DotDot, S.Exp("i\n")] + e2);
    assert CaseSyntax(call) == S.CThen(S.CRaw("\n    " + INDENT), c1);
    assert [S.Code("\n    " + INDENT)] + ([S.RangeKw, S.Id("j"), S.Exp("1"), S.DotDot, S.Exp("i\n")] + e2)
        == InnerPart() + e2;
    Regroup(InnerPart(), CasePart(), CallPart(call), EndPart(), rest);
  }

  lemma CallPartIs(call: string, rest: seq<S.Token>)
    ensures [S.Code(":\n        " + INDENT + call + "(")]
            + ([S.ForKw, S.Id("j")] + [S.Code(", ")] + [S.Open]
               + ([S.Code(" msg->argv["), S.Dollar, S.Exp("(j - 1)"), S.Code("].data ")] + ([S.Close] + rest)))
         == CallPart(call) + rest
  {
  }

  lemma Regroup<T>(a: seq<T>, b: seq<T>, c: seq<T>, d: seq<T>, e: seq<T>)
    ensures a + (b + (c + (d + e))) == a + b + c + d + e
  {
  }

  lemma SectionEmits(call: string, bound: string, tail: S.CCode, rest: seq<S.Token>)
    ensures S.Emit(SectionSyntax(call, bound + "\n", tail), rest) == SectionTail(call, bound) + S.Emit(tail, rest)
  {
    hide S.Emit, S.EmitNode, CaseSyntax, InnerPart, CasePart, CallPart, EndPart;
    var e := S.Emit(tail, rest);
    var s2 := S.CThen(S.CFor("i", None, CaseSyntax(call)), tail);
    EmitThen(s2.head, tail, rest);
    EmitFor("i", None, CaseSyntax(call), e);
    CaseEmits(call, e);
    var s1 := S.CThen(S.CRaw(INDENT), s2);
    EmitThen(s1.head, s2, rest);
    EmitRaw(INDENT, S.Emit(s2, rest));
    EmitThen(S.CRange("i", "0", bound + "\n"), s1, rest);
    EmitRange("i", "0", bound + "\n", S.Emit(s1, rest));
    var case_ := InnerPart() + CasePart() + CallPart(call) + EndPart();
    assert [S.RangeKw, S.Id("i"), S.Exp("0"), S.DotDot, S.Exp(bound + "\n")]
           + ([S.Code(INDENT)] + ([S.ForKw, S.Id("i")] + [] + [S.Open] + (case_ + e)))
        == HeadPart(bound) + case_ + e;
    assert HeadPart(bound) + case_ == SectionTail(call, bound);
  }

  // ------------------------------------------------------------ the whole file

  /** The tokens of the template, its raw code being these texts. */
  function TemplateTokens(bound: string, head: string, mid: string, mid': string, tail: string): seq<S.Token> {
    [S.Code(head)] + SectionTail(VOID_CALL, bound) + [S.Code(mid)] + SectionTail(INT_CALL, bound)
    + [S.Code(mid')] + SectionTail(STR_CALL, bound) + [S.Code(tail)]
  }

  lemma TemplateEmits(bound: string, head: string, mid: string, mid': string, tail: string)
    ensures S.Emit(TemplateSyntax(bound + "\n", head, mid, mid', tail), [])
         == TemplateTokens(bound, head, mid, mid', tail)
  {
    hide S.Emit, S.EmitNode, SectionSyntax, SectionTail;
    EmitEnd([]);
    var c6 := S.CThen(S.CRaw(tail), S.CEnd);
    EmitThen(c6.head, S.CEnd, []);
    EmitRaw(tail, []);
    var b := bound + "\n";
    var c5 := SectionSyntax(STR_CALL, b, c6);
    SectionEmits(STR_CALL, bound, c6, []);
    EmitThen(S.CRaw(mid'), c5, []);
    EmitRaw(mid', S.Emit(c5, []));
    var c3 := SectionSyntax(INT_CALL, b, S.CThen(S.CRaw(mid'), c5));
    SectionEmits(INT_CALL, bound, S.CThen(S.CRaw(mid'), c5), []);
    EmitThen(S.CRaw(mid), c3, []);
    EmitRaw(mid, S.Emit(c3, []));
    var c1 := SectionSyntax(VOID_CALL, b, S.CThen(S.CRaw(mid), c3));
    SectionEmits(VOID_CALL, bound, S.CThen(S.CRaw(mid), c3), []);
    EmitThen(S.CRaw(head), c1, []);
    EmitRaw(head, S.Emit(c1, []));
    var x, y, z := SectionTail(VOID_CALL, bound), SectionTail(INT_CALL, bound), SectionTail(STR_CALL, bound);
    assert [S.Code(head)] + (x + ([S.Code(mid)] + (y + ([S.Code(mid')] + (z + ([S.Code(tail)] + []))))))
        == [S.Code(head)] + x + [S.Code(mid)] + y + [S.Code(mid')] + z + [S.Code(tail)];
  }

  predicate AllCalm(lines: seq<string>) {
    forall k | 0 <= k < |lines| :: Calm(lines[k], '\n')
  }

  /**
   The template file: three sections for up to `bound` arguments, with lines of plain C
   before, between and after them.
   */
  ghost predicate IsTemplate(lines: seq<string>, bound: string, head: seq<string>, mid: seq<string>,
                             mid': seq<string>, tail: seq<string>)
  {
    && lines == head + SectionLines(VOID_CALL, "", bound) + mid + SectionLines(INT_CALL, " ", bound)
                + mid' + SectionLines(STR_CALL, " ", bound) + tail
    && head != [] && tail != []
    && AllCalm(head) && AllCalm(mid) && AllCalm(mid') && AllCalm(tail)
  }

  lemma {:induction false} PlainLines(lines: seq<string>, a: nat, b: nat)
    requires a <= b <= |lines| && forall k | a <= k < b :: Calm(lines[k], '\n')
    ensures NoMarker(lines, Cursor(a, 0), Cursor(b, 0))
    decreases b - a
  {
    hide Calm, MarkerAt;
    if a < b {
      PlainLines(lines, a, b - 1);
      assert lines[b - 1][0..] == lines[b - 1];
      CalmLine(lines, b - 1, 0, lines[b - 1]);
      JoinStretches(lines, Cursor(a, 0), Cursor(b - 1, 0), Cursor(b, 0));
    }
  }

  lemma JoinFirst(lines: seq<string>)
    requires lines != []
    ensures Join(lines) == lines[0] + Join(lines[1..])
  {
    hide Join;
    assert lines == [lines[0]] + lines[1..];
    JoinConcat([lines[0]], lines[1..]);
    JoinOfOne(lines[0]);
  }

  /** The raw code before a section: the plain lines from `a` on, and its indentation. */
  lemma Between(lines: seq<string>, tokens: seq<S.Token>, k: nat, a: nat, j: nat, plain: seq<string>, r: string)
    requires k < j < |lines| && a <= |lines[k]| && lines[j] == INDENT + r && r != "" && r[0] == '$'
    requires Leads(lines, tokens, Top, Cursor(k, a))
    requires if a == 0 then lines[k..j] == plain && AllCalm(plain)
             else a == |lines[k]| && lines[k + 1..j] == plain && AllCalm(plain)
    ensures Leads(lines, tokens + [S.Code(Join(plain) + INDENT)], Marker, Cursor(j, 12))
  {
    hide Leads, Opens, Calm, Join;
    OpensForms(r);
    CalmTexts("");
    var text := Join(plain) + INDENT;
    if a == 0 {
      assert forall i | k <= i < j :: lines[i] == plain[i - k];
      PlainLines(lines, k, j);
      JoinFirst(plain);
      assert plain[0] == lines[k] && plain[1..] == lines[k + 1..j];
      assert lines[k][0..] == lines[k];
    } else {
      assert forall i | k + 1 <= i < j :: lines[i] == plain[i - k - 1];
      PlainLines(lines, k + 1, j);
      EndOfLine(lines, k);
      JoinStretches(lines, Cursor(k, a), Cursor(k + 1, 0), Cursor(j, 0));
      assert lines[k][a..] == "" && "" + Join(plain) == Join(plain);
    }
    RawAcross(lines, tokens, k, a, j, INDENT, r, text);
  }

  /** The raw code after the last section. */
  lemma Ending(lines: seq<string>, tokens: seq<S.Token>, k: nat, plain: seq<string>)
    requires k + 1 < |lines| && lines[k + 1..] == plain && AllCalm(plain)
    requires Leads(lines, tokens, Top, Cursor(k, |lines[k]|))
    ensures Leads(lines, tokens + [S.Code(Join(plain))], Finished, EOF)
  {
    hide Leads, Opens, Calm, Join;
    var pos, last := Cursor(k, |lines[k]|), |lines| - 1;
    assert forall i | k + 1 <= i < |lines| :: lines[i] == plain[i - k - 1];
    PlainLines(lines, k + 1, |lines|);
    EndOfLine(lines, k);
    JoinStretches(lines, pos, Cursor(k + 1, 0), Cursor(|lines|, 0));
    assert plain == lines[k + 1..last] + [lines[last]];
    JoinConcat(lines[k + 1..last], [lines[last]]);
    JoinOfOne(lines[last]);
    assert lines[k][|lines[k]|..] == "" && lines[last][..|lines[last]|] == lines[last];
    assert SubString(lines, pos, EOF) == Some("" + Join(lines[k + 1..last]) + lines[last]);
    assert "" + Join(lines[k + 1..last]) + lines[last] == Join(plain);
    LastStep(lines, tokens, pos, Join(plain));
  }

  lemma LastStep(lines: seq<string>, tokens: seq<S.Token>, pos: Cursor, text: string)
    requires lines != [] && On(lines, pos) && NoMarker(lines, pos, Cursor(|lines|, 0))
    requires SubString(lines, pos, EOF) == Some(text) && Leads(lines, tokens, Top, pos)
    ensures Leads(lines, tokens + [S.Code(text)], Finished, EOF)
  {
    hide Leads, SubString;
    var t := Lexeme(pos, EOF, text, KCode);
    PumpScan.LastFollows(lines, pos, t);
    Step(lines, tokens, Top, pos, t);
  }

  lemma SectionAt(lines: seq<string>, pre: seq<string>, call: string, gap: string, bound: string, post: seq<string>)
    requires lines == pre + SectionLines(call, gap, bound) + post && post != []
    ensures HoldsSection(lines, |pre|, call, gap, bound) && |lines| == |pre| + 9 + |post|
    ensures lines[|pre|] == INDENT + RangeText("i", "0", bound) && lines[|pre| + 8] == INDENT + "]]\n"
    ensures |lines[|pre| + 8]| == 15
    ensures lines[|pre| + 9..] == post && lines[..|pre|] == pre
  {
    var s := SectionLines(call, gap, bound);
    assert lines[|pre|..|pre| + 9] == s;
    assert lines[|pre|] == s[0] && lines[|pre| + 8] == s[8];
  }

  lemma OrdinaryCalls()
    ensures Ordinary(VOID_CALL) && Ordinary(INT_CALL) && Ordinary(STR_CALL)
  {
  }

  /** A section and the plain lines before it, from wherever those start. */
  lemma NextSection(lines: seq<string>, tokens: seq<S.Token>, k: nat, a: nat, pre: seq<string>, plain: seq<string>,
                    call: string, gap: string, bound: string, post: seq<string>)
    requires lines == pre + SectionLines(call, gap, bound) + post && post != []
    requires (gap == "" || gap == " ") && Ordinary(call) && AllCalm(plain)
    requires k < |pre| && a <= |lines[k]|
    requires if a == 0 then lines[k..|pre|] == plain else a == |lines[k]| && lines[k + 1..|pre|] == plain
    requires Leads(lines, tokens, Top, Cursor(k, a))
    ensures Leads(lines, tokens + [S.Code(Join(plain) + INDENT)] + SectionTail(call, bound),
                  Top, Cursor(|pre| + 8, 15))
  {
    hide Leads, SectionLines, HoldsSection, RangeText, AllCalm, Join, SectionTail;
    SectionAt(lines, pre, call, gap, bound, post);
    RangeTextStarts("i", "0", bound);
    Between(lines, tokens, k, a, |pre|, plain, RangeText("i", "0", bound));
    SectionTokens(lines, tokens + [S.Code(Join(plain) + INDENT)], |pre|, call, gap, bound);
  }

  lemma NoTokensYet(lines: seq<string>)
    requires lines != []
    ensures Leads(lines, [], Top, Cursor(0, 0))
  {
    assert Lexed(lines, []) && StateAfter(lines, []) == State(Top, Cursor(0, 0)) && ToTokens([]) == [];
  }

  /** Three pieces of nine in a list, and what is around them. */
  lemma Around<T>(l: seq<T>, a: seq<T>, x: seq<T>, b: seq<T>, y: seq<T>, c: seq<T>, z: seq<T>, d: seq<T>)
    requires l == a + x + b + y + c + z + d && |x| == 9 && |y| == 9
    ensures l == a + x + (b + y + c + z + d) && l == (a + x + b) + y + (c + z + d)
    ensures l == (a + x + b + y + c) + z + d
  {
  }

  lemma Gaps<T>(l: seq<T>, p: seq<T>, x: seq<T>, b: seq<T>, post: seq<T>)
    requires l == (p + x + b) + post && |x| == 9
    ensures l[|p| + 9..|p + x + b|] == b
  {
  }

  /** The last section and the plain lines after it. */
  lemma LastSection(lines: seq<string>, tokens: seq<S.Token>, pre: seq<string>, call: string, gap: string,
                    plain: seq<string>, call': string, bound: string, tail: seq<string>) returns (t: seq<S.Token>)
    requires var s := SectionLines(call, gap, bound);
             |s| == 9 && lines == (pre + s + plain) + SectionLines(call', " ", bound) + tail
    requires tail != [] && AllCalm(plain) && AllCalm(tail) && Ordinary(call')
    requires Leads(lines, tokens, Top, Cursor(|pre| + 8, 15))
    ensures t == tokens + [S.Code(Join(plain) + INDENT)] + SectionTail(call', bound) + [S.Code(Join(tail))]
    ensures Leads(lines, t, Finished, EOF)
  {
    hide Leads, SectionLines, AllCalm, Join, SectionTail, Ordinary, HoldsSection;
    ghost var pre' := pre + SectionLines(call, gap, bound) + plain;
    var t' := LaterSection(lines, tokens, pre, call, gap, plain, call', bound, tail);
    SectionAt(lines, pre', call', " ", bound, tail);
    Ending(lines, t', |pre'| + 8, tail);
    t := t' + [S.Code(Join(tail))];
  }

  /** The tokens of the file. */
  lemma TemplateLexed(lines: seq<string>, bound: string, head: seq<string>, mid: seq<string>, mid': seq<string>,
                      tail: seq<string>)
    requires IsTemplate(lines, bound, head, mid, mid', tail)
    ensures Leads(lines, TemplateTokens(bound, Join(head) + INDENT, Join(mid) + INDENT, Join(mid') + INDENT, Join(tail)),
                  Finished, EOF)
  {
    hide Leads, SectionLines, AllCalm, Join, SectionTail, Ordinary;
    OrdinaryCalls();
    NoTokensYet(lines);
    NineLines(bound);
    var s1, s2, s3 := SectionLines(VOID_CALL, "", bound), SectionLines(INT_CALL, " ", bound), SectionLines(STR_CALL, " ", bound);
    var before := head + s1 + mid;
    Around(lines, head, s1, mid, s2, mid', s3, tail);
    assert before + s2 + mid' == head + s1 + mid + s2 + mid';
    var t1 := FirstSection(lines, head, bound, mid + s2 + mid' + s3 + tail);
    var t2 := LaterSection(lines, t1, head, VOID_CALL, "", mid, INT_CALL, bound, mid' + s3 + tail);
    var t3 := LastSection(lines, t2, before, INT_CALL, " ", mid', STR_CALL, bound, tail);
  }

  lemma NineLines(bound: string)
    ensures |SectionLines(VOID_CALL, "", bound)| == 9 && |SectionLines(INT_CALL, " ", bound)| == 9
  {
  }

  lemma FirstSection(lines: seq<string>, head: seq<string>, bound: string, post: seq<string>) returns (t: seq<S.Token>)
    requires lines == head + SectionLines(VOID_CALL, "", bound) + post && post != [] && head != [] && AllCalm(head)
    requires Leads(lines, [], Top, Cursor(0, 0)) && Ordinary(VOID_CALL)
    ensures t == [S.Code(Join(head) + INDENT)] + SectionTail(VOID_CALL, bound)
    ensures Leads(lines, t, Top, Cursor(|head| + 8, 15))
  {
    hide Leads, SectionLines, AllCalm, Join, SectionTail, Ordinary, HoldsSection;
    SectionAt(lines, head, VOID_CALL, "", bound, post);
    assert lines[0..|head|] == head;
    NextSection(lines, [], 0, 0, head, head, VOID_CALL, "", bound, post);
    assert [] + [S.Code(Join(head) + INDENT)] == [S.Code(Join(head) + INDENT)];
    t := [S.Code(Join(head) + INDENT)] + SectionTail(VOID_CALL, bound);
  }

  /** The plain lines after a section, and the section after them. */
  lemma LaterSection(lines: seq<string>, tokens: seq<S.Token>, pre: seq<string>, call: string, gap: string,
                     plain: seq<string>, call': string, bound: string, post: seq<string>) returns (t: seq<S.Token>)
    requires var s := SectionLines(call, gap, bound);
             |s| == 9 && lines == (pre + s + plain) + SectionLines(call', " ", bound) + post
    requires post != [] && AllCalm(plain) && Ordinary(call') && Leads(lines, tokens, Top, Cursor(|pre| + 8, 15))
    ensures t == tokens + [S.Code(Join(plain) + INDENT)] + SectionTail(call', bound)
    ensures Leads(lines, t, Top, Cursor(|pre + SectionLines(call, gap, bound) + plain| + 8, 15))
  {
    hide Leads, SectionLines, AllCalm, Join, SectionTail, Ordinary, HoldsSection;
    var s, s' := SectionLines(call, gap, bound), SectionLines(call', " ", bound);
    assert lines == (pre + s + plain) + (s' + post);
    Gaps(lines, pre, s, plain, s' + post);
    assert lines == pre + s + (plain + s' + post);
    SectionAt(lines, pre, call, gap, bound, plain + s' + post);
    NextSection(lines, tokens, |pre| + 8, 15, pre + s + plain, plain, call', " ", bound, post);
    t := tokens + [S.Code(Join(plain) + INDENT)] + SectionTail(call', bound);
  }

  /** What the file is turned into: its plain C, and the cases 0 to `n` of each section. */
  function Generated(n: nat, head: seq<string>, mid: seq<string>, mid': seq<string>, tail: seq<string>): string {
    (Join(head) + INDENT) + SectionText(VOID_CALL, n) + (Join(mid) + INDENT) + SectionText(INT_CALL, n)
    + (Join(mid') + INDENT) + SectionText(STR_CALL, n) + Join(tail)
  }

  /**
   From the lines of the template to C: they have tokens, and these mean the plain C with
   the cases 0 to `n` in order in each section, case k passing arguments 0 to k - 1.
   */
  lemma TemplateMeans(lines: seq<string>, read: string -> Expr, bound: string, n: nat, head: seq<string>,
                      mid: seq<string>, mid': seq<string>, tail: seq<string>) returns (ts: seq<Lexeme>)
    requires IsTemplate(lines, bound, head, mid, mid', tail) && Reads(read, bound + "\n", n)
    ensures Tokenized(lines, ts) && Meaning(ts, read) == Some(Generated(n, head, mid, mid', tail))
  {
    hide SectionLines, AllCalm, Join, SectionTail, SectionText, Lexed, StateAfter, S.Emit, ParseCode, RunIn, ToTokens;
    TemplateLexed(lines, bound, head, mid, mid', tail);
    var h, m, m', t := Join(head) + INDENT, Join(mid) + INDENT, Join(mid') + INDENT, Join(tail);
    ts :| Lexed(lines, ts) && StateAfter(lines, ts) == State(Finished, EOF)
          && ToTokens(ts) == TemplateTokens(bound, h, m, m', t);
    TemplateEmits(bound, h, m, m', t);
    DispatcherGenerated(read, bound + "\n", n, h, m, m', t);
  }

  /** The conversion of the template file. */
  method GenerateDispatcher(lines: seq<string>, read: string -> Expr, ghost bound: string, ghost n: nat,
                            ghost head: seq<string>, ghost mid: seq<string>, ghost mid': seq<string>,
                            ghost tail: seq<string>)
    returns (text: string)
    requires Split(lines) && IsTemplate(lines, bound, head, mid, mid', tail) && Reads(read, bound + "\n", n)
    ensures text == Generated(n, head, mid, mid', tail)
  {
    hide Tokenized, Meaning, IsTemplate, Split, Generated;
    PumpCover.SplitIsNotEmpty(lines);
    ghost var ts := TemplateMeans(lines, read, bound, n, head, mid, mid', tail);
    var ok;
    ghost var tokens;
    ok, tokens, text := Convert(lines, read);
    if ok {
      TokensAreUnique(lines, tokens, ts);
    }
  }
}
