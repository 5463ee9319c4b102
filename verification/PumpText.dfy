/**
 A source as a list of lines: positions in it, and the text between them.
 */
module PumpText {
  import opened Wrappers

  datatype Cursor = Cursor(line: int, column: int)

  const EOF := Cursor(-1, -1)

  predicate Before(a: Cursor, b: Cursor) {
    a.line < b.line || (a.line == b.line && a.column < b.column)
  }

  /** A position in the text, or just after it. */
  predicate On(lines: seq<string>, c: Cursor) {
    && 0 <= c.line <= |lines|
    && 0 <= c.column <= (if c.line < |lines| then |lines[c.line]| else 0)
  }

  /** What is left of the line from a position on. */
  function Line(lines: seq<string>, c: Cursor): string {
    if 0 <= c.line < |lines| && 0 <= c.column <= |lines[c.line]| then lines[c.line][c.column..] else ""
  }

  function Right(c: Cursor, n: int): Cursor {
    Cursor(c.line, c.column + n)
  }

  function Join(lines: seq<string>): string {
    if lines == [] then "" else Join(lines[..|lines| - 1]) + lines[|lines| - 1]
  }

  /** How much of the text is before a position. */
  function Offset(lines: seq<string>, c: Cursor): nat
    requires On(lines, c)
  {
    |Join(lines[..c.line])| + c.column
  }

  /** `splitlines(True)`: every line but the last ends with a line break. */
  predicate Split(lines: seq<string>) {
    && lines != []
    && forall k | 0 <= k < |lines| - 1 :: lines[k] != "" && Break(lines[k][|lines[k]| - 1])
  }

  predicate Break(c: char) {
    c == '\n' || c == '\r'
  }

  lemma {:induction false} JoinConcat(a: seq<string>, b: seq<string>)
    ensures Join(a + b) == Join(a) + Join(b)
  {
    if b == [] {
      assert a + b == a;
    } else {
      JoinConcat(a, b[..|b| - 1]);
      assert (a + b)[..|a + b| - 1] == a + b[..|b| - 1];
    }
  }

  lemma TakeOne(lines: seq<string>, k: nat)
    requires k < |lines|
    ensures Join(lines[..k + 1]) == Join(lines[..k]) + lines[k]
  {
    assert lines[..k + 1][..k] == lines[..k];
  }

  /** The text is what precedes a line, the line, and what follows it. */
  lemma TextAround(lines: seq<string>, k: nat)
    requires k < |lines|
    ensures Join(lines) == Join(lines[..k]) + lines[k] + Join(lines[k + 1..])
    ensures Join(lines[..k + 1]) == Join(lines[..k]) + lines[k]
  {
    hide Join;
    assert lines == lines[..k + 1] + lines[k + 1..];
    JoinConcat(lines[..k + 1], lines[k + 1..]);
    TakeOne(lines, k);
  }

  /** The text between two offsets. */
  function Span(text: string, a: nat, b: nat): string {
    if a <= b <= |text| then text[a..b] else ""
  }

  lemma OffsetFits(lines: seq<string>, c: Cursor)
    requires On(lines, c)
    ensures Offset(lines, c) <= |Join(lines)|
    ensures c.line == |lines| ==> Offset(lines, c) == |Join(lines)|
  {
    if c.line < |lines| {
      TextAround(lines, c.line);
    } else {
      assert lines[..c.line] == lines;
    }
  }

  lemma SameLineSpan(lines: seq<string>, k: nat, a: nat, b: nat)
    requires k < |lines| && a <= b <= |lines[k]|
    ensures Offset(lines, Cursor(k, a)) <= Offset(lines, Cursor(k, b)) <= |Join(lines)|
    ensures Span(Join(lines), Offset(lines, Cursor(k, a)), Offset(lines, Cursor(k, b))) == lines[k][a..b]
  {
    hide Join;
    TextAround(lines, k);
    CutMiddle(Join(lines[..k]), lines[k], Join(lines[k + 1..]), a, b);
  }

  lemma CutMiddle(p: string, l: string, r: string, a: nat, b: nat)
    requires a <= b <= |l|
    ensures (p + l + r)[|p| + a..|p| + b] == l[a..b]
  {
    assert forall k | a <= k < b :: (p + l + r)[|p| + k] == l[k];
  }

  /** The end of a line and the start of the next are the same place. */
  lemma NextLine(lines: seq<string>, k: nat)
    requires k < |lines|
    ensures Offset(lines, Cursor(k, |lines[k]|)) == Offset(lines, Cursor(k + 1, 0))
  {
    TextAround(lines, k);
  }

  /** `SubString`; `None` is an index out of range. */
  function SubString(lines: seq<string>, start: Cursor, end: Cursor): Option<string>
    requires lines != [] && On(lines, start) && (end == EOF || On(lines, end))
  {
    var last := |lines| - 1;
    var stop := if end == EOF then Cursor(last, |lines[last]|) else end;
    if !Before(start, stop) then Some("")
    else if start.line == stop.line then Some(lines[start.line][start.column..stop.column])
    else if stop.line > last then None
    else
      Some(lines[start.line][start.column..] + Join(lines[start.line + 1..stop.line])
           + lines[stop.line][..stop.column])
  }

  function EndOffset(lines: seq<string>, c: Cursor): nat
    requires c == EOF || On(lines, c)
  {
    if c == EOF then |Join(lines)| else Offset(lines, c)
  }

  lemma Monotone(lines: seq<string>, a: Cursor, b: Cursor)
    requires On(lines, a) && On(lines, b) && !Before(b, a)
    ensures Offset(lines, a) <= Offset(lines, b)
  {
    if a.line < b.line {
      TextAround(lines, a.line);
      assert lines[..b.line] == lines[..a.line + 1] + lines[a.line + 1..b.line];
      JoinConcat(lines[..a.line + 1], lines[a.line + 1..b.line]);
    }
  }

  /** Text cut from the lines is text cut from the source. */
  lemma SubStringIsSpan(lines: seq<string>, start: Cursor, end: Cursor)
    requires lines != [] && On(lines, start) && (end == EOF || (On(lines, end) && !Before(end, start)))
    requires SubString(lines, start, end).Some?
    ensures Offset(lines, start) <= EndOffset(lines, end) <= |Join(lines)|
    ensures SubString(lines, start, end).value == Span(Join(lines), Offset(lines, start), EndOffset(lines, end))
  {
    hide Join, Span;
    OffsetFits(lines, start);
    if end == EOF {
      var last := |lines| - 1;
      NextLine(lines, last);
      OffsetFits(lines, Cursor(|lines|, 0));
      BoundedIsSpan(lines, start, Cursor(last, |lines[last]|));
    } else {
      BoundedIsSpan(lines, start, end);
    }
  }

  lemma BoundedIsSpan(lines: seq<string>, start: Cursor, stop: Cursor)
    requires lines != [] && On(lines, start) && On(lines, stop)
    requires !Before(stop, start) || start == Cursor(|lines|, 0)
    requires SubString(lines, start, stop).Some?
    ensures !Before(stop, start) ==> Offset(lines, start) <= Offset(lines, stop)
    ensures Offset(lines, stop) <= |Join(lines)|
    ensures SubString(lines, start, stop).value == Span(Join(lines), Offset(lines, start), Offset(lines, stop))
  {
    hide Join;
    OffsetFits(lines, start);
    OffsetFits(lines, stop);
    if start.line == stop.line && start.line < |lines| {
      SameLineSpan(lines, start.line, start.column, stop.column);
    } else if Before(start, stop) {
      Monotone(lines, start, stop);
      ManyLines(lines, start, stop);
    }
  }

  lemma ManyLines(lines: seq<string>, start: Cursor, stop: Cursor)
    requires On(lines, start) && On(lines, stop) && start.line < stop.line < |lines|
    requires Offset(lines, start) <= Offset(lines, stop) <= |Join(lines)|
    ensures Span(Join(lines), Offset(lines, start), Offset(lines, stop)) ==
            lines[start.line][start.column..] + Join(lines[start.line + 1..stop.line])
            + lines[stop.line][..stop.column]
  {
    hide Join;
    var a, b := start.line, stop.line;
    var p, mid, r := Join(lines[..a]), Join(lines[a + 1..b]), Join(lines[b + 1..]);
    TwoLines(lines, a, b);
    Cut5(p, lines[a], mid, lines[b], r, start.column, stop.column);
  }

  /** The text around two of its lines. */
  lemma TwoLines(lines: seq<string>, a: nat, b: nat)
    requires a < b < |lines|
    ensures Join(lines[..b]) == Join(lines[..a]) + lines[a] + Join(lines[a + 1..b])
    ensures Join(lines) == Join(lines[..b]) + lines[b] + Join(lines[b + 1..])
  {
    hide Join;
    TakeOne(lines, a);
    TextAround(lines, b);
    assert lines[..b] == lines[..a + 1] + lines[a + 1..b];
    JoinConcat(lines[..a + 1], lines[a + 1..b]);
  }

  lemma Cut5(p: string, l: string, mid: string, m: string, r: string, x: nat, y: nat)
    requires x <= |l| && y <= |m|
    ensures (p + l + mid + m + r)[|p| + x..|p| + |l| + |mid| + y] == l[x..] + mid + m[..y]
  {
    var t := l + mid + m;
    assert p + l + mid + m + r == p + t + r;
    CutMiddle(p, t, r, x, |l| + |mid| + y);
    assert t[x..|l| + |mid| + y] == l[x..] + mid + m[..y];
  }
}
