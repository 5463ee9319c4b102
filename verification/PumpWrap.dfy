/**
 The line wrapper: an over-long line is broken at spaces and after commas and
 semicolons. When that ends, and what is printed when it does.
 */
module PumpWrap {
  import opened PumpInk
  import opened PumpSplit
  import opened PumpSyntax

  // --------------------------------------------------------- emitted lines

  /** What the emitted lines print, blanks aside. */
  function Printed(pieces: seq<string>): string {
    if pieces == [] then "" else Printed(pieces[..|pieces| - 1]) + Ink(pieces[|pieces| - 1])
  }

  /** An emitted line: an indentation, the piece, and perhaps the continuation mark. */
  ghost predicate Emitted(line: string, piece: string, lineConcat: string) {
    exists n: nat :: line == Repeat(n) + piece + lineConcat || line == Repeat(n) + piece + ""
  }

  ghost predicate AllEmitted(output: seq<string>, pieces: seq<string>, lineConcat: string) {
    && |output| == |pieces|
    && forall k | 0 <= k < |output| :: Emitted(output[k], pieces[k], lineConcat)
  }

  /** Every line has at most 80 characters. */
  predicate Narrow(output: seq<string>) {
    forall k | 0 <= k < |output| :: |output[k]| <= 80
  }

  lemma {:induction false} EmittedInk(output: seq<string>, pieces: seq<string>)
    requires AllEmitted(output, pieces, "")
    ensures Printed(output) == Printed(pieces)
  {
    hide Ink, Emitted;
    if output != [] {
      var last := |output| - 1;
      EmittedInk(output[..last], pieces[..last]);
      OneInk(output[last], pieces[last]);
    }
  }

  lemma OneInk(line: string, piece: string)
    requires Emitted(line, piece, "")
    ensures Ink(line) == Ink(piece)
  {
    hide Ink, Repeat;
    var n: nat :| line == Repeat(n) + piece + "";
    assert line == Repeat(n) + piece;
    InkConcat(Repeat(n), piece);
    InkBlank(Repeat(n));
  }

  lemma PrintedMore(pieces: seq<string>, piece: string)
    ensures Printed(pieces + [piece]) == Printed(pieces) + Ink(piece)
  {
    assert (pieces + [piece])[..|pieces|] == pieces;
  }

  lemma MoreEmitted(output: seq<string>, pieces: seq<string>, n: nat, piece: string, lineConcat: string)
    requires AllEmitted(output, pieces, lineConcat)
    ensures AllEmitted(output + [Repeat(n) + piece + lineConcat], pieces + [piece], lineConcat)
    ensures AllEmitted(output + [Repeat(n) + piece + ""], pieces + [piece], lineConcat)
    ensures Printed(pieces + [piece]) == Printed(pieces) + Ink(piece)
    ensures n + |piece| + |lineConcat| <= 80 && Narrow(output) ==>
              && Narrow(output + [Repeat(n) + piece + lineConcat])
              && Narrow(output + [Repeat(n) + piece + ""])
  {
    hide Ink, Printed;
    PrintedMore(pieces, piece);
    EmitOne(n, piece, lineConcat);
  }

  lemma EmitOne(n: nat, piece: string, lineConcat: string)
    ensures Emitted(Repeat(n) + piece + lineConcat, piece, lineConcat)
    ensures Emitted(Repeat(n) + piece + "", piece, lineConcat)
  {
  }

  lemma NothingEmitted(lineConcat: string)
    ensures AllEmitted([], [], lineConcat) && Printed([]) == "" && Narrow([])
  {
  }

  // ------------------------------------------------------------- the wrapper

  /** What one round emits and what it leaves are what it was given, blanks aside. */
  lemma CutInk(seg: string, max: int)
    requires CutAt(seg, max) >= 0
    ensures var piece := Strip(LStrip(seg)[..CutAt(seg, max)]);
            Ink(seg) == Ink(piece) + Ink(Rest(seg, max)) && |piece| <= CutAt(seg, max)
  {
    hide Ink, LStrip, RStrip, Strip;
    var l, k := LStrip(seg), CutAt(seg, max);
    assert l == l[..k] + ([l[k]] + l[k + 1..]);
    StripInk(seg);
    StripInk(l[..k]);
    InkConcat(l[..k], [l[k]] + l[k + 1..]);
    InkConcat([l[k]], l[k + 1..]);
    InkBlank([l[k]]);
    assert "" + Ink(l[k + 1..]) == Ink(l[k + 1..]);
  }

  /**
   Splits a long segment at spaces, one line for each part cut off. Not finished if a
   round finds no place to cut: then `EndsIff` says that the loop goes on for ever.
   */
  method SplitSegment(segment: string, indent: nat, max: int, newIndent: nat, newMax: int, lineConcat: string)
    returns (finished: bool, output: seq<string>, ghost pieces: seq<string>, seg: string,
             indent': nat, max': int)
    requires Solid(segment) && max == newMax + 4 && newIndent == indent + 4
    requires indent + max + |lineConcat| == 80
    ensures finished <==> Ends(segment, max, newMax)
    ensures AllEmitted(output, pieces, lineConcat) && (finished ==> Narrow(output))
    ensures if output == [] then indent' == indent && max' == max && seg == segment
            else indent' == newIndent && max' == newMax
    ensures finished ==> Ink(segment) == Printed(pieces) + Ink(seg) && EndsSolid(seg) && |Strip(seg)| <= max'
  {
    hide Ink, AllEmitted, LStrip, RFindSpace, Printed, Strip, Clamp, Repeat, Narrow, CutAt, Rest;
    finished, output, pieces, seg, indent', max' := true, [], [], segment, indent, max;
    NothingEmitted(lineConcat);
    assert Ink(segment) == "" + Ink(segment);
    while |Strip(seg)| > max'
      invariant Ends(seg, max', newMax) <==> Ends(segment, max, newMax)
      invariant AllEmitted(output, pieces, lineConcat) && finished
      invariant newMax >= 0 ==> Narrow(output)
      invariant if output == [] then indent' == indent && max' == max && seg == segment
                else indent' == newIndent && max' == newMax
      invariant Ink(segment) == Printed(pieces) + Ink(seg) && EndsSolid(seg)
      decreases |seg|
    {
      var splitAt := FindCut(seg, max');
      if splitAt == -1 {
        return false, output, pieces, seg, indent', max';
      }
      var piece := Strip(LStrip(seg)[..splitAt]);
      CutInk(seg, max');
      CutFits(seg, max');
      MoreEmitted(output, pieces, indent', piece, lineConcat);
      Regroup(Printed(pieces), Ink(piece), Ink(Rest(seg, max')));
      output := output + [Repeat(indent') + piece + lineConcat];
      pieces := pieces + [piece];
      seg := Rest(seg, max');
      indent', max' := newIndent, newMax;
    }
  }

  /** `seg.lstrip().rfind(' ', 0, max_len)` */
  method FindCut(seg: string, max: int) returns (k: int)
    ensures k == CutAt(seg, max)
  {
    var l := LStrip(seg);
    k := Clamp(max, |l|) - 1;
    while k >= 0 && l[k] != ' '
      invariant -1 <= k < |l| && RFindSpace(l, k + 1) == CutAt(seg, max)
    {
      k := k - 1;
    }
  }

  lemma Regroup(p: string, c: string, g: string)
    ensures p + (c + g) == p + c + g
  {
  }

  /** A cut leaves a solid end, and a piece narrower than the line. */
  lemma CutFits(seg: string, max: int)
    requires EndsSolid(seg) && |Strip(seg)| > max && CutAt(seg, max) >= 0
    ensures EndsSolid(Rest(seg, max))
    ensures max >= 0 ==> CutAt(seg, max) < max
    ensures |Strip(LStrip(seg)[..CutAt(seg, max)])| <= CutAt(seg, max)
  {
    StripFront(seg);
  }

  function Indent(line: string): nat {
    |line| - |LStrip(line)|
  }

  /** The room on the first line. */
  function Room(line: string, lineConcat: string): int {
    80 - Indent(line) - |lineConcat|
  }

  /** Only the first segment is ever split: it ends with the first comma or semicolon. */
  function FirstSegment(line: string): string
    requires Strip(line) != ""
  {
    Strip(line)[..FirstLength(Strip(line))]
  }

  /** The lines that are never wrapped to the end. */
  ghost predicate NeverFits(line: string, lineConcat: string) {
    Strip(line) != "" && Stuck(FirstSegment(line), Room(line, lineConcat), Room(line, lineConcat) - 4)
  }

  lemma StripSolid(s: string)
    ensures Strip(s) != "" ==> Solid(Strip(s))
  {
    hide LStrip, RStrip;
    RStripped(LStrip(s));
  }

  lemma FirstSegmentSolid(line: string)
    requires Strip(line) != ""
    ensures Solid(FirstSegment(line))
  {
    hide Strip, FirstLength;
    StripSolid(line);
    var n := FirstLength(Strip(line));
    assert FirstSegment(line)[0] == Strip(line)[0] && FirstSegment(line)[n - 1] == Strip(line)[n - 1];
  }

  /**
   The splitting loop comes to an end exactly on the other lines: after some number of
   rounds its condition fails.
   */
  lemma SplittingEnds(line: string, lineConcat: string)
    requires Strip(line) != ""
    ensures var max := Room(line, lineConcat);
            var newMax := max - 4;
            !NeverFits(line, lineConcat) <==> exists n: nat :: !Again(FirstSegment(line), max, newMax, n)
  {
    hide Again, Ends, Stuck, Strip, FirstSegment;
    var max := Room(line, lineConcat);
    FirstSegmentSolid(line);
    EndsUnlessStuck(FirstSegment(line), max, max - 4);
    EndsIff(FirstSegment(line), max, max - 4);
  }

  /** A line that is never wrapped to the end: 81 characters without a space. */
  lemma LongWordExample()
    ensures NeverFits(seq(81, _ => 'x'), "")
  {
    hide FirstLength, Strip, LStrip;
    var s := seq(81, _ => 'x');
    StripFront(s);
    var n := FirstLength(s);
    assert s[n - 1] == 'x';
    assert s[..81] == s;
    assert Trap(s, 0, 76, 80);
  }

  /** A line without long runs is always wrapped to the end. */
  lemma BreakableFits(line: string, lineConcat: string)
    requires Breakable(line, Room(line, lineConcat) - 4)
    ensures !NeverFits(line, lineConcat)
  {
    hide Breakable, Stuck, LStrip, RStrip, FirstLength;
    if Strip(line) != "" {
      var l, w := LStrip(line), Room(line, lineConcat) - 4;
      LStripped(line);
      RStripped(l);
      BreakablePart(line, |line| - |l|, |line|, w);
      assert line[|line| - |l|..|line|] == l;
      var n := |FirstSegment(line)|;
      BreakablePart(l, 0, n, w);
      assert l[0..n] == FirstSegment(line);
      BreakableIsNotStuck(FirstSegment(line), w + 4, w);
    }
  }

  /** What is printed, what is held back and what is still to come is the whole line. */
  ghost predicate Balanced(line: string, pieces: seq<string>, cur: string, rest: string) {
    Ink(line) == Printed(pieces) + Ink(cur) + Ink(rest)
  }

  /** Adds a segment to the line in hand, or emits that line and starts the next with it. */
  method Place(output: seq<string>, ghost pieces: seq<string>, curLine: string, seg: string,
               indent: nat, maxLen: int, newIndent: nat, newMax: int, lineConcat: string)
    returns (output': seq<string>, ghost pieces': seq<string>, curLine': string, indent': nat, maxLen': int)
    requires EndsSolid(seg) && AllEmitted(output, pieces, lineConcat)
    requires indent + maxLen + |lineConcat| == 80
    ensures AllEmitted(output', pieces', lineConcat) && EndsSolid(curLine')
    ensures Printed(pieces') + Ink(curLine') == Printed(pieces) + Ink(curLine) + Ink(seg)
    ensures (indent' == indent && maxLen' == maxLen) || (indent' == newIndent && maxLen' == newMax)
    ensures Narrow(output) && |RStrip(curLine)| <= maxLen && (|curLine + seg| < maxLen || |Strip(seg)| <= newMax) ==>
              Narrow(output') && |RStrip(curLine')| <= maxLen'
  {
    hide Ink, LStrip, RStrip, Strip, Printed, AllEmitted, Narrow, Repeat;
    output', pieces', indent', maxLen' := output, pieces, indent, maxLen;
    StripFront(curLine + seg);
    StripFront(seg);
    if |RStrip(curLine + seg)| < maxLen {
      curLine' := LStrip(curLine + seg);
      StripFront(curLine');
      StripInk(curLine + seg);
      InkConcat(curLine, seg);
      Regroup(Printed(pieces), Ink(curLine), Ink(seg));
    } else {
      var piece := RStrip(curLine);
      MoreEmitted(output, pieces, indent, piece, lineConcat);
      output' := output + [Repeat(indent) + piece + lineConcat];
      pieces' := pieces + [piece];
      indent', maxLen' := newIndent, newMax;
      curLine' := LStrip(seg);
      StripFront(curLine');
      StripInk(curLine);
      StripInk(seg);
    }
  }

  lemma NothingInHand()
    ensures Ink("") == "" && RStrip("") == ""
  {
  }

  /** The segments of a line carry its ink, and each ends with some. */
  lemma Prepare(line: string)
    ensures var segs := Segments(Strip(line));
            && (segs == [] <==> Strip(line) == "") && (segs == [] ==> Ink(line) == "")
            && (segs != [] ==> segs[0] == FirstSegment(line))
            && Ink(line) == Ink(Concat(segs)) && forall k | 0 <= k < |segs| :: EndsSolid(segs[k])
  {
    hide LStrip, RStrip, Strip, FirstLength;
    StripInk(line);
    StripSolid(line);
    SegmentsConcat(Strip(line));
    SegmentsEndSolid(Strip(line));
  }

  lemma FirstPlaced(line: string, pieces: seq<string>, cur: string, segs: seq<string>)
    requires segs != [] && Ink(line) == Ink(Concat(segs))
    requires Printed(pieces) + Ink(cur) == Ink(segs[0])
    ensures Balanced(line, pieces, cur, Concat(segs[1..]))
  {
    hide Ink, Printed;
    InkConcat(segs[0], Concat(segs[1..]));
  }

  lemma NextPlaced(line: string, before: seq<string>, held: string, pieces: seq<string>, cur: string,
                   segs: seq<string>, i: nat)
    requires i < |segs| && Balanced(line, before, held, Concat(segs[i..]))
    requires Printed(pieces) + Ink(cur) == Printed(before) + Ink(held) + Ink(segs[i])
    ensures Balanced(line, pieces, cur, Concat(segs[i + 1..]))
  {
    hide Ink, Printed;
    assert segs[i..][1..] == segs[i + 1..];
    InkConcat(segs[i], Concat(segs[i + 1..]));
    Regroup(Printed(before) + Ink(held), Ink(segs[i]), Ink(Concat(segs[i + 1..])));
  }

  /** After the last segment only the line in hand is left. */
  lemma Finish(line: string, pieces: seq<string>, cur: string, segs: seq<string>)
    requires Balanced(line, pieces, cur, Concat(segs[|segs|..]))
    ensures Printed(pieces + [Strip(cur)]) == Ink(line)
  {
    hide LStrip, RStrip, Strip, Printed;
    NothingInHand();
    StripInk(cur);
    PrintedMore(pieces, Strip(cur));
    assert segs[|segs|..] == [];
    assert Ink(line) == Printed(pieces) + Ink(cur) + "";
  }

  /**
   `WrapCode`: wrapping ends unless the line never fits, and then the pieces it emits
   carry the line's characters, blanks aside, in order. No line is too wide if every
   segment after the first fits a continuation line (and the first is not exactly as
   wide as its line, which puts it, whole, on a narrower one).
   */
  method WrapCode(line: string, lineConcat: string)
    returns (finished: bool, output: seq<string>, ghost pieces: seq<string>)
    ensures finished <==> !NeverFits(line, lineConcat)
    ensures finished ==> AllEmitted(output, pieces, lineConcat) && Printed(pieces) == Ink(line)
    ensures finished && lineConcat == "" ==> Printed(output) == Ink(line)
    ensures finished && SegmentsFit(line, lineConcat) ==> Narrow(output)
  {
    hide Ink, AllEmitted, LStrip, RStrip, Strip, Printed, Segments, Concat, Narrow, Ends, Stuck, FirstLength, Indent;
    var indent: nat := Indent(line);
    var maxLen := 80 - indent - |lineConcat|;
    var newIndent: nat, newMax := indent + 4, maxLen - 4;
    var segs := Segments(Strip(line));
    finished, output, pieces := true, [], [];
    NothingEmitted(lineConcat);
    Prepare(line);
    if segs == [] {
      return;
    }
    var seg;
    FirstSegmentSolid(line);
    EndsUnlessStuck(segs[0], maxLen, newMax);
    finished, output, pieces, seg, indent, maxLen :=
      SplitSegment(segs[0], indent, maxLen, newIndent, newMax, lineConcat);
    if !finished {
      return;
    }
    var curLine;
    ghost var before := pieces;
    NothingInHand();
    StripFront(seg);
    output, pieces, curLine, indent, maxLen :=
      Place(output, pieces, "", seg, indent, maxLen, newIndent, newMax, lineConcat);
    assert Printed(before) + "" + Ink(seg) == Printed(before) + Ink(seg);
    FirstPlaced(line, pieces, curLine, segs);
    for i := 1 to |segs|
      invariant AllEmitted(output, pieces, lineConcat) && EndsSolid(curLine)
      invariant indent + maxLen + |lineConcat| == 80
      invariant Balanced(line, pieces, curLine, Concat(segs[i..]))
      invariant SegmentsFit(line, lineConcat) ==> Narrow(output) && |RStrip(curLine)| <= maxLen
    {
      ghost var before, held := pieces, curLine;
      output, pieces, curLine, indent, maxLen :=
        Place(output, pieces, curLine, segs[i], indent, maxLen, newIndent, newMax, lineConcat);
      NextPlaced(line, before, held, pieces, curLine, segs, i);
    }
    Finish(line, pieces, curLine, segs);
    StripFront(curLine);
    var piece := Strip(curLine);
    MoreEmitted(output, pieces, indent, piece, lineConcat);
    output := output + [Repeat(indent) + piece + ""];
    pieces := pieces + [piece];
    if lineConcat == "" {
      EmittedInk(output, pieces);
    }
  }

  /** The segments of a line, as far as their width matters. */
  predicate SegmentsFit(line: string, lineConcat: string) {
    var segs := Segments(Strip(line));
    && (segs != [] ==> |segs[0]| != Room(line, lineConcat))
    && forall k | 1 <= k < |segs| :: |Strip(segs[k])| <= Room(line, lineConcat) - 4
  }

  // ------------------------------------------------------------- even segments

  predicate Beat(s: string, k: nat, width: nat)
    requires k + width <= |s|
  {
    (exists i | k <= i < k + width :: Stop(s[i])) && (exists j | k <= j < k + width :: !Stop(s[j]))
  }

  /** In every window of this width there are a stop and another character. */
  predicate Paced(s: string, width: int) {
    width > 0 && forall k | 0 <= k <= |s| - width :: Beat(s, k, width)
  }

  /** Then no segment is wider. */
  lemma {:induction false} PacedSegments(s: string, width: int)
    requires Paced(s, width)
    ensures forall k | 0 <= k < |Segments(s)| :: |Segments(s)[k]| <= width
    decreases |s|
  {
    if s != "" {
      hide FirstLength;
      var n := FirstLength(s);
      FirstIsNarrow(s, width);
      forall k | 0 <= k <= |s[n..]| - width ensures Beat(s[n..], k, width) {
        assert Beat(s, n + k, width);
        assert forall j | 0 <= j < |s[n..]| :: s[n..][j] == s[n + j];
        assert forall j | n <= j < |s| :: s[j] == s[n..][j - n];
      }
      PacedSegments(s[n..], width);
      var segs := Segments(s[n..]);
      assert Segments(s) == [s[..n]] + segs;
      assert forall k | 1 <= k < |segs| + 1 :: ([s[..n]] + segs)[k] == segs[k - 1];
    }
  }

  lemma FirstIsNarrow(s: string, width: int)
    requires Paced(s, width) && s != ""
    ensures FirstLength(s) <= width
  {
    hide FirstLength;
    if |s| >= width {
      assert Beat(s, 0, width);
    }
  }

  /** A window across a stop and what follows it has both. */
  lemma PacedConcat(a: string, b: string, width: int)
    requires Paced(a, width) && Paced(b, width) && width >= 2
    requires a != "" && b != "" && Stop(a[|a| - 1]) && !Stop(b[0])
    ensures Paced(a + b, width)
  {
    var s := a + b;
    forall k | 0 <= k <= |s| - width ensures Beat(s, k, width) {
      if k + width <= |a| {
        assert Beat(a, k, width);
        assert forall j | 0 <= j < |a| :: s[j] == a[j] && a[j] == s[j];
      } else if k >= |a| {
        assert Beat(b, k - |a|, width);
        assert forall j | 0 <= j < |b| :: b[j] == s[|a| + j];
        assert forall j | |a| <= j < |s| :: s[j] == b[j - |a|];
      } else {
        assert s[|a| - 1] == a[|a| - 1] && s[|a|] == b[0];
      }
    }
  }

  lemma FirstLengthIs(s: string, m: nat)
    requires m < |s| && Stop(s[m]) && forall j | 0 <= j < m :: !Stop(s[j])
    requires m > 0
    ensures FirstLength(s) == m + 1
  {
    var n := Leading(s, false);
  }
}
