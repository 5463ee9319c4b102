/**
 The text of a line as the wrapper sees it: its characters that are not blank, and
 the segments it falls into at commas and semicolons.
 */
module PumpInk {
  import opened PumpSyntax

  /** The characters that are not blank, in order. */
  function Ink(s: string): string {
    if s == "" then "" else (if IsSpace(s[0]) then "" else [s[0]]) + Ink(s[1..])
  }

  lemma {:induction false} InkConcat(a: string, b: string)
    ensures Ink(a + b) == Ink(a) + Ink(b)
  {
    if a == "" {
      assert a + b == b;
    } else {
      InkConcat(a[1..], b);
      assert (a + b)[0] == a[0] && (a + b)[1..] == a[1..] + b;
      var c := if IsSpace(a[0]) then "" else [a[0]];
      assert (c + Ink(a[1..])) + Ink(b) == c + (Ink(a[1..]) + Ink(b));
    }
  }

  lemma {:induction false} InkBlank(s: string)
    ensures Blank(s) <==> Ink(s) == ""
  {
    if s != "" {
      InkBlank(s[1..]);
      assert s == [s[0]] + s[1..];
    }
  }

  /** Stripping loses no ink. */
  lemma StripInk(s: string)
    ensures Ink(LStrip(s)) == Ink(s) && Ink(RStrip(s)) == Ink(s) && Ink(Strip(s)) == Ink(s)
  {
    hide LStrip, RStrip, Ink;
    LStripInk(s);
    RStripInk(s);
    RStripInk(LStrip(s));
  }

  lemma LStripInk(s: string)
    ensures Ink(LStrip(s)) == Ink(s)
  {
    hide LStrip, Ink;
    LStripped(s);
    var k := |s| - |LStrip(s)|;
    assert s == s[..k] + s[k..];
    InkConcat(s[..k], s[k..]);
    InkBlank(s[..k]);
  }

  lemma RStripInk(s: string)
    ensures Ink(RStrip(s)) == Ink(s)
  {
    hide RStrip, Ink;
    RStripped(s);
    var k := |RStrip(s)|;
    assert s == s[..k] + s[k..];
    InkConcat(s[..k], s[k..]);
    InkBlank(s[k..]);
  }

  /** Not blank at either end, and not empty. */
  predicate Solid(s: string) {
    s != "" && !IsSpace(s[0]) && !IsSpace(s[|s| - 1])
  }

  predicate EndsSolid(s: string) {
    s != "" && !IsSpace(s[|s| - 1])
  }

  lemma {:induction false} LStripSolid(s: string)
    requires EndsSolid(s)
    ensures Solid(LStrip(s)) && (!IsSpace(s[0]) ==> LStrip(s) == s)
  {
    if IsSpace(s[0]) {
      LStripSolid(s[1..]);
    }
  }

  lemma RStripSolid(s: string)
    requires EndsSolid(s)
    ensures RStrip(s) == s
  {
  }

  /** Of text with a solid end only the front is stripped. */
  lemma StripFront(s: string)
    requires EndsSolid(s)
    ensures Strip(s) == LStrip(s) && Solid(LStrip(s)) && RStrip(s) == s
    ensures !IsSpace(s[0]) ==> LStrip(s) == s
  {
    hide LStrip, RStrip;
    LStripSolid(s);
    RStripSolid(s);
    RStripSolid(LStrip(s));
  }

  // ------------------------------------------------------- string operations

  /** `s.rfind(' ', 0, limit)`, or -1. */
  function RFindSpace(s: string, limit: nat): (k: int)
    requires limit <= |s|
    ensures -1 <= k < limit && (k >= 0 ==> s[k] == ' ')
    ensures forall j | k < j < limit :: s[j] != ' '
  {
    if limit == 0 then -1 else if s[limit - 1] == ' ' then limit - 1 else RFindSpace(s, limit - 1)
  }

  /** Python's reading of an end index. */
  function Clamp(n: int, length: nat): (r: nat)
    ensures r <= length && (0 <= n <= length ==> r == n)
  {
    if n > length then length else if n >= 0 then n else if length + n > 0 then length + n else 0
  }

  function Repeat(n: nat): (s: string)
    ensures |s| == n && Blank(s)
  {
    seq(n, _ => ' ')
  }

  predicate Stop(c: char) {
    c == ',' || c == ';'
  }

  /** How many characters at the front are stops, or are not. */
  function Leading(s: string, stops: bool): (n: nat)
    ensures n <= |s| && forall j | 0 <= j < n :: Stop(s[j]) == stops
    ensures n < |s| ==> Stop(s[n]) != stops
  {
    if s == "" || Stop(s[0]) != stops then 0 else 1 + Leading(s[1..], stops)
  }

  /** The length of the first piece of `re.split(r'([^,;]+[,;]?)', s)` that is not empty. */
  function FirstLength(s: string): (n: nat)
    requires s != ""
    ensures 0 < n <= |s| && (n < |s| ==> Stop(s[n - 1]))
    ensures forall j | 0 <= j < n - 1 :: Stop(s[j]) == Stop(s[0])
  {
    if Stop(s[0]) then Leading(s, true)
    else
      var m := Leading(s, false);
      if m < |s| then m + 1 else m
  }

  /** All of its pieces that are not empty. */
  function Segments(s: string): (segs: seq<string>)
    decreases |s|
  {
    if s == "" then [] else [s[..FirstLength(s)]] + Segments(s[FirstLength(s)..])
  }

  function Concat(segs: seq<string>): string {
    if segs == [] then "" else segs[0] + Concat(segs[1..])
  }

  lemma {:induction false} SegmentsConcat(s: string)
    ensures Concat(Segments(s)) == s
    decreases |s|
  {
    if s != "" {
      hide FirstLength;
      var n := FirstLength(s);
      assert Segments(s) == [s[..n]] + Segments(s[n..]);
      SegmentsConcat(s[n..]);
      assert s == s[..n] + s[n..];
    }
  }

  /** No segment of stripped text ends with a blank. */
  lemma {:induction false} SegmentsEndSolid(s: string)
    requires s != "" ==> EndsSolid(s)
    ensures forall k | 0 <= k < |Segments(s)| :: EndsSolid(Segments(s)[k])
    decreases |s|
  {
    if s != "" {
      hide FirstLength;
      var n := FirstLength(s);
      var segs := Segments(s[n..]);
      SegmentsEndSolid(s[n..]);
      assert Segments(s) == [s[..n]] + segs;
      assert forall k | 1 <= k < |segs| + 1 :: ([s[..n]] + segs)[k] == segs[k - 1];
    }
  }
}
