/**
 Splitting a segment at spaces: the rounds of the loop, when there is a last one, and
 how that can be seen on the text.
 */
module PumpSplit {
  import opened PumpInk
  import opened PumpSyntax

  // ------------------------------------------------------ splitting at spaces

  /** Where a round of the splitting loop cuts, or -1. */
  function CutAt(seg: string, max: int): (k: int)
    ensures -1 <= k < |LStrip(seg)|
  {
    RFindSpace(LStrip(seg), Clamp(max, |LStrip(seg)|))
  }

  /** What a round leaves; with no place to cut, all of it but leading blanks. */
  function Rest(seg: string, max: int): (r: string)
    ensures |r| <= |seg| && (CutAt(seg, max) >= 0 ==> |r| < |seg|)
  {
    LStrip(seg)[CutAt(seg, max) + 1..]
  }

  /** The width a round works with: the first line has more room. */
  function Width(max: int, newMax: int, n: nat): int {
    if n == 0 then max else newMax
  }

  /** The segment after `n` rounds. */
  function After(seg: string, max: int, newMax: int, n: nat): string {
    if n == 0 then seg else Rest(After(seg, max, newMax, n - 1), Width(max, newMax, n - 1))
  }

  /** The loop's condition after `n` rounds. */
  predicate Again(seg: string, max: int, newMax: int, n: nat) {
    |Strip(After(seg, max, newMax, n))| > Width(max, newMax, n)
  }

  /** Every round that is needed finds a place to cut. */
  predicate Ends(seg: string, max: int, newMax: int)
    decreases |seg|
  {
    |Strip(seg)| <= max || (CutAt(seg, max) >= 0 && Ends(Rest(seg, max), newMax, newMax))
  }

  lemma {:induction false} AfterFirst(seg: string, max: int, newMax: int, n: nat)
    ensures After(seg, max, newMax, n + 1) == After(Rest(seg, max), newMax, newMax, n)
    ensures Again(seg, max, newMax, n + 1) <==> Again(Rest(seg, max), newMax, newMax, n)
  {
    hide Rest, Strip;
    if n > 0 {
      AfterFirst(seg, max, newMax, n - 1);
    }
  }

  lemma {:induction false} EndsAfter(seg: string, max: int, newMax: int) returns (n: nat)
    requires Ends(seg, max, newMax)
    ensures !Again(seg, max, newMax, n)
    decreases |seg|
  {
    if |Strip(seg)| <= max {
      n := 0;
    } else {
      n := EndsAfter(Rest(seg, max), newMax, newMax);
      AfterFirst(seg, max, newMax, n);
      n := n + 1;
    }
  }

  /** No text fits a negative width. */
  lemma {:induction false} NegativeNeverEnds(seg: string, max: int)
    requires max < 0
    ensures !Ends(seg, max, max)
    decreases |seg|
  {
    if CutAt(seg, max) >= 0 {
      NegativeNeverEnds(Rest(seg, max), max);
    }
  }

  lemma EndsStep(seg: string, max: int, newMax: int)
    ensures Ends(seg, max, newMax)
       <==> |Strip(seg)| <= max || (CutAt(seg, max) >= 0 && Ends(Rest(seg, max), newMax, newMax))
  {
    hide Strip, CutAt, Rest;
  }

  lemma {:induction false} LStripTwice(seg: string)
    ensures LStrip(LStrip(seg)) == LStrip(seg)
  {
    if seg != "" && IsSpace(seg[0]) {
      LStripTwice(seg[1..]);
    }
  }

  lemma StripTwice(seg: string)
    ensures LStrip(LStrip(seg)) == LStrip(seg) && Strip(LStrip(seg)) == Strip(seg)
  {
    hide LStrip, RStrip;
    LStripTwice(seg);
  }

  /** A shorter window has no space either. */
  lemma NoSpaceSooner(l: string, a: nat, b: nat)
    requires a <= b <= |l| && RFindSpace(l, b) == -1
    ensures RFindSpace(l, a) == -1
  {
    var k := RFindSpace(l, a);
  }

  /** A round that finds no place to cut leaves work that is never done. */
  lemma NoCutNeverEnds(seg: string, max: int, newMax: int)
    requires newMax <= max < |Strip(seg)| && CutAt(seg, max) == -1
    ensures !Ends(Rest(seg, max), newMax, newMax)
  {
    hide LStrip, Strip, RFindSpace, Ends, Clamp;
    var l := LStrip(seg);
    StripTwice(seg);
    assert Rest(seg, max) == l;
    EndsStep(l, newMax, newMax);
    if newMax < 0 {
      NegativeNeverEnds(l, newMax);
    } else {
      ClampMonotone(newMax, max, |l|);
      NoSpaceSooner(l, Clamp(newMax, |l|), Clamp(max, |l|));
      assert CutAt(l, newMax) == -1;
    }
  }

  lemma ClampMonotone(a: int, b: int, length: nat)
    requires 0 <= a <= b
    ensures Clamp(a, length) <= Clamp(b, length)
  {
  }

  lemma {:induction false} NeverEnds(seg: string, max: int, newMax: int, n: nat)
    requires newMax <= max && !Ends(seg, max, newMax)
    ensures Again(seg, max, newMax, n)
    decreases n
  {
    hide Rest, Strip, CutAt;
    if n > 0 {
      if CutAt(seg, max) < 0 {
        NoCutNeverEnds(seg, max, newMax);
      }
      NeverEnds(Rest(seg, max), newMax, newMax, n - 1);
      AfterFirst(seg, max, newMax, n - 1);
    }
  }

  /** `Ends` says that the loop's condition fails after some number of rounds. */
  lemma EndsIff(seg: string, max: int, newMax: int)
    requires newMax <= max
    ensures Ends(seg, max, newMax) <==> exists n: nat :: !Again(seg, max, newMax, n)
  {
    hide Ends, Again;
    if Ends(seg, max, newMax) {
      var n := EndsAfter(seg, max, newMax);
    } else {
      forall n: nat ensures Again(seg, max, newMax, n) {
        NeverEnds(seg, max, newMax, n);
      }
    }
  }

  // ------------------------------------------- what stops it, seen on the text

  predicate BlankIn(s: string, a: nat, b: nat) {
    forall j | a <= j < b && j < |s| :: IsSpace(s[j])
  }

  /** A space, and nothing but blanks from there to position `q`. */
  predicate SpaceBefore(s: string, q: nat, p: nat) {
    p < q <= |s| && s[p] == ' ' && BlankIn(s, p + 1, q)
  }

  /** A word starts at `q`: the first one, or one after blanks that hold a space. */
  ghost predicate Start(s: string, q: nat) {
    q < |s| && !IsSpace(s[q]) && (BlankIn(s, 0, q) || exists p: nat :: SpaceBefore(s, q, p))
  }

  predicate NoSpace(s: string, a: int, b: int) {
    forall j | a <= j < b && 0 <= j < |s| :: s[j] != ' '
  }

  function Later(a: int, b: int): int {
    if a > b then a else b
  }

  /**
   At `q` starts a word from which on there is more than fits a continuation line, and
   no space in it before the end of that line, nor before `limit`.
   */
  ghost predicate Trap(s: string, q: nat, width: int, limit: int) {
    Start(s, q) && |s| - q > width && NoSpace(s, q, Later(q + width, limit))
  }

  /** The text after a cut at the space `k`. */
  lemma StartAfterCut(s: string, k: nat, q: nat)
    requires k < q < |s| && s[k] == ' '
    ensures Start(s, q) <==> Start(s[k + 1..], q - k - 1)
  {
    var t, r := s[k + 1..], q - k - 1;
    assert forall j | k + 1 <= j < |s| :: s[j] == t[j - k - 1];
    if Start(s, q) && !BlankIn(t, 0, r) {
      assert !BlankIn(s, 0, q);
      var p: nat :| SpaceBefore(s, q, p);
      assert p > k;
      assert SpaceBefore(t, r, p - k - 1);
    }
    if Start(t, r) {
      if BlankIn(t, 0, r) {
        assert SpaceBefore(s, q, k);
      } else {
        var p: nat :| SpaceBefore(t, r, p);
        assert SpaceBefore(s, q, p + k + 1);
      }
    }
  }

  /** Cutting at the last space before `limit` keeps the traps, which are all behind it. */
  lemma TrapsAfterCut(s: string, k: nat, limit: int, width: int, q: nat)
    requires k < |s| && s[k] == ' ' && k < limit && NoSpace(s, k + 1, limit)
    ensures Trap(s, q, width, limit) <==> k < q && Trap(s[k + 1..], q - k - 1, width, width)
  {
    hide Start;
    var t := s[k + 1..];
    StartIsInk(s, q);
    if k < q {
      StartIsInk(t, q - k - 1);
    }
    if k < q < |s| {
      StartAfterCut(s, k, q);
      NoSpaceAfter(s, k + 1, q, Later(q + width, limit));
      NoSpaceAfter(s, k + 1, q, q + width);
    }
    AtTheSpace(s, q, k, Later(q + width, limit));
    if k < q && NoSpace(s, q, q + width) {
      assert NoSpace(s, q, Later(q + width, limit));
    }
    if k < q && NoSpace(s, q, Later(q + width, limit)) {
      assert NoSpace(s, q, q + width);
    }
  }

  lemma AtTheSpace(s: string, q: nat, k: nat, b: int)
    requires k < |s| && s[k] == ' ' && k < b
    ensures q <= k ==> !NoSpace(s, q, b)
  {
  }

  lemma NoSpaceAfter(s: string, d: nat, q: nat, b: int)
    requires d <= q <= |s|
    ensures NoSpace(s, q, b) <==> NoSpace(s[d..], q - d, b - d)
  {
    var t := s[d..];
    assert forall j | 0 <= j < |t| :: t[j] == s[j + d];
    if NoSpace(t, q - d, b - d) {
      forall j | q <= j < b && 0 <= j < |s| ensures s[j] != ' ' {
        assert t[j - d] == s[j];
      }
    }
  }

  lemma StartIsInk(s: string, q: nat)
    ensures Start(s, q) ==> q < |s| && !IsSpace(s[q])
  {
  }

  lemma LStripIsBlank(s: string)
    ensures BlankIn(s, 0, |s| - |LStrip(s)|)
  {
    hide LStrip;
    LStripped(s);
    var o := |s| - |LStrip(s)|;
    assert forall j | 0 <= j < o :: s[j] == s[..o][j];
  }

  lemma StartAfterBlanks(s: string, q: nat)
    requires q < |s|
    ensures var o := |s| - |LStrip(s)|; Start(s, q) <==> q >= o && Start(LStrip(s), q - o)
  {
    hide LStrip;
    LStripped(s);
    var l := LStrip(s);
    var o := |s| - |l|;
    LStripIsBlank(s);
    assert forall j | o <= j < |s| :: s[j] == l[j - o];
    if q >= o {
      if Start(s, q) && !BlankIn(l, 0, q - o) {
        assert !BlankIn(s, 0, q);
        var p: nat :| SpaceBefore(s, q, p);
        assert p >= o;
        assert SpaceBefore(l, q - o, p - o);
      }
      if Start(l, q - o) && !BlankIn(s, 0, q) {
        assert !BlankIn(l, 0, q - o);
        var p: nat :| SpaceBefore(l, q - o, p);
        assert SpaceBefore(s, q, p + o);
      }
    }
  }

  /** Leading blanks are no traps and hide none. */
  lemma TrapsAfterBlanks(s: string, q: nat, width: int)
    ensures var o := |s| - |LStrip(s)|;
            Trap(s, q, width, width) <==> q >= o && Trap(LStrip(s), q - o, width, width)
  {
    hide LStrip, Start;
    LStripped(s);
    var o := |s| - |LStrip(s)|;
    StartIsInk(s, q);
    if q >= o {
      StartIsInk(LStrip(s), q - o);
    }
    if q < |s| {
      StartAfterBlanks(s, q);
      if q >= o {
        NoSpaceAfter(s, o, q, q + width);
      }
    }
  }

  /** Splitting to a fixed width ends unless some word start is a trap. */
  lemma {:induction false} EndsUnlessTrapped(s: string, width: int)
    requires EndsSolid(s)
    ensures Ends(s, width, width) <==> forall q: nat :: !Trap(s, q, width, width)
    decreases |s|
  {
    hide Trap, LStrip, RStrip, Strip, NoSpace, CutAt, Rest, Ends;
    var l := LStrip(s);
    var o := |s| - |l|;
    StripFront(s);
    EndsStep(s, width, width);
    forall q: nat ensures Trap(s, q, width, width) <==> q >= o && Trap(l, q - o, width, width) {
      TrapsAfterBlanks(s, q, width);
    }
    if |l| <= width {
      forall r: nat ensures !Trap(l, r, width, width) {
        ShortIsNoTrap(l, r, width);
      }
    } else if CutAt(s, width) < 0 || width < 0 {
      if width < 0 {
        NegativeNeverEnds(s, width);
      }
      NoCutIsTrap(s, width, width);
      assert Trap(s, o, width, width);
    } else {
      var k := CutAt(s, width);
      CutIsSpace(s, width);
      var t := l[k + 1..];
      EndsUnlessTrapped(t, width);
      forall r: nat
        ensures Trap(l, r, width, width) <==> k < r && Trap(t, r - k - 1, width, width)
      {
        TrapsAfterCut(l, k, width, width, r);
      }
      if r: nat :| Trap(t, r, width, width) {
        assert Trap(l, r + k + 1, width, width);
        assert Trap(s, r + k + 1 + o, width, width);
      }
    }
  }

  lemma ShortIsNoTrap(l: string, r: nat, width: int)
    requires |l| <= width
    ensures !Trap(l, r, width, width)
  {
  }

  /** A round that finds no space is at a trap. */
  lemma NoCutIsTrap(s: string, max: int, width: int)
    requires EndsSolid(s) && width <= max < |LStrip(s)| && (max < 0 || CutAt(s, max) < 0)
    ensures Trap(LStrip(s), 0, width, max)
  {
    hide LStrip, RFindSpace;
    LStripSolid(s);
    assert BlankIn(LStrip(s), 0, 0);
  }

  /** A cut is at the last space of the window, and what follows it ends as before. */
  lemma CutIsSpace(s: string, max: int)
    requires EndsSolid(s) && 0 <= max < |LStrip(s)| && CutAt(s, max) >= 0
    ensures var l, k := LStrip(s), CutAt(s, max);
            && k < max && l[k] == ' ' && NoSpace(l, k + 1, max)
            && EndsSolid(l[k + 1..]) && |l[k + 1..]| < |s| && Rest(s, max) == l[k + 1..]
  {
    hide LStrip, RFindSpace;
    LStripSolid(s);
  }

  /**
   The condition on a segment: it does not fit the first line, and some word start in
   it is a trap. Before the end of the first line, `max`, there must be no space either.
   */
  ghost predicate Stuck(s: string, max: int, newMax: int) {
    |s| > max && exists q: nat :: Trap(s, q, newMax, max)
  }

  /** Splitting a segment ends if and only if it is not stuck. */
  lemma EndsUnlessStuck(s: string, max: int, newMax: int)
    requires Solid(s) && newMax <= max
    ensures Ends(s, max, newMax) <==> !Stuck(s, max, newMax)
  {
    hide Trap, LStrip, RStrip, Strip, NoSpace, CutAt, Rest, Ends;
    StripFront(s);
    EndsStep(s, max, newMax);
    if |s| > max {
      if max < 0 || CutAt(s, max) < 0 {
        if max < 0 {
          NegativeNeverEnds(Rest(s, max), newMax);
        }
        NoCutIsTrap(s, max, newMax);
      } else {
        var k := CutAt(s, max);
        CutIsSpace(s, max);
        var t := s[k + 1..];
        EndsUnlessTrapped(t, newMax);
        forall q: nat
          ensures Trap(s, q, newMax, max) <==> k < q && Trap(t, q - k - 1, newMax, newMax)
        {
          TrapsAfterCut(s, k, max, newMax, q);
        }
        if r: nat :| Trap(t, r, newMax, newMax) {
          assert Trap(s, r + k + 1, newMax, max);
        }
      }
    }
  }

  // ---------------------------------------------------------- breakable text

  predicate Window(s: string, k: nat, width: nat)
    requires k + width <= |s|
  {
    ' ' in s[k..k + width]
  }

  /** No run of other characters is as long as `width`. */
  predicate Breakable(s: string, width: int) {
    width > 0 && forall k | 0 <= k <= |s| - width :: Window(s, k, width)
  }

  lemma BreakablePart(s: string, i: nat, j: nat, width: int)
    requires i <= j <= |s| && Breakable(s, width)
    ensures Breakable(s[i..j], width)
  {
    forall k | 0 <= k <= |s[i..j]| - width ensures Window(s[i..j], k, width) {
      assert Window(s, i + k, width);
      SliceSlice(s, i, j, k, k + width);
    }
  }

  lemma SliceSlice(s: string, i: nat, j: nat, a: nat, b: nat)
    requires i <= j <= |s| && a <= b <= j - i
    ensures s[i..j][a..b] == s[i + a..i + b]
  {
    assert forall k | 0 <= k < b - a :: s[i..j][a..b][k] == s[i..j][a + k] == s[i + a..i + b][k];
  }

  /** Breakable text is never stuck. */
  lemma BreakableIsNotStuck(s: string, max: int, newMax: int)
    requires Breakable(s, newMax)
    ensures !Stuck(s, max, newMax)
  {
    forall q: nat ensures !Trap(s, q, newMax, max) {
      if q + newMax <= |s| {
        assert Window(s, q, newMax);
        var j :| 0 <= j < newMax && s[q..q + newMax][j] == ' ';
        assert s[q + j] == ' ';
      }
    }
  }
}
