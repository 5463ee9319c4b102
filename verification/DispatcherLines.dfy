/**
 The call lines of the generated dispatcher, wrapped: they get long, but they always
 wrap, into lines that are narrow enough.
 */
module DispatcherLines {
  import opened Dispatcher
  import opened PumpEval
  import opened PumpInk
  import opened PumpSplit
  import opened PumpSyntax
  import opened PumpWrap

  /** The line of case k that makes the call. */
  function CallLine(call: string, k: nat): string {
    "        " + INDENT + call + "(" + ArgsText(Upto(k)) + ");"
  }

  /** No window has to cross a gap: text that starts with a space can follow any text. */
  lemma BreakableConcat(a: string, b: string, width: int)
    requires Breakable(a, width) && Breakable(b, width)
    requires b == "" || b[0] == ' '
    ensures Breakable(a + b, width)
  {
    forall k | 0 <= k <= |a + b| - width ensures Window(a + b, k, width) {
      var w := (a + b)[k..k + width];
      if k + width <= |a| {
        assert Window(a, k, width);
        assert w == a[k..k + width];
      } else if k >= |a| {
        assert Window(b, k - |a|, width);
        assert w == b[k - |a|..k - |a| + width];
      } else {
        assert w[|a| - k] == b[0];
      }
    }
  }

  lemma ShortIsBreakable(s: string, width: int)
    requires |s| < width
    ensures Breakable(s, width)
  {
  }

  lemma {:induction false} ArgsBreakable(k: nat, m: nat, close: string, width: int)
    requires m <= k && width >= 40 && |close| <= 2
    requires forall j | m <= j < k :: |IntText(j)| <= 10
    ensures m < k ==> Breakable(ArgsText(Upto(k)[m..]) + close, width)
    ensures m < k ==> ArgsText(Upto(k)[m..]) != "" && ArgsText(Upto(k)[m..])[0] == ' '
    decreases k - m
  {
    hide IntText, Breakable;
    if m < k {
      var rest := ArgsText(Upto(k)[m + 1..]);
      assert Upto(k)[m..][1..] == Upto(k)[m + 1..];
      var first := ArgText(m);
      if m + 1 < k {
        ArgsBreakable(k, m + 1, close, width);
        ShortIsBreakable(first + ", ", width);
        BreakableConcat(first + ", ", rest + close, width);
        assert first + ", " + rest + close == (first + ", ") + (rest + close);
      } else {
        ShortIsBreakable(first + close, width);
        assert rest == "";
        assert first + "" + rest + close == first + close;
      }
    }
  }

  /**
   However long the call lines of the dispatcher get, wrapping them ends and keeps
   every character of the call, in order.
   */
  lemma CallLineBreakable(call: string, k: nat)
    requires call == VOID_CALL || call == INT_CALL || call == STR_CALL
    requires forall j | 0 <= j < k :: |IntText(j)| <= 10
    ensures Room(CallLine(call, k), "") == 60 && Breakable(CallLine(call, k), 56)
  {
    hide IntText, ArgsText;
    var line := CallLine(call, k);
    var front := "        " + INDENT + call + "(";
    var back := ArgsText(Upto(k)) + ");";
    assert line == front + back;
    IndentOf(line, 20);
    FrontBreakable(front, 56);
    if k == 0 {
      NoArgsText();
      assert back == ");";
      assert line == front + ");";
      FrontBreakable(line, 56);
    } else {
      ArgsBreakable(k, 0, ");", 56);
      assert Upto(k)[0..] == Upto(k);
      assert back[0] == ArgsText(Upto(k))[0];
      BreakableConcat(front, back, 56);
    }
  }

  lemma {:induction false} DigitsAreNoStops(n: nat)
    ensures NoStops(DigitText(n))
  {
    if n >= 10 {
      DigitsAreNoStops(n / 10);
    }
  }

  lemma ArgHasNoStops(m: nat)
    ensures NoStops(ArgText(m))
    ensures |ArgText(m)| == 18 + |IntText(m)| && ArgText(m)[0] == ' '
  {
    hide DigitText;
    DigitsAreNoStops(m);
  }

  lemma ShortIsPaced(s: string, width: int)
    requires |s| < width
    ensures Paced(s, width)
  {
  }

  /** From any argument on, the list has its commas close together. */
  lemma {:induction false} ArgsArePaced(k: nat, m: nat)
    requires m < k && forall j | m <= j < k :: |IntText(j)| <= 10
    ensures Paced(" " + ArgsText(Upto(k)[m..]) + ");", 56)
    decreases k - m
  {
    hide IntText, Paced, ArgText;
    var rest := ArgsText(Upto(k)[m + 1..]);
    assert Upto(k)[m..][1..] == Upto(k)[m + 1..];
    var first := " " + ArgText(m);
    ArgHasNoStops(m);
    if m + 1 < k {
      ArgsArePaced(k, m + 1);
      var a, b := first + ",", " " + rest + ");";
      ShortIsPaced(a, 56);
      PacedConcat(a, b, 56);
      assert " " + (ArgText(m) + ", " + rest) + ");" == a + b;
    } else {
      ShortIsPaced(first + ");", 56);
      assert " " + (ArgText(m) + "" + rest) + ");" == first + ");";
    }
  }

  /** The text of a call line without its indentation. */
  function CallText(call: string, k: nat): string {
    call + "(" + ArgsText(Upto(k)) + ");"
  }

  lemma StripCallLine(call: string, k: nat)
    requires call == VOID_CALL || call == INT_CALL || call == STR_CALL
    ensures Strip(CallLine(call, k)) == CallText(call, k)
  {
    hide ArgsText;
    var line, text := CallLine(call, k), CallText(call, k);
    var ind := "        " + INDENT;
    assert line == ind + text;
    StripFront(line);
    StripIndent(ind, text);
  }

  lemma {:induction false} StripIndent(ind: string, text: string)
    requires Blank(ind) && text != "" && !IsSpace(text[0])
    ensures LStrip(ind + text) == text
  {
    if ind == "" {
      assert ind + text == text;
    } else {
      StripIndent(ind[1..], text);
      assert (ind + text)[1..] == ind[1..] + text;
    }
  }

  lemma VoidCallIsPlain()
    ensures NoStops(VOID_CALL) && |VOID_CALL| == 26
  {
  }

  lemma IntCallIsPlain()
    ensures NoStops(INT_CALL) && |INT_CALL| == 31
  {
  }

  lemma StrCallIsPlain()
    ensures NoStops(STR_CALL) && |STR_CALL| == 37
  {
  }

  lemma CallHasNoStops(call: string)
    requires call == VOID_CALL || call == INT_CALL || call == STR_CALL
    ensures NoStops(call) && 26 <= |call| <= 37
  {
    hide NoStops;
    VoidCallIsPlain();
    IntCallIsPlain();
    StrCallIsPlain();
  }

  /** The segments of a call line leave room on every line. */
  lemma CallSegmentsFit(call: string, k: nat)
    requires call == VOID_CALL || call == INT_CALL || call == STR_CALL
    requires forall j | 0 <= j < k :: |IntText(j)| <= 10
    requires k > 0 ==> |IntText(0)| == 1
    ensures SegmentsFit(CallLine(call, k), "")
  {
    hide IntText, ArgText, Paced, Segments, Strip, LStrip, FirstLength;
    var text := CallText(call, k);
    CallLineBreakable(call, k);
    StripCallLine(call, k);
    CallHasNoStops(call);
    ArgHasNoStops(0);
    var m := if k == 0 then |call| + 2 else if k == 1 then |call| + 1 + |ArgText(0)| + 1
             else |call| + 1 + |ArgText(0)|;
    FirstStop(call, k, m);
    FirstLengthIs(text, m);
    FirstAndRest(text, m + 1);
    var rest := text[m + 1..];
    if k >= 2 {
      ArgsArePaced(k, 1);
    } else {
      ShortIsPaced(rest, 56);
    }
    PacedSegments(rest, 56);
    RestFits(text, m + 1, 56);
  }

  predicate NoStops(s: string) {
    forall j | 0 <= j < |s| :: !Stop(s[j])
  }

  /** Text without a stop, a stop, and more text. */
  lemma StopBetween(a: string, c: char, b: string)
    requires Stop(c) && NoStops(a)
    ensures var text := a + [c] + b;
            Stop(text[|a|]) && (forall j | 0 <= j < |a| :: !Stop(text[j])) && text[|a| + 1..] == b
  {
  }

  lemma FirstStop(call: string, k: nat, m: nat)
    requires NoStops(call)
    requires m == if k == 0 then |call| + 2 else if k == 1 then |call| + 1 + |ArgText(0)| + 1
                  else |call| + 1 + |ArgText(0)|
    ensures var text := CallText(call, k);
            && m < |text| && Stop(text[m]) && (forall j | 0 <= j < m :: !Stop(text[j]))
            && (k < 2 ==> m + 1 == |text|)
            && (k >= 2 ==> text[m + 1..] == " " + ArgsText(Upto(k)[1..]) + ");")
  {
    hide ArgText, Upto, NoStops;
    var first := call + "(" + ArgText(0);
    StopFree(call);
    ArgsStart(k);
    if k == 0 {
      StopBetween(call + "(" + ")", ';', "");
      assert CallText(call, k) == (call + "(" + ")") + [';'] + "";
    } else if k == 1 {
      StopBetween(first + ")", ';', "");
      assert CallText(call, k) == (first + ")") + [';'] + "";
    } else {
      var more := " " + ArgsText(Upto(k)[1..]) + ");";
      StopBetween(first, ',', more);
      assert CallText(call, k) == first + [','] + more;
    }
  }

  lemma StopFree(call: string)
    requires NoStops(call)
    ensures NoStops(call + "(" + ")") && NoStops(call + "(" + ArgText(0)) && NoStops(call + "(" + ArgText(0) + ")")
  {
    hide ArgText;
    ArgHasNoStops(0);
  }

  lemma ArgsStart(k: nat)
    ensures k == 0 ==> ArgsText(Upto(k)) == ""
    ensures k == 1 ==> ArgsText(Upto(k)) == ArgText(0)
    ensures k >= 2 ==> ArgsText(Upto(k)) == ArgText(0) + ", " + ArgsText(Upto(k)[1..])
  {
    hide ArgText;
    if k == 1 {
      assert Upto(k)[1..] == [];
      assert ArgText(0) + "" + "" == ArgText(0);
    }
  }

  lemma FirstAndRest(text: string, n: nat)
    requires text != "" && FirstLength(text) == n
    ensures Segments(text) == [text[..n]] + Segments(text[n..])
  {
  }

  lemma RestFits(text: string, n: nat, width: int)
    requires 0 < n <= |text| && Segments(text) == [text[..n]] + Segments(text[n..])
    requires forall k | 0 <= k < |Segments(text[n..])| :: |Segments(text[n..])[k]| <= width
    ensures |Segments(text)[0]| == n
    ensures forall k | 1 <= k < |Segments(text)| :: |Strip(Segments(text)[k])| <= width
  {
    hide Segments;
    var segs := Segments(text[n..]);
    forall k | 1 <= k < |Segments(text)| ensures |Strip(Segments(text)[k])| <= width {
      assert Segments(text)[k] == segs[k - 1];
    }
  }

  lemma NoArgsText()
    ensures ArgsText(Upto(0)) == ""
  {
  }

  /** A line that starts with twenty spaces and is not much longer than a window. */
  lemma FrontBreakable(s: string, width: int)
    requires width == 56 && |s| <= 75
    requires forall k | 0 <= k < 20 && k < |s| :: s[k] == ' '
    ensures Breakable(s, width)
  {
    forall k | 0 <= k <= |s| - width ensures Window(s, k, width) {
      assert s[k..k + width][0] == s[k] == ' ';
    }
  }

  lemma {:induction false} IndentOf(s: string, n: nat)
    requires n < |s| && !IsSpace(s[n])
    requires forall k | 0 <= k < n :: s[k] == ' '
    ensures Indent(s) == n
    decreases n
  {
    if n > 0 {
      IndentOf(s[1..], n - 1);
    }
  }

  /** The wrapper, on a call line of the dispatcher for up to 255 arguments. */
  method WrapCallLine(call: string, k: nat) returns (output: seq<string>)
    requires call == VOID_CALL || call == INT_CALL || call == STR_CALL
    requires k <= 255
    ensures Printed(output) == Ink(CallLine(call, k)) && Narrow(output)
  {
    hide IntText, SegmentsFit, NeverFits, Breakable;
    forall j | 0 <= j < k ensures |IntText(j)| <= 10 {
      ShortNumber(j);
    }
    ShortNumber(0);
    CallLineBreakable(call, k);
    BreakableFits(CallLine(call, k), "");
    CallSegmentsFit(call, k);
    var finished;
    ghost var pieces;
    finished, output, pieces := WrapCode(CallLine(call, k), "");
  }

  lemma ShortNumber(j: nat)
    requires j < 1000
    ensures |IntText(j)| <= 3 && (j == 0 ==> |IntText(j)| == 1)
  {
    assert |DigitText(j / 10 / 10)| == 1;
    assert |DigitText(j / 10)| <= 2;
  }
}
