/**
 The dispatcher template: what evaluating it produces, for any bound on the
 number of arguments, and what the generated C `switch` then does.
 */
module Dispatcher {
  import opened PumpEval
  import opened PumpSyntax
  import opened Wrappers

  // ----------------------------------------------------------- the template

  const INDENT := "            "

  /** `[[ msg->argv[$(j - 1)].data ]]` */
  function ArgBody(): Code<Expr> {
    Then(RawNode(" msg->argv["),
    Then(ExpNode(Bin(Minus, Name("j"), Num(1))),
    Then(RawNode("].data "), End)))
  }

  /** The body of the outer `$for i`; `call` is the text up to the opening parenthesis. */
  function CaseBody(call: string): Code<Expr> {
    Then(RawNode("\n    " + INDENT),
    Then(RangeNode("j", Num(1), Name("i")),
    Then(RawNode("    " + INDENT + "case "),
    Then(ExpNode(Name("i")),
    Then(RawNode(":\n        " + INDENT + call + "("),
    Then(ForNode("j", Some(", "), ArgBody()),
    Then(RawNode(");\n        " + INDENT + "break;\n\n" + INDENT), End)))))))
  }

  /** `$range i 0..n`, `$for i [[ ... ]]`, and whatever follows. */
  function Section(call: string, n: int, rest: Code<Expr>): Code<Expr> {
    Then(RangeNode("i", Num(0), Num(n)),
    Then(RawNode(INDENT),
    Then(ForNode("i", None, CaseBody(call)), rest)))
  }

  const VOID_CALL := "function->fun_ptr.void_fun"
  const INT_CALL := "res = function->fun_ptr.int_fun"
  const STR_CALL := "args.data = function->fun_ptr.str_fun"

  /** The whole file: three sections between four pieces of plain C. */
  function Template(n: int, head: string, mid: string, mid': string, tail: string): Code<Expr> {
    Then(RawNode(head), Section(VOID_CALL, n,
    Then(RawNode(mid), Section(INT_CALL, n,
    Then(RawNode(mid'), Section(STR_CALL, n,
    Then(RawNode(tail), End)))))))
  }

  // ------------------------------------------------------ the generated code

  /** A case of the generated `switch`: its label and the arguments it passes on. */
  datatype Case = Case(arity: nat, args: seq<nat>)

  function Upto(n: nat): (r: seq<nat>)
    ensures |r| == n && forall k | 0 <= k < n :: r[k] == k
  {
    seq(n, k => k)
  }

  /** One case per arity, in order, each passing on all the arguments in order. */
  function Cases(n: nat): (r: seq<Case>)
    ensures |r| == n + 1 && forall k | 0 <= k <= n :: r[k] == Case(k, Upto(k))
  {
    seq(n + 1, k requires 0 <= k => Case(k, Upto(k)))
  }

  function ArgText(m: nat): string {
    " msg->argv[" + IntText(m) + "].data "
  }

  function ArgsText(args: seq<nat>): string {
    if args == [] then ""
    else ArgText(args[0]) + (if |args| > 1 then ", " else "") + ArgsText(args[1..])
  }

  function CaseText(call: string, c: Case): string {
    ("\n    " + INDENT) + ("    " + INDENT + "case ") + IntText(c.arity)
    + (":\n        " + INDENT + call + "(") + ArgsText(c.args)
    + (");\n        " + INDENT + "break;\n\n" + INDENT)
  }

  function CasesText(call: string, cs: seq<Case>): string {
    if cs == [] then "" else CaseText(call, cs[0]) + CasesText(call, cs[1..])
  }

  /** What C executes: the case with that label, or the default. */
  function Select(cs: seq<Case>, argc: int): Option<Case> {
    if cs == [] then None else if cs[0].arity == argc then Some(cs[0]) else Select(cs[1..], argc)
  }

  /** The arguments a case passes on. */
  function Passed<T>(argv: seq<T>, c: Case): seq<T>
    requires forall k | 0 <= k < |c.args| :: c.args[k] < |argv|
  {
    seq(|c.args|, k requires 0 <= k < |c.args| => argv[c.args[k]])
  }

  // ------------------------------------------------------- evaluating a case

  lemma ArgRuns(env: Bindings, m: int)
    requires Lookup(env.variables, "j") == Some(IntV(m))
    ensures RunIn(env, ArgBody()) == Some(" msg->argv[" + IntText(m - 1) + "].data ")
  {
    hide Run, Lookup, IntText;
    var e := Bin(Minus, Name("j"), Num(1));
    var a, n, b := " msg->argv[", IntText(m - 1), "].data ";
    assert Eval(env.variables, e.a) == Some(IntV(m)) && Eval(env.variables, e.b) == Some(IntV(1));
    assert Eval(env.variables, e) == Some(IntV(m - 1));
    Nothing(env);
    Step(env, RawNode(b), env, b, End);
    var c := Then(RawNode(b), End);
    Step(env, ExpNode(e), env, n, c);
    Step(env, RawNode(a), env, a, Then(ExpNode(e), c));
    assert a + (n + (b + "")) == a + n + b;
  }

  lemma {:induction false} ArgsRun(env: Bindings, m: nat, k: nat)
    requires m <= k
    ensures RunFor(env, "j", Some(", "), ArgBody(), m + 1, k) == Some(ArgsText(Upto(k)[m..]))
    decreases k - m
  {
    hide ArgBody;
    if m < k {
      ArgRuns(env.(variables := PushVar(env.variables, "j", IntV(m + 1))), m + 1);
      ArgsRun(env, m + 1, k);
      assert Upto(k)[m..][1..] == Upto(k)[m + 1..];
    }
  }

  /** Running one node, then the rest. */
  lemma Step(env: Bindings, node: Node<Expr>, env': Bindings, text: string, tail: Code<Expr>)
    requires RunNode(env, node) == Some((env', text))
    ensures match Run(env', tail)
            case None => Run(env, Then(node, tail)) == None
            case Some((e, rest)) => Run(env, Then(node, tail)) == Some((e, text + rest))
  {
  }

  lemma CaseRuns(env: Bindings, call: string, k: nat)
    requires Lookup(env.variables, "i") == Some(IntV(k))
    ensures RunIn(env, CaseBody(call)) == Some(CaseText(call, Case(k, Upto(k))))
  {
    hide ArgBody, Run, ArgsText, IntText;
    var inner := env.(ranges := [("j", 1, k)] + env.ranges);
    var t0, t2 := "\n    " + INDENT, "    " + INDENT + "case ";
    var t4, t6 := ":\n        " + INDENT + call + "(", ");\n        " + INDENT + "break;\n\n" + INDENT;
    var args := ArgsText(Upto(k));
    ArgsRun(inner, 0, k);
    assert Upto(k)[0..] == Upto(k);
    assert inner.ranges[0] == ("j", 1, k);
    Nothing(inner);
    var c6 := Then(RawNode(t6), End);
    Step(inner, RawNode(t6), inner, t6, End);
    var c5 := Then(ForNode("j", Some(", "), ArgBody()), c6);
    Step(inner, c5.head, inner, args, c6);
    var c4 := Then(RawNode(t4), c5);
    Step(inner, RawNode(t4), inner, t4, c5);
    var c3 := Then(ExpNode(Name("i")), c4);
    Step(inner, c3.head, inner, IntText(k), c4);
    var c2 := Then(RawNode(t2), c3);
    Step(inner, RawNode(t2), inner, t2, c3);
    var c1 := Then(RangeNode("j", Num(1), Name("i")), c2);
    Step(env, c1.head, inner, "", c2);
    Step(env, RawNode(t0), env, t0, c1);
    assert CaseBody(call) == Then(RawNode(t0), c1);
    Flatten(t0, "", t2, IntText(k), t4, args, t6);
    assert t0 + "" == t0;
  }

  lemma Nothing(env: Bindings)
    ensures Run(env, End) == Some((env, ""))
  {
  }

  lemma {:induction false} CasesRun(env: Bindings, call: string, k: nat, n: int)
    requires k <= n + 1
    ensures RunFor(env, "i", None, CaseBody(call), k, n)
         == Some(CasesText(call, if n < 0 then [] else Cases(n)[k..]))
    decreases n + 1 - k
  {
    hide CaseBody, CaseText;
    if k <= n {
      CaseRuns(env.(variables := PushVar(env.variables, "i", IntV(k))), call, k);
      CasesRun(env, call, k + 1, n);
      assert Cases(n)[k..][1..] == Cases(n)[k + 1..];
      assert CaseText(call, Case(k, Upto(k))) + "" == CaseText(call, Case(k, Upto(k)));
    }
  }

  /** The text a section generates. */
  function SectionText(call: string, n: nat): string {
    INDENT + CasesText(call, Cases(n))
  }

  lemma SectionRuns(env: Bindings, call: string, n: nat, rest: Code<Expr>)
    ensures var after := env.(ranges := [("i", 0, n)] + env.ranges);
            match Run(after, rest)
            case None => Run(env, Section(call, n, rest)) == None
            case Some((e, text)) => Run(env, Section(call, n, rest)) == Some((e, SectionText(call, n) + text))
  {
    hide CaseBody, CasesText, Run;
    var after := env.(ranges := [("i", 0, n)] + env.ranges);
    assert after.ranges[0] == ("i", 0, n as int);
    CasesRun(after, call, 0, n);
    assert Cases(n)[0..] == Cases(n);
    var cases := CasesText(call, Cases(n));
    var loop := ForNode("i", None, CaseBody(call));
    Step(after, loop, after, cases, rest);
    Step(after, RawNode(INDENT), after, INDENT, Then(loop, rest));
    Step(env, RangeNode("i", Num(0), Num(n)), after, "", Then(RawNode(INDENT), Then(loop, rest)));
    var r := Run(after, rest);
    if r.Some? {
      assert "" + (INDENT + (cases + r.value.1)) == INDENT + cases + r.value.1;
    }
  }

  /**
   Generating the dispatcher for up to `n` arguments writes, in each of its three
   sections, exactly the cases 0 to `n` in order, case k passing on arguments 0 to
   k - 1 in order.
   */
  lemma TemplateRuns(n: nat, head: string, mid: string, mid': string, tail: string)
    ensures RunIn(Bindings([], []), Template(n, head, mid, mid', tail))
         == Some(head + SectionText(VOID_CALL, n) + mid + SectionText(INT_CALL, n)
                 + mid' + SectionText(STR_CALL, n) + tail)
  {
    hide Section, SectionText, Run;
    var range := [("i", 0, n as int)];
    var e0 := Bindings([], []);
    var e1 := e0.(ranges := range + e0.ranges);
    var e2 := e1.(ranges := range + e1.ranges);
    var e3 := e2.(ranges := range + e2.ranges);
    var s1, s2, s3 := SectionText(VOID_CALL, n), SectionText(INT_CALL, n), SectionText(STR_CALL, n);
    Nothing(e3);
    var c6 := Then(RawNode(tail), End);
    Step(e3, c6.head, e3, tail, End);
    var c5 := Section(STR_CALL, n, c6);
    SectionRuns(e2, STR_CALL, n, c6);
    var c4 := Then(RawNode(mid'), c5);
    Step(e2, c4.head, e2, mid', c5);
    var c3 := Section(INT_CALL, n, c4);
    SectionRuns(e1, INT_CALL, n, c4);
    var c2 := Then(RawNode(mid), c3);
    Step(e1, c2.head, e1, mid, c3);
    var c1 := Section(VOID_CALL, n, c2);
    SectionRuns(e0, VOID_CALL, n, c2);
    Step(e0, RawNode(head), e0, head, c1);
    Flatten(head, s1, mid, s2, mid', s3, tail);
  }

  lemma Flatten(a: string, b: string, c: string, d: string, e: string, f: string, g: string)
    ensures a + (b + (c + (d + (e + (f + (g + "")))))) == a + b + c + d + e + f + g
  {
  }

  // -------------------------------------------------------- the switch in C

  lemma {:induction false} DigitTextInjective(a: nat, b: nat)
    requires DigitText(a) == DigitText(b)
    ensures a == b
  {
    var s, t := DigitText(a), DigitText(b);
    assert s[|s| - 1] == '0' + (a % 10) as char && t[|t| - 1] == '0' + (b % 10) as char;
    if a >= 10 && b >= 10 {
      assert s[..|s| - 1] == DigitText(a / 10) && t[..|t| - 1] == DigitText(b / 10);
      DigitTextInjective(a / 10, b / 10);
    }
  }

  /** No two cases are printed with the same label, so the switch is well formed. */
  lemma LabelsDistinct(n: nat, i: nat, j: nat)
    requires i < j <= n
    ensures IntText(Cases(n)[i].arity) != IntText(Cases(n)[j].arity)
  {
    if IntText(i) == IntText(j) {
      DigitTextInjective(i, j);
    }
  }

  lemma {:induction false} SelectFrom(n: nat, k: nat, argc: int)
    requires k <= n + 1
    ensures Select(Cases(n)[k..], argc) == if k <= argc <= n then Some(Case(argc, Upto(argc))) else None
    decreases n + 1 - k
  {
    if k <= n {
      assert Cases(n)[k..][1..] == Cases(n)[k + 1..];
      SelectFrom(n, k + 1, argc);
    }
  }

  /** A call with at most `n` arguments gets all of them, in order; others the default. */
  lemma SwitchPassesAll<T>(n: nat, argv: seq<T>)
    ensures |argv| <= n ==>
              Select(Cases(n), |argv|).Some?
              && var c := Select(Cases(n), |argv|).value;
              && (forall k | 0 <= k < |c.args| :: c.args[k] < |argv|)
              && Passed(argv, c) == argv
    ensures |argv| > n ==> Select(Cases(n), |argv|) == None
  {
    SelectFrom(n, 0, |argv|);
    assert Cases(n)[0..] == Cases(n);
  }
}
