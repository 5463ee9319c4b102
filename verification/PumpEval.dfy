/**
 What a Pump template means: a pure semantics over immutable environments, and the
 theorems about scopes and substitution that explain its loops.
 */
module PumpEval {
  import opened PumpSyntax
  import opened Wrappers

  /** Python values a meta expression can have. */
  datatype Value = IntV(i: int) | StrV(s: string) | BoolV(b: bool)

  datatype Op = Plus | Minus | Times | Less | AtMost | Equals

  /** Meta expressions, with `GetValue` for every name. */
  datatype Expr =
    | Num(n: int)
    | Text(s: string)
    | Name(id: string)
    | Bin(op: Op, a: Expr, b: Expr)
    | Not(a: Expr)
    | And(a: Expr, b: Expr)
    | Or(a: Expr, b: Expr)

  // ----------------------------------------------------------------- values

  function DigitText(n: nat): string {
    if n < 10 then ['0' + n as char] else DigitText(n / 10) + ['0' + (n % 10) as char]
  }

  /** `'%s' % i` */
  function IntText(i: int): string {
    if i < 0 then "-" + DigitText(-i) else DigitText(i)
  }

  /** `'%s' % value` */
  function Format(v: Value): string {
    match v
    case IntV(i) => IntText(i)
    case StrV(s) => s
    case BoolV(b) => if b then "True" else "False"
  }

  function DigitsOf(s: string): Option<nat> {
    if s == [] || !('0' <= s[|s| - 1] <= '9') then None
    else
      var d := (s[|s| - 1] - '0') as int;
      if |s| == 1 then Some(d)
      else
        match DigitsOf(s[..|s| - 1])
        case None => None
        case Some(n) => Some(10 * n + d)
  }

  /** `int(s)` on a string: surrounding space, a sign, decimal digits. */
  function IntOf(s: string): Option<int> {
    var t := Strip(s);
    if t == [] then None
    else
      var ds := DigitsOf(if t[0] == '-' || t[0] == '+' then t[1..] else t);
      match ds
      case None => None
      case Some(n) => Some(if t[0] == '-' then 0 - n else n)
  }

  /** `int(v)` */
  function ToInt(v: Value): Option<int> {
    match v
    case IntV(i) => Some(i)
    case StrV(s) => IntOf(s)
    case BoolV(b) => Some(if b then 1 else 0)
  }

  /** `PushVariable` stores a string that reads back as itself as the int it denotes. */
  function Normalize(v: Value): Value {
    match v
    case StrV(s) =>
      (match IntOf(s)
       case Some(n) => if IntText(n) == s then IntV(n) else v
       case None => v)
    case _ => v
  }

  lemma {:induction false} DigitsOfText(n: nat)
    ensures DigitsOf(DigitText(n)) == Some(n)
    ensures var s := DigitText(n); |s| > 0 && '0' <= s[0] <= '9' && '0' <= s[|s| - 1] <= '9'
  {
    if n >= 10 {
      DigitsOfText(n / 10);
      var s := DigitText(n);
      assert s[..|s| - 1] == DigitText(n / 10);
    }
  }

  lemma StripNothing(s: string)
    requires s != "" && !IsSpace(s[0]) && !IsSpace(s[|s| - 1])
    ensures Strip(s) == s
  {
  }

  /** An int reads back from the text it is formatted as. */
  lemma IntOfText(i: int)
    ensures IntOf(IntText(i)) == Some(i)
  {
    hide DigitText, DigitsOf, Strip;
    var t := IntText(i);
    DigitsOfText(if i < 0 then -i else i);
    StripNothing(t);
    assert i < 0 ==> t[1..] == DigitText(-i);
  }

  /**
   The value stored for a string is an int exactly when the string is what that int is
   formatted as; any other string stays itself.
   */
  lemma NormalizeIsNumeral(s: string, i: int)
    ensures Normalize(StrV(s)) == IntV(i) <==> s == IntText(i)
    ensures (forall n :: s != IntText(n)) ==> Normalize(StrV(s)) == StrV(s)
  {
    hide IntOf, IntText;
    IntOfText(i);
  }

  /** Storing a value does not change how it is written. */
  lemma NormalizeKeepsText(v: Value)
    ensures Format(Normalize(v)) == Format(v)
  {
    hide IntOf, IntText;
  }

  predicate Truthy(v: Value) {
    match v
    case IntV(i) => i != 0
    case StrV(s) => s != ""
    case BoolV(b) => b
  }

  /** `None` is a Python exception. */
  function Apply(op: Op, a: Value, b: Value): Option<Value> {
    if a.StrV? || b.StrV? then
      match op
      case Plus => if a.StrV? && b.StrV? then Some(StrV(a.s + b.s)) else None
      case Equals => Some(BoolV(a == b))
      case _ => None
    else
      var x, y := ToInt(a).value, ToInt(b).value;
      match op
      case Plus => Some(IntV(x + y))
      case Minus => Some(IntV(x - y))
      case Times => Some(IntV(x * y))
      case Less => Some(BoolV(x < y))
      case AtMost => Some(BoolV(x <= y))
      case Equals => Some(BoolV(x == y))
  }

  // ----------------------------------------------------------- environments

  type Vars = seq<(string, Value)>
  type Ranges = seq<(string, int, int)>

  datatype Bindings = Bindings(variables: Vars, ranges: Ranges)

  function PushVar(vs: Vars, id: string, v: Value): (r: Vars)
    ensures |r| == |vs| + 1 && r[0] == (id, v) && r[1..] == vs
  {
    [(id, v)] + vs
  }

  function Lookup(vs: Vars, id: string): Option<Value> {
    if vs == [] then None else if vs[0].0 == id then Some(vs[0].1) else Lookup(vs[1..], id)
  }

  function LookupRange(rs: Ranges, id: string): Option<(int, int)> {
    if rs == [] then None else if rs[0].0 == id then Some((rs[0].1, rs[0].2)) else LookupRange(rs[1..], id)
  }

  function Eval(vs: Vars, e: Expr): Option<Value> {
    match e
    case Num(n) => Some(IntV(n))
    case Text(s) => Some(StrV(s))
    case Name(id) => Lookup(vs, id)
    case Bin(op, a, b) =>
      (match Eval(vs, a)
       case None => None
       case Some(x) =>
         match Eval(vs, b)
         case None => None
         case Some(y) => Apply(op, x, y))
    case Not(a) =>
      (match Eval(vs, a)
       case None => None
       case Some(x) => Some(BoolV(!Truthy(x))))
    case And(a, b) =>
      (match Eval(vs, a)
       case None => None
       case Some(x) => if Truthy(x) then Eval(vs, b) else Some(x))
    case Or(a, b) =>
      (match Eval(vs, a)
       case None => None
       case Some(x) => if Truthy(x) then Some(x) else Eval(vs, b))
  }

  function EvalInt(vs: Vars, e: Expr): Option<int> {
    match Eval(vs, e)
    case None => None
    case Some(v) => ToInt(v)
  }

  // ---------------------------------------------------------- pure semantics

  /** The bindings after the code, and the text it writes; `None` if the script exits. */
  function Run(env: Bindings, code: Code<Expr>): Option<(Bindings, string)>
    decreases code, 0, 0
  {
    match code
    case End => Some((env, ""))
    case Then(head, tail) =>
      match RunNode(env, head)
      case None => None
      case Some((env', text)) =>
        match Run(env', tail)
        case None => None
        case Some((env'', text')) => Some((env'', text + text'))
  }

  /** The text of code run in a scope of its own. */
  function RunIn(env: Bindings, code: Code<Expr>): Option<string>
    decreases code, 1, 0
  {
    match Run(env, code)
    case None => None
    case Some((_, text)) => Some(text)
  }

  function RunNode(env: Bindings, node: Node<Expr>): Option<(Bindings, string)>
    decreases node, 0, 0
  {
    match node
    case VarNode(id, def) =>
      (match RunNode(env, def)
       case None => None
       case Some((_, text)) =>
         Some((env.(variables := PushVar(env.variables, id, Normalize(StrV(text)))), "")))
    case RangeNode(id, lower, upper) =>
      (match (EvalInt(env.variables, lower), EvalInt(env.variables, upper))
       case (Some(lo), Some(hi)) => Some((env.(ranges := [(id, lo, hi)] + env.ranges), ""))
       case _ => None)
    case ForNode(id, sep, body) =>
      (match LookupRange(env.ranges, id)
       case None => None
       case Some((lower, upper)) => Leave(env, RunFor(env, id, sep, body, lower, upper)))
    case IfNode(cond, thn, els) =>
      (match Eval(env.variables, cond)
       case None => None
       case Some(v) =>
         if Truthy(v) then Leave(env, RunIn(env, thn))
         else if els.ElseCode? then Leave(env, RunIn(env, els.code))
         else Some((env, "")))
    case RawNode(text) => Some((env, text))
    case ExpNode(exp) =>
      (match Eval(env.variables, exp)
       case None => None
       case Some(v) => Some((env, Format(v))))
    case DollarNode => Some((env, "$"))
    case CodeNode(code) => Leave(env, RunIn(env, code))
  }

  /** A scope ends: its text stays, its bindings do not. */
  function Leave(env: Bindings, text: Option<string>): Option<(Bindings, string)> {
    match text
    case None => None
    case Some(s) => Some((env, s))
  }

  function SepText(sep: Option<string>): string {
    if sep.Some? then sep.value else ""
  }

  /** The rounds from `i` on, each in its own scope, separated but not followed by `sep`. */
  function RunFor(env: Bindings, id: string, sep: Option<string>, body: Code<Expr>, i: int, upper: int)
    : Option<string>
    decreases body, 2, if i <= upper then upper - i + 1 else 0
  {
    if i > upper then Some("")
    else
      match RunIn(env.(variables := PushVar(env.variables, id, IntV(i))), body)
      case None => None
      case Some(text) =>
        match RunFor(env, id, sep, body, i + 1, upper)
        case None => None
        case Some(rest) => Some(text + (if i != upper then SepText(sep) else "") + rest)
  }

  // ------------------------------------------------------------ substitution

  function SubstExp(e: Expr, x: string, k: int): Expr {
    match e
    case Name(id) => if id == x then Num(k) else e
    case Bin(op, a, b) => Bin(op, SubstExp(a, x, k), SubstExp(b, x, k))
    case Not(a) => Not(SubstExp(a, x, k))
    case And(a, b) => And(SubstExp(a, x, k), SubstExp(b, x, k))
    case Or(a, b) => Or(SubstExp(a, x, k), SubstExp(b, x, k))
    case _ => e
  }

  /** Does this atomic code bind `x` for the code after it? */
  predicate Binds(node: Node<Expr>, x: string) {
    node.VarNode? && node.id == x
  }

  predicate CodeBinds(code: Code<Expr>, x: string) {
    code.Then? && (Binds(code.head, x) || CodeBinds(code.tail, x))
  }

  /** Replaces every free use of `x` by `k`. */
  function Subst(code: Code<Expr>, x: string, k: int): Code<Expr> {
    match code
    case End => End
    case Then(head, tail) =>
      Then(SubstNode(head, x, k), if Binds(head, x) then tail else Subst(tail, x, k))
  }

  function SubstNode(node: Node<Expr>, x: string, k: int): Node<Expr> {
    match node
    case VarNode(id, def) => VarNode(id, SubstNode(def, x, k))
    case RangeNode(id, lower, upper) => RangeNode(id, SubstExp(lower, x, k), SubstExp(upper, x, k))
    case ForNode(id, sep, body) => ForNode(id, sep, if id == x then body else Subst(body, x, k))
    case IfNode(cond, thn, els) =>
      IfNode(SubstExp(cond, x, k), Subst(thn, x, k),
             if els.ElseCode? then ElseCode(Subst(els.code, x, k)) else NoElse)
    case ExpNode(exp) => ExpNode(SubstExp(exp, x, k))
    case CodeNode(code) => CodeNode(Subst(code, x, k))
    case _ => node
  }

  /** Every name means the same in both, except that `x`, if given, is `k` on the left. */
  ghost predicate Alike(a: Bindings, b: Bindings, x: Option<string>, k: int) {
    && a.ranges == b.ranges
    && (forall y | x != Some(y) :: Lookup(a.variables, y) == Lookup(b.variables, y))
    && (x.Some? ==> Lookup(a.variables, x.value) == Some(IntV(k)))
  }

  /** Substitution for `x`, or none at all. */
  function MaybeSubst(code: Code<Expr>, x: Option<string>, k: int): Code<Expr> {
    if x.Some? then Subst(code, x.value, k) else code
  }

  function MaybeSubstNode(node: Node<Expr>, x: Option<string>, k: int): Node<Expr> {
    if x.Some? then SubstNode(node, x.value, k) else node
  }

  function MaybeSubstExp(e: Expr, x: Option<string>, k: int): Expr {
    if x.Some? then SubstExp(e, x.value, k) else e
  }

  /** What is still to be substituted after a binding of `id`. */
  function Unbound(x: Option<string>, id: string): Option<string> {
    if x == Some(id) then None else x
  }

  lemma {:induction false} EvalAlike(a: Bindings, b: Bindings, x: Option<string>, k: int, e: Expr)
    requires Alike(a, b, x, k)
    ensures Eval(a.variables, e) == Eval(b.variables, MaybeSubstExp(e, x, k))
  {
    hide Lookup, Apply;
    match e
    case Bin(_, l, r) => EvalAlike(a, b, x, k, l); EvalAlike(a, b, x, k, r);
    case Not(l) => EvalAlike(a, b, x, k, l);
    case And(l, r) => EvalAlike(a, b, x, k, l); EvalAlike(a, b, x, k, r);
    case Or(l, r) => EvalAlike(a, b, x, k, l); EvalAlike(a, b, x, k, r);
    case _ =>
  }

  lemma PushAlike(a: Bindings, b: Bindings, x: Option<string>, k: int, id: string, v: Value)
    requires Alike(a, b, x, k)
    ensures Alike(a.(variables := PushVar(a.variables, id, v)), b.(variables := PushVar(b.variables, id, v)),
                  Unbound(x, id), k)
  {
  }

  /** Both runs fail, or both write the same text and leave alike bindings. */
  ghost predicate SameRun(r: Option<(Bindings, string)>, s: Option<(Bindings, string)>, x: Option<string>, k: int) {
    match (r, s)
    case (None, None) => true
    case (Some((a, text)), Some((b, text'))) => text == text' && Alike(a, b, x, k)
    case _ => false
  }

  function AfterNode(node: Node<Expr>, x: Option<string>): Option<string> {
    if node.VarNode? then Unbound(x, node.id) else x
  }

  function AfterCode(code: Code<Expr>, x: Option<string>): Option<string> {
    match code
    case End => x
    case Then(head, tail) => AfterCode(tail, AfterNode(head, x))
  }

  lemma {:induction false} RunAlike(a: Bindings, b: Bindings, x: Option<string>, k: int, code: Code<Expr>)
    requires Alike(a, b, x, k)
    ensures SameRun(Run(a, code), Run(b, MaybeSubst(code, x, k)), AfterCode(code, x), k)
    decreases code, 0, 0
  {
    hide Alike, RunNode, SubstNode;
    match code
    case End =>
    case Then(head, tail) =>
      RunNodeAlike(a, b, x, k, head);
      var r, s := RunNode(a, head), RunNode(b, MaybeSubstNode(head, x, k));
      if r.Some? {
        RunAlike(r.value.0, s.value.0, AfterNode(head, x), k, tail);
      }
  }

  lemma {:induction false} RunNodeAlike(a: Bindings, b: Bindings, x: Option<string>, k: int, node: Node<Expr>)
    requires Alike(a, b, x, k)
    ensures SameRun(RunNode(a, node), RunNode(b, MaybeSubstNode(node, x, k)), AfterNode(node, x), k)
    decreases node, 0, 0
  {
    hide Lookup, LookupRange, Eval, SubstExp, Normalize, ToInt, Format, Truthy;
    match node
    case VarNode(id, def) =>
      RunNodeAlike(a, b, x, k, def);
      var r := RunNode(a, def);
      if r.Some? {
        PushAlike(a, b, x, k, id, Normalize(StrV(r.value.1)));
      }
    case RangeNode(_, lower, upper) => EvalAlike(a, b, x, k, lower); EvalAlike(a, b, x, k, upper);
    case ForNode(id, sep, body) =>
      var r := LookupRange(a.ranges, id);
      if r.Some? {
        RunForAlike(a, b, x, k, id, sep, body, r.value.0, r.value.1);
      }
    case IfNode(cond, thn, els) =>
      EvalAlike(a, b, x, k, cond);
      RunAlike(a, b, x, k, thn);
      if els.ElseCode? {
        RunAlike(a, b, x, k, els.code);
      }
    case ExpNode(exp) => EvalAlike(a, b, x, k, exp);
    case CodeNode(code) => RunAlike(a, b, x, k, code);
    case _ =>
  }

  lemma {:induction false} RunForAlike(a: Bindings, b: Bindings, x: Option<string>, k: int, id: string,
                                       sep: Option<string>, body: Code<Expr>, i: int, upper: int)
    requires Alike(a, b, x, k)
    ensures RunFor(a, id, sep, body, i, upper)
         == RunFor(b, id, sep, MaybeSubst(body, Unbound(x, id), k), i, upper)
    decreases body, 2, if i <= upper then upper - i + 1 else 0
  {
    hide Run, Alike, Subst;
    if i <= upper {
      PushAlike(a, b, x, k, id, IntV(i));
      RunAlike(a.(variables := PushVar(a.variables, id, IntV(i))),
               b.(variables := PushVar(b.variables, id, IntV(i))), Unbound(x, id), k, body);
      RunForAlike(a, b, x, k, id, sep, body, i + 1, upper);
    }
  }

  /**
   Running code with `x` bound to `k` writes what the code with `k` in place of
   every free `x` writes without that binding, or fails when it does.
   */
  lemma Substitution(env: Bindings, x: string, k: int, code: Code<Expr>)
    ensures RunIn(env.(variables := PushVar(env.variables, x, IntV(k))), code)
         == RunIn(env, Subst(code, x, k))
  {
    var bound := env.(variables := PushVar(env.variables, x, IntV(k)));
    assert Alike(bound, env, Some(x), k);
    RunAlike(bound, env, Some(x), k, code);
  }

  /** A loop written out: one block per value, a separator between neighbours. */
  function Unroll(id: string, sep: Option<string>, body: Code<Expr>, i: int, upper: int): Code<Expr>
    decreases if i <= upper then upper - i + 1 else 0
  {
    if i > upper then End
    else
      var rest := Unroll(id, sep, body, i + 1, upper);
      Then(CodeNode(Subst(body, id, i)), if i != upper then Then(RawNode(SepText(sep)), rest) else rest)
  }

  /** A block, then code that leaves the bindings alone. */
  lemma BlockThen(env: Bindings, body: Code<Expr>, tail: Code<Expr>, rest: Option<string>)
    requires Run(env, tail) == Leave(env, rest)
    ensures Run(env, Then(CodeNode(body), tail)) ==
            if RunIn(env, body).Some? && rest.Some? then Some((env, RunIn(env, body).value + rest.value)) else None
  {
    hide RunIn;
  }

  /** The same for raw code. */
  lemma RawThen(env: Bindings, text: string, tail: Code<Expr>, rest: Option<string>)
    requires Run(env, tail) == Leave(env, rest)
    ensures Run(env, Then(RawNode(text), tail)) ==
            Leave(env, if rest.Some? then Some(text + rest.value) else None)
  {
  }

  lemma {:induction false} UnrollRuns(env: Bindings, id: string, sep: Option<string>, body: Code<Expr>,
                                      i: int, upper: int)
    ensures Run(env, Unroll(id, sep, body, i, upper)) == Leave(env, RunFor(env, id, sep, body, i, upper))
    decreases if i <= upper then upper - i + 1 else 0
  {
    if i <= upper {
      hide Run, RunIn, Subst, SepText;
      Substitution(env, id, i, body);
      UnrollRuns(env, id, sep, body, i + 1, upper);
      var tail := Unroll(id, sep, body, i + 1, upper);
      var rest := RunFor(env, id, sep, body, i + 1, upper);
      if i != upper {
        RawThen(env, SepText(sep), tail, rest);
        var more := if rest.Some? then Some(SepText(sep) + rest.value) else None;
        BlockThen(env, Subst(body, id, i), Then(RawNode(SepText(sep)), tail), more);
        if RunIn(env, Subst(body, id, i)).Some? && rest.Some? {
          var a, s, b := RunIn(env, Subst(body, id, i)).value, SepText(sep), rest.value;
          assert a + (s + b) == a + s + b;
        }
      } else {
        BlockThen(env, Subst(body, id, i), tail, rest);
        if RunIn(env, Subst(body, id, i)).Some? {
          assert RunIn(env, Subst(body, id, i)).value + "" == RunIn(env, Subst(body, id, i)).value;
        }
      }
    }
  }

  /** A `$for` over a range is exactly its unrolling. */
  lemma ForIsUnrolling(env: Bindings, id: string, sep: Option<string>, body: Code<Expr>, lower: int, upper: int)
    requires LookupRange(env.ranges, id) == Some((lower, upper))
    ensures RunNode(env, ForNode(id, sep, body)) == Run(env, Unroll(id, sep, body, lower, upper))
  {
    UnrollRuns(env, id, sep, body, lower, upper);
  }

  function Blocks(code: Code<Expr>): nat {
    match code
    case End => 0
    case Then(head, tail) => (if head.CodeNode? then 1 else 0) + Blocks(tail)
  }

  function Separators(code: Code<Expr>): nat {
    match code
    case End => 0
    case Then(head, tail) => (if head.RawNode? then 1 else 0) + Separators(tail)
  }

  lemma {:induction false} UnrollCounts(id: string, sep: Option<string>, body: Code<Expr>, i: int, upper: int)
    ensures Blocks(Unroll(id, sep, body, i, upper)) == if i <= upper then upper - i + 1 else 0
    ensures Separators(Unroll(id, sep, body, i, upper)) == if i <= upper then upper - i else 0
    decreases if i <= upper then upper - i + 1 else 0
  {
    if i <= upper {
      UnrollCounts(id, sep, body, i + 1, upper);
    }
  }

  // ----------------------------------------------------------------- scoping

  /** `old` with new bindings in front. */
  predicate Extends(new_: Bindings, old_: Bindings) {
    && |old_.variables| <= |new_.variables|
    && new_.variables[|new_.variables| - |old_.variables|..] == old_.variables
    && |old_.ranges| <= |new_.ranges|
    && new_.ranges[|new_.ranges| - |old_.ranges|..] == old_.ranges
  }

  /** Atomic code other than `$var` and `$range` leaves the bindings alone. */
  lemma ScopesClose(env: Bindings, node: Node<Expr>)
    requires RunNode(env, node).Some? && !node.VarNode? && !node.RangeNode?
    ensures RunNode(env, node).value.0 == env
  {
  }

  lemma {:induction false} RunOnlyPrepends(env: Bindings, code: Code<Expr>)
    requires Run(env, code).Some?
    ensures Extends(Run(env, code).value.0, env)
    decreases code
  {
    hide RunNode;
    match code
    case End =>
    case Then(head, tail) =>
      var mid := RunNode(env, head).value.0;
      NodeOnlyPrepends(env, head);
      RunOnlyPrepends(mid, tail);
      ExtendsTransitive(Run(mid, tail).value.0, mid, env);
  }

  lemma NodeOnlyPrepends(env: Bindings, node: Node<Expr>)
    requires RunNode(env, node).Some?
    ensures Extends(RunNode(env, node).value.0, env)
  {
    if node.RangeNode? {
      var after := RunNode(env, node).value.0;
      assert after.ranges[1..] == env.ranges;
    }
  }

  lemma DropTwice<T>(s: seq<T>, i: nat, j: nat)
    requires i + j <= |s|
    ensures s[i..][j..] == s[i + j..]
  {
  }

  lemma ExtendsTransitive(a: Bindings, b: Bindings, c: Bindings)
    requires Extends(a, b) && Extends(b, c)
    ensures Extends(a, c)
  {
    DropTwice(a.variables, |a.variables| - |b.variables|, |b.variables| - |c.variables|);
    DropTwice(a.ranges, |a.ranges| - |b.ranges|, |b.ranges| - |c.ranges|);
  }
}
