/**
 The evaluator as the script runs it: an environment and an output that are
 updated in place, with a clone of the environment for every inner scope.
 */
module PumpRun {
  import opened PumpEval
  import opened PumpSyntax
  import opened Wrappers

  class Env {
    var variables: Vars
    var ranges: Ranges

    constructor ()
      ensures variables == [] && ranges == []
    {
      variables, ranges := [], [];
    }

    ghost function Value(): Bindings
      reads this
    {
      Bindings(variables, ranges)
    }

    method Clone() returns (clone: Env)
      ensures fresh(clone) && clone.Value() == Value()
    {
      clone := new Env();
      clone.variables := variables;
      clone.ranges := ranges;
    }

    /** From now on the name is written as the value is; other names keep their meaning. */
    method PushVariable(id: string, value: PumpEval.Value)
      modifies this`variables
      ensures variables == PushVar(old(variables), id, Normalize(value))
      ensures Lookup(variables, id).Some? && Format(Lookup(variables, id).value) == Format(value)
      ensures forall y | y != id :: Lookup(variables, y) == Lookup(old(variables), y)
    {
      hide Format, Normalize;
      NormalizeKeepsText(value);
      variables := [(id, Normalize(value))] + variables;
    }

    method PushRange(id: string, lower: int, upper: int)
      modifies this`ranges
      ensures ranges == [(id, lower, upper)] + old(ranges)
    {
      ranges := [(id, lower, upper)] + ranges;
    }

    /** The newest binding of a name; `None` where the script exits. */
    method GetValue(id: string) returns (r: Option<PumpEval.Value>)
      ensures r == Lookup(variables, id)
    {
      var k := 0;
      assert variables[0..] == variables;
      while k < |variables|
        invariant 0 <= k <= |variables| && Lookup(variables[k..], id) == Lookup(variables, id)
      {
        if variables[k].0 == id {
          return Some(variables[k].1);
        }
        assert variables[k..][1..] == variables[k + 1..];
        k := k + 1;
      }
      return None;
    }

    method GetRange(id: string) returns (r: Option<(int, int)>)
      ensures r == LookupRange(ranges, id)
    {
      var k := 0;
      assert ranges[0..] == ranges;
      while k < |ranges|
        invariant 0 <= k <= |ranges| && LookupRange(ranges[k..], id) == LookupRange(ranges, id)
      {
        if ranges[k].0 == id {
          return Some((ranges[k].1, ranges[k].2));
        }
        assert ranges[k..][1..] == ranges[k + 1..];
        k := k + 1;
      }
      return None;
    }
  }

  class Output {
    var str: string

    constructor ()
      ensures str == ""
    {
      str := "";
    }

    method Append(s: string)
      modifies this
      ensures str == old(str) + s
    {
      str := str + s;
    }
  }

  /** `text`, then what `r` writes. */
  ghost function Writing(text: string, r: Option<(Bindings, string)>): Option<(Bindings, string)> {
    match r
    case None => None
    case Some((env, rest)) => Some((env, text + rest))
  }

  ghost function WritingText(text: string, r: Option<string>): Option<string> {
    match r
    case None => None
    case Some(rest) => Some(text + rest)
  }

  /** A run of the script: false where it exits, else what the pure semantics says. */
  twostate predicate Ran(ok: bool, env: Env, output: Output, r: Option<(Bindings, string)>)
    reads env, output
  {
    && (ok <==> r.Some?)
    && (ok ==> env.Value() == r.value.0 && output.str == old(output.str) + r.value.1)
    && old(output.str) <= output.str
  }

  /** The same for code run in a clone: the caller's bindings are not at stake. */
  twostate predicate Wrote(ok: bool, output: Output, r: Option<string>)
    reads output
  {
    && (ok <==> r.Some?)
    && (ok ==> output.str == old(output.str) + r.value)
    && old(output.str) <= output.str
  }

  method RunAtomicCode(env: Env, node: Node<Expr>, output: Output) returns (ok: bool)
    modifies env, output
    ensures Ran(ok, env, output, RunNode(old(env.Value()), node))
    ensures !node.VarNode? && !node.RangeNode? ==> env.Value() == old(env.Value())
    decreases node, 1
  {
    hide Eval, Run, Normalize, Format;
    match node {
      case VarNode(id, def) =>
        var result := new Output();
        var inner := env.Clone();
        ghost var inner' := inner.Value();
        ok := RunAtomicCode(inner, def, result);
        if ok {
          ghost var text := RunNode(inner', def).value.1;
          assert "" + text == text;
          env.PushVariable(id, StrV(result.str));
          assert output.str + "" == output.str;
        }
      case RangeNode(id, exp1, exp2) =>
        var lower, upper := EvalInt(env.variables, exp1), EvalInt(env.variables, exp2);
        if lower.None? || upper.None? {
          return false;
        }
        env.PushRange(id, lower.value, upper.value);
        assert output.str + "" == output.str;
        return true;
      case ForNode(id, sep, body) =>
        var range := env.GetRange(id);
        if range.None? {
          return false;
        }
        ok := RunLoop(env, id, sep, body, range.value.0, range.value.1, output);
      case RawNode(text) =>
        output.Append(text);
        return true;
      case IfNode(cond, thn, els) =>
        var value := Eval(env.variables, cond);
        if value.None? {
          return false;
        }
        if Truthy(value.value) {
          ok := RunScope(env, thn, output);
        } else if els.ElseCode? {
          ok := RunScope(env, els.code, output);
        } else {
          assert output.str + "" == output.str;
          return true;
        }
      case ExpNode(exp) =>
        var value := Eval(env.variables, exp);
        if value.None? {
          return false;
        }
        output.Append(Format(value.value));
        return true;
      case DollarNode =>
        output.Append("$");
        return true;
      case CodeNode(code) =>
        ok := RunScope(env, code, output);
    }
  }

  /** `RunCode(env.Clone(), code, output)` */
  method RunScope(env: Env, code: Code<Expr>, output: Output) returns (ok: bool)
    modifies output
    ensures Wrote(ok, output, RunIn(env.Value(), code))
    decreases code, 2
  {
    var clone := env.Clone();
    ok := RunCode(clone, code, output);
  }

  /** The loop of a `$for`. */
  method RunLoop(env: Env, id: string, sep: Option<string>, body: Code<Expr>, lower: int, upper: int,
                 output: Output) returns (ok: bool)
    modifies output
    ensures Wrote(ok, output, RunFor(env.Value(), id, sep, body, lower, upper))
    decreases body, 2
  {
    hide Run, RunIn, RunFor, SepText;
    ghost var before, value := output.str, env.Value();
    ghost var text := "";
    var i := lower;
    LoopStart(value, id, sep, body, lower, upper);
    while i < upper + 1
      invariant lower <= i && (i <= upper + 1 || i == lower)
      invariant output.str == before + text
      invariant RunFor(value, id, sep, body, lower, upper)
             == WritingText(text, RunFor(value, id, sep, body, i, upper))
    {
      var newEnv := env.Clone();
      newEnv.PushVariable(id, IntV(i));
      RoundRuns(value, id, sep, body, i, upper);
      ok := RunCode(newEnv, body, output);
      if !ok {
        return;
      }
      ghost var more := output.str[|before + text|..];
      if i != upper {
        output.Append(SepText(sep));
      }
      LoopRound(value, id, sep, body, i, upper, text, more);
      text := text + more + if i != upper then SepText(sep) else "";
      i := i + 1;
    }
    LoopEnd(value, id, sep, body, i, upper);
    assert text + "" == text;
    ok := true;
  }

  lemma LoopEnd(env: Bindings, id: string, sep: Option<string>, body: Code<Expr>, i: int, upper: int)
    requires i > upper
    ensures RunFor(env, id, sep, body, i, upper) == Some("")
  {
  }

  /** A round runs the body with the loop variable bound; if that fails, so does the loop. */
  lemma RoundRuns(env: Bindings, id: string, sep: Option<string>, body: Code<Expr>, i: int, upper: int)
    requires i <= upper
    ensures var inner := Run(env.(variables := PushVar(env.variables, id, Normalize(IntV(i)))), body);
            && RunIn(env.(variables := PushVar(env.variables, id, IntV(i))), body)
               == (if inner.Some? then Some(inner.value.1) else None)
            && (inner.None? ==> RunFor(env, id, sep, body, i, upper) == None)
  {
    hide Run;
  }

  lemma LoopStart(env: Bindings, id: string, sep: Option<string>, body: Code<Expr>, i: int, upper: int)
    ensures RunFor(env, id, sep, body, i, upper) == WritingText("", RunFor(env, id, sep, body, i, upper))
  {
    var r := RunFor(env, id, sep, body, i, upper);
    if r.Some? {
      assert "" + r.value == r.value;
    }
  }

  lemma LoopRound(env: Bindings, id: string, sep: Option<string>, body: Code<Expr>, i: int, upper: int,
                  text: string, more: string)
    requires i <= upper && RunIn(env.(variables := PushVar(env.variables, id, IntV(i))), body) == Some(more)
    ensures WritingText(text, RunFor(env, id, sep, body, i, upper))
         == WritingText(text + more + (if i != upper then SepText(sep) else ""),
                        RunFor(env, id, sep, body, i + 1, upper))
  {
    var rest := RunFor(env, id, sep, body, i + 1, upper);
    if rest.Some? {
      var s := if i != upper then SepText(sep) else "";
      assert text + (more + s + rest.value) == text + more + s + rest.value;
    }
  }

  method RunCode(env: Env, code: Code<Expr>, output: Output) returns (ok: bool)
    modifies env, output
    ensures Ran(ok, env, output, Run(old(env.Value()), code))
    decreases code, 1
  {
    hide RunNode;
    ghost var before, r := output.str, Run(env.Value(), code);
    ghost var text := "";
    var rest := code;
    CodeStart(env.Value(), code);
    while rest.Then?
      invariant rest == code || rest < code
      invariant output.str == before + text
      invariant r == Writing(text, Run(env.Value(), rest))
      decreases rest
    {
      ghost var value, sofar := env.Value(), output.str;
      ok := RunAtomicCode(env, rest.head, output);
      if !ok {
        return;
      }
      CodeRound(value, rest, text);
      text := text + RunNode(value, rest.head).value.1;
      rest := rest.tail;
    }
    assert text + "" == text;
    ok := true;
  }

  lemma CodeStart(env: Bindings, code: Code<Expr>)
    ensures Run(env, code) == Writing("", Run(env, code))
  {
    var r := Run(env, code);
    if r.Some? {
      assert "" + r.value.1 == r.value.1;
    }
  }

  lemma CodeRound(env: Bindings, code: Code<Expr>, text: string)
    requires code.Then? && RunNode(env, code.head).Some?
    ensures var (env', more) := RunNode(env, code.head).value;
            Writing(text, Run(env, code)) == Writing(text + more, Run(env', code.tail))
  {
    var (env', more) := RunNode(env, code.head).value;
    var rest := Run(env', code.tail);
    if rest.Some? {
      assert text + (more + rest.value.1) == text + more + rest.value.1;
    }
  }
}
