/** What the derived forms mean: the desugared code, run by the evaluator of
    uscheme-trace/eval.c, behaves as and, or and cond are meant to, and the
    let that desugarLet builds (which the parser does not use) behaves as
    the evaluator's own let. */
module SchemeDesugarFacts {
  import opened Results
  import opened SchemeValue
  import opened SchemeEval
  import opened SchemeDesugar
  import ErrorFacility

  /** evallist returns one value per operand. */
  lemma {:induction false} EvalListLength(fuel: nat, es: seq<Exp>, env: Env, st: St, m: Machine)
    ensures var r := EvalList(fuel, es, env, st, m); r.Done? ==> |r.val| == |es|
    decreases |es|
  {
    if es != [] {
      var r0 := Eval(fuel, es[0], env, st, m);
      if r0.Done? {
        EvalListLength(fuel, es[1..], env, r0.st, m);
      }
    }
  }

  /** Without tracing, the application of a lambda that desugarLet builds
      evaluates exactly as the let form it replaces: same value or error,
      same final state. */
  lemma LetDesugarAgrees(fuel: nat, xs: seq<Name>, es: seq<Exp>, body: Exp, env: Env, st: St, m: Machine)
    requires !m.tracing && |xs| == |es| && fuel >= 2
    ensures Eval(fuel, DesugarLet(xs, es, body), env, st, m) == Eval(fuel, LetX(Let, xs, es, body), env, st, m)
  {
    var f := fuel - 1;
    var lam := Lambda(xs, body);
    assert Eval(f, LambdaX(lam), env, st, m) == Done(Closure(lam, env), st);
    assert Eval(fuel, DesugarLet(xs, es, body), env, st, m) == EvalApply(f, LambdaX(lam), es, env, st, m);
    assert Eval(fuel, LetX(Let, xs, es, body), env, st, m) == EvalLet(f, Let, xs, es, body, env, st, m);
    var l := EvalList(f, es, env, st, m);
    EvalListLength(f, es, env, st, m);
    if l.Done? {
      var t := TraceEnter(m.tracing, env, l.st);
      assert t.st == l.st && !t.on;
      assert ErrorFacility.CheckArgc(|xs|, |l.val|).None?;
    }
  }

  /** Literal expressions for a list of values. */
  function Lits(vs: seq<Value>): (es: seq<Exp>)
    ensures |es| == |vs| && forall i | 0 <= i < |vs| :: es[i] == Literal(vs[i])
  {
    if vs == [] then [] else [Literal(vs[0])] + Lits(vs[1..])
  }

  /** The value and is meant to produce over vs: #t for none; #f as soon as
      one before the last is #f; otherwise the last value. */
  predicate AndAnswer(vs: seq<Value>, v: Value) {
    && (vs == [] ==> v == TrueV)
    && ((exists i | 0 <= i < |vs| - 1 :: vs[i] == FalseV) ==> v == FalseV)
    && (vs != [] && (forall i | 0 <= i < |vs| - 1 :: vs[i] != FalseV) ==> v == vs[|vs| - 1])
  }

  /** The value and computes over vs, one operand at a time. */
  function AndValue(vs: seq<Value>): Value
    decreases |vs|
  {
    if vs == [] then TrueV
    else if |vs| == 1 then vs[0]
    else if vs[0] == FalseV then FalseV
    else AndValue(vs[1..])
  }

  /** and over literal values produces the value AndAnswer describes and
      leaves the state untouched. */
  lemma AndOfLiterals(fuel: nat, vs: seq<Value>, env: Env, st: St, m: Machine)
    requires fuel >= |vs| + 1
    ensures var r := Eval(fuel, DesugarAnd(Lits(vs)), env, st, m);
            r.Done? && r.st == st && AndAnswer(vs, r.val)
  {
    AndEvaluates(fuel, vs, env, st, m);
    AndValueAnswers(vs);
  }

  /** The desugared and over literal values evaluates to AndValue. */
  lemma {:induction false} AndEvaluates(fuel: nat, vs: seq<Value>, env: Env, st: St, m: Machine)
    requires fuel >= |vs| + 1
    ensures Eval(fuel, DesugarAnd(Lits(vs)), env, st, m) == Done(AndValue(vs), st)
    decreases |vs|
  {
    if |vs| < 2 {
      AndOfFewLiterals(fuel, vs, env, st, m);
    } else {
      AndStep(fuel, vs, env, st, m);
      if vs[0] != FalseV {
        AndEvaluates(fuel - 1, vs[1..], env, st, m);
      }
    }
  }

  /** AndValue is the value AndAnswer describes. */
  lemma {:induction false} AndValueAnswers(vs: seq<Value>)
    ensures AndAnswer(vs, AndValue(vs))
    decreases |vs|
  {
    if |vs| >= 2 {
      if vs[0] == FalseV {
        assert 0 < |vs| - 1;
      } else {
        AndValueAnswers(vs[1..]);
        AndAnswerCons(vs, AndValue(vs[1..]));
      }
    }
  }

  /** One step of and: a #f head answers #f, any other head leaves the rest. */
  lemma AndStep(fuel: nat, vs: seq<Value>, env: Env, st: St, m: Machine)
    requires |vs| >= 2 && fuel >= 2
    ensures Eval(fuel, DesugarAnd(Lits(vs)), env, st, m)
              == if vs[0] == FalseV then Done(FalseV, st)
                 else Eval(fuel - 1, DesugarAnd(Lits(vs[1..])), env, st, m)
  {
    assert Lits(vs)[1..] == Lits(vs[1..]);
  }

  /** and over no value is #t, over one value that value. */
  lemma AndOfFewLiterals(fuel: nat, vs: seq<Value>, env: Env, st: St, m: Machine)
    requires |vs| < 2 && fuel >= 1
    ensures Eval(fuel, DesugarAnd(Lits(vs)), env, st, m) == Done(AndValue(vs), st)
  {
    var v := if vs == [] then TrueV else vs[0];
    assert DesugarAnd(Lits(vs)) == Literal(v);
    assert Eval(fuel, Literal(v), env, st, m) == Done(v, st);
  }

  /** Below a head that is not #f, and answers what it answers for the tail. */
  lemma AndAnswerCons(vs: seq<Value>, v: Value)
    requires |vs| >= 2 && vs[0] != FalseV && AndAnswer(vs[1..], v)
    ensures AndAnswer(vs, v)
  {
    var rest := vs[1..];
    if exists i | 0 <= i < |vs| - 1 :: vs[i] == FalseV {
      var i :| 0 <= i < |vs| - 1 && vs[i] == FalseV;
      assert rest[i - 1] == FalseV;
    }
    if forall i | 0 <= i < |vs| - 1 :: vs[i] != FalseV {
      forall i | 0 <= i < |rest| - 1
        ensures rest[i] != FalseV
      {
        assert rest[i] == vs[i + 1];
      }
      assert vs[|vs| - 1] == rest[|rest| - 1];
    }
  }

  /** One step of or: the temporary is bound to the first value in a fresh
      location; a true value is the answer, otherwise the rest runs in the
      extended environment. */
  lemma OrStep(fuel: nat, x: Name, v: Value, e2: Exp, env: Env, st: St, m: Machine)
    requires fuel >= 3
    ensures var b := BindAlloc(x, v, env, st);
            Eval(fuel, LetX(Let, [x], [Literal(v)], If(Var(x), Var(x), e2)), env, st, m)
              == if IsTrue(v) then Done(v, b.st) else Eval(fuel - 2, e2, b.env, b.st, m)
  {
    var b := BindAlloc(x, v, env, st);
    var e1 := [Literal(v)];
    var ifx := If(Var(x), Var(x), e2);
    assert EvalList(fuel - 1, e1, env, st, m) == Done([v], st) by {
      assert e1[0] == Literal(v) && e1[1..] == [];
      assert Eval(fuel - 1, e1[0], env, st, m) == Done(v, st);
      assert EvalList(fuel - 1, e1[1..], env, st, m) == Done([], st);
      assert [v] + [] == [v];
    }
    assert BindAllocList([x], [v], env, st) == b by {
      assert [x][1..] == [] && [v][1..] == [];
    }
    assert Eval(fuel - 2, Var(x), b.env, b.st, m) == Done(v, b.st);
    var r := Eval(fuel, LetX(Let, [x], e1, ifx), env, st, m);
    assert r == EvalLet(fuel - 1, Let, [x], e1, ifx, env, st, m);
    assert |[x]| == |[v]|;
    assert r == Eval(fuel - 1, ifx, b.env, b.st, m);
  }

  /** The value or is meant to produce over vs: #f for none; the first true
      value before the last if there is one; otherwise the last value. */
  predicate OrAnswer(vs: seq<Value>, v: Value) {
    && (vs == [] ==> v == FalseV)
    && (forall i | 0 <= i < |vs| - 1 ::
          IsTrue(vs[i]) && (forall j | 0 <= j < i :: !IsTrue(vs[j])) ==> v == vs[i])
    && (vs != [] && (forall i | 0 <= i < |vs| - 1 :: !IsTrue(vs[i])) ==> v == vs[|vs| - 1])
  }

  lemma OrAnswerCons(vs: seq<Value>, v: Value)
    requires |vs| >= 2
    ensures IsTrue(vs[0]) ==> OrAnswer(vs, vs[0])
    ensures !IsTrue(vs[0]) && OrAnswer(vs[1..], v) ==> OrAnswer(vs, v)
  {
    var rest := vs[1..];
    if !IsTrue(vs[0]) && OrAnswer(rest, v) {
      forall i | 0 <= i < |vs| - 1 && IsTrue(vs[i]) && (forall j | 0 <= j < i :: !IsTrue(vs[j]))
        ensures v == vs[i]
      {
        assert i > 0 && vs[i] == rest[i - 1];
        assert forall j | 0 <= j < i - 1 :: !IsTrue(rest[j]) by {
          assert forall j | 0 <= j < i - 1 :: rest[j] == vs[j + 1];
        }
      }
      if forall i | 0 <= i < |vs| - 1 :: !IsTrue(vs[i]) {
        assert forall i | 0 <= i < |rest| - 1 :: rest[i] == vs[i + 1];
      }
    }
  }

  lemma OrAnswerShort(vs: seq<Value>)
    requires |vs| < 2
    ensures OrAnswer(vs, if vs == [] then FalseV else vs[0])
  {
  }

  /** One step of or over literals: the temporary bound to the first value
      answers when that value is true; otherwise the rest of the disjunction
      runs with the temporary in scope. */
  lemma OrOfLiteralsStep(fuel: nat, vs: seq<Value>, env: Env, st: St, m: Machine)
    requires |vs| >= 2 && fuel >= 3
    ensures var x := TempName(FreshSuffix(FreeVars(DesugarOr(Lits(vs[1..])))));
            var b := BindAlloc(x, vs[0], env, st);
            Eval(fuel, DesugarOr(Lits(vs)), env, st, m)
              == if IsTrue(vs[0]) then Done(vs[0], b.st) else Eval(fuel - 2, DesugarOr(Lits(vs[1..])), b.env, b.st, m)
  {
    var e2 := DesugarOr(Lits(vs[1..]));
    var x := TempName(FreshSuffix(FreeVars(e2)));
    assert Lits(vs)[1..] == Lits(vs[1..]);
    assert DesugarOr(Lits(vs)) == LetX(Let, [x], [Literal(vs[0])], If(Var(x), Var(x), e2));
    OrStep(fuel, x, vs[0], e2, env, st, m);
  }

  /** The value or computes over vs, one operand at a time. */
  function OrValue(vs: seq<Value>): Value
    decreases |vs|
  {
    if vs == [] then FalseV
    else if |vs| == 1 || IsTrue(vs[0]) then vs[0]
    else OrValue(vs[1..])
  }

  /** or over literal values produces the value OrAnswer describes. */
  lemma OrOfLiterals(fuel: nat, vs: seq<Value>, env: Env, st: St, m: Machine)
    requires fuel >= 2 * |vs| + 1
    ensures var r := Eval(fuel, DesugarOr(Lits(vs)), env, st, m);
            r.Done? && OrAnswer(vs, r.val)
  {
    OrEvaluates(fuel, vs, env, st, m);
    OrValueAnswers(vs);
  }

  /** The desugared or over literal values evaluates to OrValue. */
  lemma {:induction false} OrEvaluates(fuel: nat, vs: seq<Value>, env: Env, st: St, m: Machine)
    requires fuel >= 2 * |vs| + 1
    ensures var r := Eval(fuel, DesugarOr(Lits(vs)), env, st, m);
            r.Done? && r.val == OrValue(vs)
    decreases |vs|
  {
    if |vs| < 2 {
      OrOfFewLiterals(fuel, vs, env, st, m);
    } else {
      OrOfLiteralsStep(fuel, vs, env, st, m);
      if !IsTrue(vs[0]) {
        var x := TempName(FreshSuffix(FreeVars(DesugarOr(Lits(vs[1..])))));
        var b := BindAlloc(x, vs[0], env, st);
        OrEvaluates(fuel - 2, vs[1..], b.env, b.st, m);
      }
    }
  }

  /** or over no value is #f, over one value that value. */
  lemma OrOfFewLiterals(fuel: nat, vs: seq<Value>, env: Env, st: St, m: Machine)
    requires |vs| < 2 && fuel >= 1
    ensures var r := Eval(fuel, DesugarOr(Lits(vs)), env, st, m);
            r.Done? && r.val == OrValue(vs)
  {
    var v := if vs == [] then FalseV else vs[0];
    assert DesugarOr(Lits(vs)) == Literal(v);
    assert Eval(fuel, Literal(v), env, st, m) == Done(v, st);
  }

  /** OrValue is the value OrAnswer describes. */
  lemma {:induction false} OrValueAnswers(vs: seq<Value>)
    ensures OrAnswer(vs, OrValue(vs))
    decreases |vs|
  {
    if |vs| < 2 {
      OrAnswerShort(vs);
    } else if IsTrue(vs[0]) {
      OrAnswerCons(vs, vs[0]);
    } else {
      OrValueAnswers(vs[1..]);
      OrAnswerCons(vs, OrValue(vs[1..]));
    }
  }

  /** The symbol cond passes to `error` when no question holds. */
  const CondFailure: Value := Sym("cond:-all-question-results-were-false")

  /** One step of cond: a literal question chooses between its answer and
      the rest of the chain. */
  lemma CondStep(fuel: nat, q: Value, a: Exp, rest: Exp, env: Env, st: St, m: Machine)
    requires fuel >= 2
    ensures Eval(fuel, If(Literal(q), a, rest), env, st, m)
              == if IsTrue(q) then Eval(fuel - 1, a, env, st, m) else Eval(fuel - 1, rest, env, st, m)
  {
  }

  /** Where cond over literal questions ends up: the answer of the first
      true question, or the call of `error` when none holds, together with
      the number of evaluation steps spent on the way (one per question). */
  function CondTarget(qs: seq<Value>, answers: seq<Exp>): (r: (nat, Exp))
    ensures r.0 <= MinLen(qs, answers)
    decreases |qs|
  {
    if qs == [] || answers == [] then (0, ErrorExp(Literal(CondFailure)))
    else if IsTrue(qs[0]) then (1, answers[0])
    else var t := CondTarget(qs[1..], answers[1..]); (t.0 + 1, t.1)
  }

  /** cond over literal questions evaluates as its target does, with the
      steps spent subtracted from the fuel. */
  lemma {:induction false} CondEvaluates(fuel: nat, qs: seq<Value>, answers: seq<Exp>,
                                         env: Env, st: St, m: Machine)
    requires fuel > MinLen(qs, answers)
    ensures var t := CondTarget(qs, answers);
            Eval(fuel, DesugarCond(Lits(qs), answers), env, st, m) == Eval(fuel - t.0, t.1, env, st, m)
    decreases |qs|
  {
    if qs != [] && answers != [] {
      CondUnfold(fuel, qs, answers, env, st, m);
      if !IsTrue(qs[0]) {
        CondEvaluates(fuel - 1, qs[1..], answers[1..], env, st, m);
      }
    } else {
      assert DesugarCond(Lits(qs), answers) == ErrorExp(Literal(CondFailure));
    }
  }

  /** The target of cond is the answer of the first true question, after
      i + 1 steps. */
  lemma {:induction false} CondTargetFirstTrue(qs: seq<Value>, answers: seq<Exp>, i: nat)
    requires i < MinLen(qs, answers)
    requires IsTrue(qs[i]) && forall j | 0 <= j < i :: !IsTrue(qs[j])
    ensures CondTarget(qs, answers) == (i + 1, answers[i])
    decreases i
  {
    if i > 0 {
      var rest := qs[1..];
      assert !IsTrue(qs[0]);
      assert rest[i - 1] == qs[i] && answers[1..][i - 1] == answers[i];
      assert forall j | 0 <= j < i - 1 :: rest[j] == qs[j + 1];
      CondTargetFirstTrue(rest, answers[1..], i - 1);
    }
  }

  /** When no question holds, the target is the call of `error`, after one
      step per question. */
  lemma {:induction false} CondTargetNoneTrue(qs: seq<Value>, answers: seq<Exp>)
    requires forall i | 0 <= i < MinLen(qs, answers) :: !IsTrue(qs[i])
    ensures CondTarget(qs, answers) == (MinLen(qs, answers), ErrorExp(Literal(CondFailure)))
    decreases |qs|
  {
    if qs != [] && answers != [] {
      var rest := qs[1..];
      assert !IsTrue(qs[0]);
      assert forall j | 0 <= j < |rest| :: rest[j] == qs[j + 1];
      CondTargetNoneTrue(rest, answers[1..]);
    }
  }

  /** cond with literal questions evaluates the answer of the first true
      question, after one step per question looked at. */
  lemma CondPicksFirstTrue(fuel: nat, qs: seq<Value>, answers: seq<Exp>,
                           env: Env, st: St, m: Machine, i: nat)
    requires fuel > MinLen(qs, answers) && i < MinLen(qs, answers)
    requires IsTrue(qs[i]) && forall j | 0 <= j < i :: !IsTrue(qs[j])
    ensures Eval(fuel, DesugarCond(Lits(qs), answers), env, st, m) == Eval(fuel - 1 - i, answers[i], env, st, m)
  {
    CondEvaluates(fuel, qs, answers, env, st, m);
    CondTargetFirstTrue(qs, answers, i);
  }

  /** The first clause of cond over literal questions: its answer when the
      question is true, the rest of the clauses otherwise. */
  lemma CondUnfold(fuel: nat, qs: seq<Value>, answers: seq<Exp>, env: Env, st: St, m: Machine)
    requires fuel >= 2 && qs != [] && answers != []
    ensures Eval(fuel, DesugarCond(Lits(qs), answers), env, st, m)
              == if IsTrue(qs[0]) then Eval(fuel - 1, answers[0], env, st, m)
                 else Eval(fuel - 1, DesugarCond(Lits(qs[1..]), answers[1..]), env, st, m)
  {
    assert Lits(qs)[1..] == Lits(qs[1..]);
    CondStep(fuel, qs[0], answers[0], DesugarCond(Lits(qs[1..]), answers[1..]), env, st, m);
  }

  /** When no question holds, cond calls `error` on the failure symbol. */
  lemma CondNoneTrue(fuel: nat, qs: seq<Value>, answers: seq<Exp>,
                     env: Env, st: St, m: Machine)
    requires fuel > MinLen(qs, answers)
    requires forall i | 0 <= i < MinLen(qs, answers) :: !IsTrue(qs[i])
    ensures Eval(fuel, DesugarCond(Lits(qs), answers), env, st, m)
              == Eval(fuel - MinLen(qs, answers), ErrorExp(Literal(CondFailure)), env, st, m)
  {
    CondEvaluates(fuel, qs, answers, env, st, m);
    CondTargetNoneTrue(qs, answers);
  }
}
