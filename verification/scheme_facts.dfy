/** What each case of the uScheme evaluator does (uscheme-trace/eval.c),
    stated against Find's innermost-binding reading of environments and
    against the store, and the binding discipline of let, let* and letrec. */
module SchemeFacts {
  import opened Results
  import opened SchemeValue
  import opened SchemeEval
  import opened ErrorFacility

  /** Position p holds the innermost binding of x. */
  predicate InnermostAt(x: Name, env: Env, p: int) {
    && 0 <= p < |env|
    && env[p].name == x
    && forall j | 0 <= j < p :: env[j].name != x
  }

  lemma FindInnermost(x: Name, env: Env, p: int)
    requires InnermostAt(x, env, p)
    ensures Find(x, env) == Some(env[p].loc)
  {
    var k :| 0 <= k < |env| && env[k] == Binding(x, Find(x, env).value)
             && forall j | 0 <= j < k :: env[j].name != x;
    assert !(k < p) && !(p < k);
  }

  /** A variable evaluates to the contents of its innermost binding's location,
      and the state is unchanged. */
  lemma VarReadsInnermost(fuel: nat, x: Name, env: Env, st: St, m: Machine, p: int)
    requires fuel > 0 && InnermostAt(x, env, p) && env[p].loc in st.mem
    ensures Eval(fuel, Var(x), env, st, m) == Done(st.mem[env[p].loc], st)
  {
    FindInnermost(x, env, p);
  }

  /** A variable bound nowhere in env is "name not found". */
  lemma VarUnbound(fuel: nat, x: Name, env: Env, st: St, m: Machine)
    requires fuel > 0 && forall i | 0 <= i < |env| :: env[i].name != x
    ensures Eval(fuel, Var(x), env, st, m) == Abort(NameNotFound(x), st)
  {
  }

  /** set on an unbound name fails before its right-hand side is evaluated:
      whatever the rhs, the error comes with the state as it was. */
  lemma SetUnboundSkipsRhs(fuel: nat, x: Name, rhs: Exp, env: Env, st: St, m: Machine)
    requires fuel > 0 && forall i | 0 <= i < |env| :: env[i].name != x
    ensures Eval(fuel, Set(x, rhs), env, st, m) == Abort(SetUnbound(x), st)
  {
  }

  /** set evaluates the rhs, overwrites the innermost binding's location with
      its value, leaves every other location alone and returns the value. */
  lemma SetWritesInnermost(fuel: nat, x: Name, rhs: Exp, env: Env, st: St, m: Machine, p: int)
    requires fuel > 0 && InnermostAt(x, env, p)
    requires Eval(fuel - 1, rhs, env, st, m).Done?
    ensures var rv := Eval(fuel - 1, rhs, env, st, m);
            var r := Eval(fuel, Set(x, rhs), env, st, m);
            && r.Done? && r.val == rv.val
            && r.st.mem[env[p].loc] == rv.val
            && (forall l | l in rv.st.mem && l != env[p].loc :: l in r.st.mem && r.st.mem[l] == rv.st.mem[l])
            && r.st.mem.Keys == rv.st.mem.Keys + {env[p].loc}
            && r.st.(mem := rv.st.mem) == rv.st
  {
    FindInnermost(x, env, p);
  }

  /** if evaluates exactly one arm, chosen by istrue of the condition. */
  lemma IfTakesOneArm(fuel: nat, c: Exp, t: Exp, el: Exp, env: Env, st: St, m: Machine)
    requires fuel > 0 && Eval(fuel - 1, c, env, st, m).Done?
    ensures var cv := Eval(fuel - 1, c, env, st, m);
            Eval(fuel, If(c, t, el), env, st, m)
              == Eval(fuel - 1, if cv.val != FalseV then t else el, env, cv.st, m)
  {
  }

  /** A while loop that finishes returns false. */
  lemma {:induction false} WhileReturnsFalse(fuel: nat, c: Exp, body: Exp, env: Env, st: St, m: Machine)
    ensures var r := EvalWhile(fuel, c, body, env, st, m); r.Done? ==> r.val == FalseV
    decreases fuel
  {
    if fuel > 0 {
      var c1 := Eval(fuel, c, env, st, m);
      if c1.Done? && IsTrue(c1.val) {
        var b1 := Eval(fuel, body, env, c1.st, m);
        if b1.Done? {
          WhileReturnsFalse(fuel - 1, c, body, env, b1.st, m);
        }
      }
    }
  }

  /** An empty begin returns false. */
  lemma BeginEmpty(fuel: nat, env: Env, st: St, m: Machine)
    requires fuel > 0
    ensures Eval(fuel, Begin([]), env, st, m) == Done(FalseV, st)
  {
  }

  /** begin returns the value of its last expression, evaluated after all the
      others. */
  lemma {:induction false} BeginLast(fuel: nat, es: seq<Exp>, e: Exp, env: Env, st: St, m: Machine, last: Value)
    ensures EvalBegin(fuel, es + [e], env, st, m, last)
            == match EvalBegin(fuel, es, env, st, m, last)
               case Abort(err, s) => Abort(err, s)
               case Done(_, s) => Eval(fuel, e, env, s, m)
    decreases |es|
  {
    if es == [] {
      assert es + [e] == [e];
      assert [e][1..] == [];
    } else {
      assert (es + [e])[1..] == es[1..] + [e];
      match Eval(fuel, es[0], env, st, m)
      case Abort(err, s) =>
      case Done(v, s1) => BeginLast(fuel, es[1..], e, env, s1, m, v);
    }
  }

  /** evallist works strictly left to right: evaluating es1 + es2 is evaluating
      es1, then es2 from the state es1 left behind. */
  lemma {:induction false} ListAppend(fuel: nat, es1: seq<Exp>, es2: seq<Exp>, env: Env, st: St, m: Machine)
    ensures EvalList(fuel, es1 + es2, env, st, m)
            == match EvalList(fuel, es1, env, st, m)
               case Abort(err, s) => Abort(err, s)
               case Done(vs1, s1) =>
                 match EvalList(fuel, es2, env, s1, m)
                 case Abort(err, s) => Abort(err, s)
                 case Done(vs2, s2) => Done(vs1 + vs2, s2)
    decreases |es1|
  {
    if es1 == [] {
      assert es1 + es2 == es2;
      match EvalList(fuel, es2, env, st, m)
      case Abort(err, s) =>
      case Done(vs2, s2) => assert [] + vs2 == vs2;
    } else {
      assert (es1 + es2)[1..] == es1[1..] + es2;
      match Eval(fuel, es1[0], env, st, m)
      case Abort(err, s) =>
      case Done(v, s1) =>
        ListAppend(fuel, es1[1..], es2, env, s1, m);
        match EvalList(fuel, es1[1..], env, s1, m)
        case Abort(err, s) =>
        case Done(vs1, s2) =>
          match EvalList(fuel, es2, env, s2, m)
          case Abort(err, s) =>
          case Done(vs2, s3) => assert [v] + (vs1 + vs2) == ([v] + vs1) + vs2;
    }
  }

  /** The operator is evaluated first: if it fails, the application fails the
      same way before any operand is evaluated; otherwise the operands start
      from the state the operator left behind, and a failing operand fails the
      application. */
  lemma OperatorFirst(fuel: nat, fn: Exp, args: seq<Exp>, env: Env, st: St, m: Machine)
    requires fuel > 0
    ensures var fv := Eval(fuel - 1, fn, env, st, m);
            var r := Eval(fuel, Apply(fn, args), env, st, m);
            && (fv.Abort? ==> r == Abort(fv.err, fv.st))
            && (fv.Done? && EvalList(fuel - 1, args, env, fv.st, m).Abort? ==>
                  var a := EvalList(fuel - 1, args, env, fv.st, m);
                  r == Abort(a.err, a.st))
  {
  }

  /** Calling a closure: the arity check, then the body in the closure's own
      environment extended with fresh locations for the formals (bound in
      order, each holding its actual). The result is the body's, with
      traceindent restored when the call was traced. */
  lemma ClosureCall(fuel: nat, fn: Exp, args: seq<Exp>, env: Env, st: St, m: Machine)
    requires fuel > 0
    requires Eval(fuel - 1, fn, env, st, m).Done? && Eval(fuel - 1, fn, env, st, m).val.Closure?
    requires EvalList(fuel - 1, args, env, Eval(fuel - 1, fn, env, st, m).st, m).Done?
    ensures var fv := Eval(fuel - 1, fn, env, st, m);
            var lam := fv.val.lambda;
            var a := EvalList(fuel - 1, args, env, fv.st, m);
            var t := TraceEnter(m.tracing, env, a.st);
            var r := Eval(fuel, Apply(fn, args), env, st, m);
            && (|lam.formals| != |a.val| ==>
                  r == Abort(WrongArgCount(ArgcError(|lam.formals|, |a.val|,
                                                     if |lam.formals| == 1 then "argument" else "arguments")), t.st))
            && (|lam.formals| == |a.val| ==>
                  var b := BindAllocList(lam.formals, a.val, fv.val.env, t.st);
                  var rb := Eval(fuel - 1, lam.body, b.env, b.st, m);
                  && AllocatedAsListed(lam.formals, a.val, fv.val.env, t.st, b)
                  && r.Done? == rb.Done?
                  && (r.Done? ==> r.val == rb.val && r.st == TraceExit(t.on, rb.st))
                  && (r.Abort? ==> r == rb))
  {
    var fv := Eval(fuel - 1, fn, env, st, m);
    var a := EvalList(fuel - 1, args, env, fv.st, m);
    var t := TraceEnter(m.tracing, env, a.st);
    var lam := fv.val.lambda;
    var c := CheckArgc(|lam.formals|, |a.val|);
    if c.Some? {
      assert c.value.noun == "argument" || c.value.noun == "arguments";
    }
    BindAllocListShape(lam.formals, a.val, fv.val.env, t.st);
  }

  /** An operator value that is neither a primitive nor a closure is an error,
      raised after the operands are evaluated. */
  lemma NonFunctionFails(fuel: nat, fn: Exp, args: seq<Exp>, env: Env, st: St, m: Machine)
    requires fuel > 0
    requires Eval(fuel - 1, fn, env, st, m).Done?
    requires var f := Eval(fuel - 1, fn, env, st, m).val; !f.Closure? && !f.Primitive?
    requires EvalList(fuel - 1, args, env, Eval(fuel - 1, fn, env, st, m).st, m).Done?
    ensures var fv := Eval(fuel - 1, fn, env, st, m);
            var a := EvalList(fuel - 1, args, env, fv.st, m);
            Eval(fuel, Apply(fn, args), env, st, m)
              == Abort(NotAFunction(fv.val), TraceEnter(m.tracing, env, a.st).st)
  {
  }

  /** A lambda expression becomes a closure over the current environment; the
      body is not evaluated, so the state is unchanged. */
  lemma LambdaCaptures(fuel: nat, lam: Lambda, env: Env, st: St, m: Machine)
    requires fuel > 0
    ensures Eval(fuel, LambdaX(lam), env, st, m) == Done(Closure(lam, env), st)
  {
  }

  /** What letrec's first loop builds: fresh locations st.next, st.next+1, ...
      bound to the names in order, the last name innermost. */
  predicate PreBound(xs: seq<Name>, env: Env, st: St, b: Extended) {
    && |b.env| == |env| + |xs|
    && b.env[|xs|..] == env
    && (forall i | 0 <= i < |xs| :: b.env[|xs| - 1 - i] == Binding(xs[i], st.next + i))
    && b.st.next == st.next + |xs|
    && (forall l: Loc | st.next <= l < st.next + |xs| :: l in b.st.mem)
    && st.mem.Keys <= b.st.mem.Keys
  }

  lemma {:induction false} PreBindShape(xs: seq<Name>, env: Env, st: St, rand: nat -> nat)
    ensures PreBound(xs, env, st, PreBind(xs, env, st, rand))
    decreases |xs|
  {
    if xs != [] {
      var b := PreBindOne(xs[0], env, st, rand);
      PreBindShape(xs[1..], b.env, b.st, rand);
      PreBoundCons(xs, env, st, b, PreBind(xs, env, st, rand));
    }
  }

  /** Binding the first name at the next free location, then the rest as
      PreBound says, is PreBound for all the names. */
  lemma PreBoundCons(xs: seq<Name>, env: Env, st: St, b: Extended, r: Extended)
    requires xs != [] && b.env == [Binding(xs[0], st.next)] + env
    requires b.st.next == st.next + 1 && st.next in b.st.mem && st.mem.Keys <= b.st.mem.Keys
    requires PreBound(xs[1..], b.env, b.st, r)
    ensures PreBound(xs, env, st, r)
  {
    var n := |xs|;
    assert r.env[n..] == b.env[1..];
    forall i | 0 <= i < n
      ensures r.env[n - 1 - i] == Binding(xs[i], st.next + i)
    {
      if i > 0 {
        assert xs[1..][i - 1] == xs[i];
      } else {
        assert r.env[n - 1] == b.env[0];
      }
    }
  }

  /** With distinct names, each name's innermost binding after letrec's first
      loop is its own fresh location. */
  lemma PreBindFind(xs: seq<Name>, env: Env, st: St, rand: nat -> nat, i: int)
    requires Distinct(xs) && 0 <= i < |xs|
    ensures Find(xs[i], PreBind(xs, env, st, rand).env) == Some(st.next + i)
  {
    PreBindShape(xs, env, st, rand);
    PreBoundFind(xs, env, st, PreBind(xs, env, st, rand), i);
  }

  lemma PreBoundFind(xs: seq<Name>, env: Env, st: St, b: Extended, i: int)
    requires PreBound(xs, env, st, b) && Distinct(xs) && 0 <= i < |xs|
    ensures Find(xs[i], b.env) == Some(st.next + i)
  {
    var n := |xs|;
    forall j | 0 <= j < n - 1 - i
      ensures b.env[j].name != xs[i]
    {
      assert b.env[n - 1 - (n - 1 - j)] == Binding(xs[n - 1 - j], st.next + (n - 1 - j));
    }
    FindInnermost(xs[i], b.env, n - 1 - i);
  }

  lemma PreBindFindAll(xs: seq<Name>, env: Env, st: St, rand: nat -> nat)
    requires Distinct(xs)
    ensures forall i | 0 <= i < |xs| :: Find(xs[i], PreBind(xs, env, st, rand).env) == Some(st.next + i)
  {
    forall i | 0 <= i < |xs| ensures Find(xs[i], PreBind(xs, env, st, rand).env) == Some(st.next + i) {
      PreBindFind(xs, env, st, rand, i);
    }
  }

  /** Initializers that are all lambdas evaluate, without touching the state,
      to closures over the environment they are evaluated in. */
  lemma {:induction false} ListOfLambdas(fuel: nat, es: seq<Exp>, env: Env, st: St, m: Machine)
    requires fuel > 0 && forall i | 0 <= i < |es| :: es[i].LambdaX?
    ensures var r := EvalList(fuel, es, env, st, m);
            && r.Done? && r.st == st && |r.val| == |es|
            && forall i | 0 <= i < |es| :: r.val[i] == Closure(es[i].lam, env)
    decreases |es|
  {
    if es != [] {
      ListOfLambdas(fuel, es[1..], env, st, m);
    }
  }

  /** Location l of mem holds v. */
  predicate Holds(mem: map<Loc, Value>, l: Loc, v: Value) {
    l in mem && mem[l] == v
  }

  /** letrec's back-patching loop, when the names sit at the consecutive
      locations base, base+1, ...: each of those locations ends up holding its
      value and no other location changes. */
  lemma BackpatchConsecutive(xs: seq<Name>, vs: seq<Value>, env: Env, mem: map<Loc, Value>, base: Loc)
    requires |xs| == |vs|
    requires forall i | 0 <= i < |xs| :: Find(xs[i], env) == Some(base + i)
    ensures var r := Backpatch(xs, vs, env, mem);
            forall i | 0 <= i < |xs| :: Holds(r, base + i, vs[i])
    ensures var r := Backpatch(xs, vs, env, mem);
            forall l | l in mem && !(base <= l < base + |xs|) :: l in r && r[l] == mem[l]
  {
    forall i | 0 <= i < |xs|
      ensures Holds(Backpatch(xs, vs, env, mem), base + i, vs[i])
    {
      BackpatchFillsAt(xs, vs, env, mem, base, i);
    }
    BackpatchKeepsOthers(xs, vs, env, mem, base);
  }

  /** The names of xs sit at the consecutive locations base, base+1, ... */
  predicate Consecutive(xs: seq<Name>, env: Env, base: Loc) {
    forall i | 0 <= i < |xs| :: Find(xs[i], env) == Some(base + i)
  }

  /** The rest of the list, one location further on, still sits at
      consecutive locations. */
  lemma ConsecutiveTail(xs: seq<Name>, env: Env, base: Loc)
    requires xs != [] && Consecutive(xs, env, base)
    ensures Find(xs[0], env) == Some(base)
    ensures Consecutive(xs[1..], env, base + 1)
  {
    assert Find(xs[0], env) == Some(base + 0);
    forall i | 0 <= i < |xs[1..]|
      ensures Find(xs[1..][i], env) == Some((base + 1) + i)
    {
      assert xs[1..][i] == xs[i + 1];
    }
  }

  /** One step of the back-patching loop: the first name's location gets
      the first value. */
  lemma BackpatchUnfold(xs: seq<Name>, vs: seq<Value>, env: Env, mem: map<Loc, Value>, l: Loc)
    requires xs != [] && vs != [] && Find(xs[0], env) == Some(l)
    ensures Backpatch(xs, vs, env, mem) == Backpatch(xs[1..], vs[1..], env, mem[l := vs[0]])
  {
  }

  lemma {:induction false} BackpatchFillsAt(xs: seq<Name>, vs: seq<Value>, env: Env, mem: map<Loc, Value>, base: Loc, i: nat)
    requires |xs| == |vs| && i < |xs| && Consecutive(xs, env, base)
    ensures Holds(Backpatch(xs, vs, env, mem), base + i, vs[i])
    decreases i
  {
    if i == 0 {
      BackpatchFillsFirst(xs, vs, env, mem, base);
    } else {
      ConsecutiveTail(xs, env, base);
      var mem1 := mem[base := vs[0]];
      BackpatchUnfold(xs, vs, env, mem, base);
      BackpatchFillsAt(xs[1..], vs[1..], env, mem1, base + 1, i - 1);
      assert vs[1..][i - 1] == vs[i] && (base + 1) + (i - 1) == base + i;
    }
  }

  /** The first name's location keeps the first value: the later names sit
      further on. */
  lemma BackpatchFillsFirst(xs: seq<Name>, vs: seq<Value>, env: Env, mem: map<Loc, Value>, base: Loc)
    requires |xs| == |vs| && 0 < |xs| && Consecutive(xs, env, base)
    ensures Holds(Backpatch(xs, vs, env, mem), base, vs[0])
  {
    ConsecutiveTail(xs, env, base);
    var mem1 := mem[base := vs[0]];
    BackpatchUnfold(xs, vs, env, mem, base);
    BackpatchKeepsOthers(xs[1..], vs[1..], env, mem1, base + 1);
    assert base in mem1 && mem1[base] == vs[0] && !(base + 1 <= base);
  }

  lemma {:induction false} BackpatchKeepsOthers(xs: seq<Name>, vs: seq<Value>, env: Env, mem: map<Loc, Value>, base: Loc)
    requires |xs| == |vs| && Consecutive(xs, env, base)
    ensures var r := Backpatch(xs, vs, env, mem);
            forall l | l in mem && !(base <= l < base + |xs|) :: l in r && r[l] == mem[l]
    decreases |xs|
  {
    if xs != [] {
      ConsecutiveTail(xs, env, base);
      var mem1 := mem[base := vs[0]];
      BackpatchKeepsOthers(xs[1..], vs[1..], env, mem1, base + 1);
      BackpatchUnfold(xs, vs, env, mem, base);
      var r := Backpatch(xs, vs, env, mem);
      forall l | l in mem && !(base <= l < base + |xs|)
        ensures l in r && r[l] == mem[l]
      {
        assert l in mem1 && mem1[l] == mem[l];
      }
    }
  }

  /** letrec whose initializers are all lambdas (and as many as the names)
      evaluates its body in the pre-bound environment, over the back-patched
      store. */
  lemma LetrecRunsBody(fuel: nat, xs: seq<Name>, es: seq<Exp>, body: Exp, env: Env, st: St, m: Machine)
    requires fuel > 0 && |xs| == |es|
    requires forall i | 0 <= i < |es| :: es[i].LambdaX?
    ensures var b := PreBind(xs, env, st, m.rand);
            var a := EvalList(fuel, es, b.env, b.st, m);
            && a.Done? && a.st == b.st && |a.val| == |es|
            && (forall i | 0 <= i < |es| :: a.val[i] == Closure(es[i].lam, b.env))
            && EvalLet(fuel, LetRec, xs, es, body, env, st, m)
               == Eval(fuel, body, b.env, b.st.(mem := Backpatch(xs, a.val, b.env, b.st.mem)), m)
  {
    var b := PreBind(xs, env, st, m.rand);
    ListOfLambdas(fuel, es, b.env, b.st, m);
    assert FirstNonLambda(es).None?;
  }

  /** After back-patching the pre-bound locations with the closures, each
      name's location holds its own closure. */
  lemma LetrecPatchedStore(xs: seq<Name>, es: seq<Exp>, vs: seq<Value>, env: Env, st: St, rand: nat -> nat)
    requires Distinct(xs) && |xs| == |es| == |vs|
    requires forall i | 0 <= i < |es| :: es[i].LambdaX?
    requires forall i | 0 <= i < |es| :: vs[i] == Closure(es[i].lam, PreBind(xs, env, st, rand).env)
    ensures var b := PreBind(xs, env, st, rand);
            var bp := Backpatch(xs, vs, b.env, b.st.mem);
            forall i | 0 <= i < |xs| ::
              && Find(xs[i], b.env) == Some(st.next + i)
              && Holds(bp, st.next + i, Closure(es[i].lam, b.env))
  {
    var b := PreBind(xs, env, st, rand);
    PreBindFindAll(xs, env, st, rand);
    BackpatchConsecutive(xs, vs, b.env, b.st.mem, st.next);
  }

  /** letrec with distinct names and lambda initializers runs its body in the
      pre-bound environment, with every name's location back-patched to the
      closure of its own lambda over that same environment: the closures see
      each other. */
  lemma LetrecBackpatches(fuel: nat, xs: seq<Name>, es: seq<Exp>, body: Exp, env: Env, st: St, m: Machine)
    requires fuel > 0 && Distinct(xs) && |xs| == |es|
    requires forall i | 0 <= i < |es| :: es[i].LambdaX?
    ensures var b := PreBind(xs, env, st, m.rand);
            exists s2: St ::
              && EvalLet(fuel, LetRec, xs, es, body, env, st, m) == Eval(fuel, body, b.env, s2, m)
              && forall i | 0 <= i < |xs| ::
                   && Find(xs[i], b.env) == Some(st.next + i)
                   && Holds(s2.mem, st.next + i, Closure(es[i].lam, b.env))
  {
    var b := PreBind(xs, env, st, m.rand);
    LetrecRunsBody(fuel, xs, es, body, env, st, m);
    var vs := EvalList(fuel, es, b.env, b.st, m).val;
    LetrecPatchedStore(xs, es, vs, env, st, m.rand);
    var s2 := b.st.(mem := Backpatch(xs, vs, b.env, b.st.mem));
    assert EvalLet(fuel, LetRec, xs, es, body, env, st, m) == Eval(fuel, body, b.env, s2, m);
  }

  /** letrec rejects the first initializer that is not a lambda, after the
      names are bound to unspecified values and before any initializer
      runs. */
  lemma LetrecRejectsNonLambda(fuel: nat, xs: seq<Name>, es: seq<Exp>, body: Exp,
                               env: Env, st: St, m: Machine, i: nat)
    requires i < |es| && !es[i].LambdaX? && forall j | 0 <= j < i :: es[j].LambdaX?
    ensures EvalLet(fuel, LetRec, xs, es, body, env, st, m)
              == Abort(LetrecNonLambda(es[i]), PreBind(xs, env, st, m.rand).st)
  {
    FirstNonLambdaAt(es, i);
  }

  /** The first non-lambda is the one at the least such position. */
  lemma FirstNonLambdaAt(es: seq<Exp>, i: nat)
    requires i < |es| && !es[i].LambdaX? && forall j | 0 <= j < i :: es[j].LambdaX?
    ensures FirstNonLambda(es) == Some(es[i])
  {
    var r := FirstNonLambda(es);
    var k :| 0 <= k < |es| && es[k] == r.value && forall j | 0 <= j < k :: es[j].LambdaX?;
  }

  /** let evaluates every initializer in the outer environment, and only
      then binds the names, all at once, to fresh locations holding the
      values; the body runs in that extension. An initializer's error is the
      let's error, and unequal lists trip bindalloclist's assertion. */
  lemma LetBindsAfterInitializers(fuel: nat, xs: seq<Name>, es: seq<Exp>, body: Exp,
                                  env: Env, st: St, m: Machine)
    ensures var a := EvalList(fuel, es, env, st, m);
            var r := EvalLet(fuel, Let, xs, es, body, env, st, m);
            && (a.Abort? ==> r == Abort(a.err, a.st))
            && (a.Done? ==>
                  var b := BindAllocList(xs, a.val, env, a.st);
                  && AllocatedAsListed(xs, a.val, env, a.st, b)
                  && (|xs| != |a.val| ==> r == Abort(SchemeEval.AssertionFailure, b.st))
                  && (|xs| == |a.val| ==> r == Eval(fuel, body, b.env, b.st, m)))
  {
    var a := EvalList(fuel, es, env, st, m);
    if a.Done? {
      BindAllocListShape(xs, a.val, env, a.st);
    }
  }

  /** The first i names of a let* bound in order, the last innermost, in
      front of the environment the let* started from. */
  predicate BoundInOrder(xs: seq<Name>, env: Env, env1: Env) {
    && |env1| == |env| + |xs|
    && env1[|xs|..] == env
    && forall j | 0 <= j < |xs| :: env1[|xs| - 1 - j].name == xs[j]
  }

  /** let* binds one name at a time: running its first i bindings either
      fails, and then the whole let* fails the same way, or yields the
      environment extended by the first i names, in which the rest of the
      bindings, starting with the i-th initializer, then run. */
  lemma {:induction false} LetStarSplit(fuel: nat, xs: seq<Name>, es: seq<Exp>,
                                        env: Env, st: St, m: Machine, i: nat)
    requires i <= |xs| && i <= |es|
    ensures var p := EvalLetStar(fuel, xs[..i], es[..i], env, st, m);
            && (p.Abort? ==> EvalLetStar(fuel, xs, es, env, st, m) == p)
            && (p.Done? ==>
                  && BoundInOrder(xs[..i], env, p.val)
                  && EvalLetStar(fuel, xs, es, env, st, m) == EvalLetStar(fuel, xs[i..], es[i..], p.val, p.st, m))
    decreases i
  {
    if i == 0 {
      assert xs[..0] == [] && es[..0] == [] && xs[0..] == xs && es[0..] == es;
    } else {
      var e := Eval(fuel, es[0], env, st, m);
      assert xs[..i][0] == xs[0] && es[..i][0] == es[0];
      if e.Done? {
        var b := BindAlloc(xs[0], e.val, env, e.st);
        LetStarSplit(fuel, xs[1..], es[1..], b.env, b.st, m, i - 1);
        LetStarStep(fuel, xs, es, env, st, m, i);
        var p := EvalLetStar(fuel, xs[..i], es[..i], env, st, m);
        SliceShift(xs, i);
        SliceShift(es, i);
        if p.Done? {
          BoundInOrderCons(xs[..i], env, b.env, p.val);
        }
      }
    }
  }

  /** One binding of let* taken off the front, for the whole list and for
      its first i names alike. */
  lemma LetStarStep(fuel: nat, xs: seq<Name>, es: seq<Exp>, env: Env, st: St, m: Machine, i: nat)
    requires 0 < i <= |xs| && i <= |es|
    requires Eval(fuel, es[0], env, st, m).Done?
    ensures var e := Eval(fuel, es[0], env, st, m);
            var b := BindAlloc(xs[0], e.val, env, e.st);
            && EvalLetStar(fuel, xs, es, env, st, m) == EvalLetStar(fuel, xs[1..], es[1..], b.env, b.st, m)
            && EvalLetStar(fuel, xs[..i], es[..i], env, st, m)
                 == EvalLetStar(fuel, xs[1..][..i - 1], es[1..][..i - 1], b.env, b.st, m)
  {
    assert xs[..i][0] == xs[0] && es[..i][0] == es[0];
    assert xs[..i][1..] == xs[1..][..i - 1] && es[..i][1..] == es[1..][..i - 1];
  }

  /** Dropping the head, then i - 1 more elements, drops i; the first i
      elements without their head are the tail's first i - 1. */
  lemma SliceShift<T>(s: seq<T>, i: nat)
    requires 0 < i <= |s|
    ensures s[1..][i - 1..] == s[i..] && s[..i][1..] == s[1..][..i - 1]
  {
  }

  /** Binding the first name in front of env, then the others in order in
      front of that, binds them all in order in front of env. */
  lemma BoundInOrderCons(xs: seq<Name>, env: Env, env0: Env, env1: Env)
    requires xs != [] && |env0| >= 1 && env0[1..] == env && env0[0].name == xs[0]
    requires BoundInOrder(xs[1..], env0, env1)
    ensures BoundInOrder(xs, env, env1)
  {
    var n := |xs|;
    assert env1[n..] == env0[1..];
    forall j | 0 <= j < n
      ensures env1[n - 1 - j].name == xs[j]
    {
      if j > 0 {
        assert xs[1..][j - 1] == xs[j];
      } else {
        assert env1[n - 1] == env0[0];
      }
    }
  }

  /** The i-th initializer of a let* runs in the environment extended by the
      first i names, in the state the first i initializers left; its error
      is the let*'s error, and its value is bound to the i-th name before the
      remaining bindings run. */
  lemma LetStarInitializerSeesEarlier(fuel: nat, xs: seq<Name>, es: seq<Exp>,
                                      env: Env, st: St, m: Machine, i: nat)
    requires i < |xs| && i < |es|
    ensures var p := EvalLetStar(fuel, xs[..i], es[..i], env, st, m);
            var whole := EvalLetStar(fuel, xs, es, env, st, m);
            && (p.Abort? ==> whole == p)
            && (p.Done? ==>
                  && BoundInOrder(xs[..i], env, p.val)
                  && var e := Eval(fuel, es[i], p.val, p.st, m);
                     && (e.Abort? ==> whole == Abort(e.err, e.st))
                     && (e.Done? ==>
                           var b := BindAlloc(xs[i], e.val, p.val, e.st);
                           whole == EvalLetStar(fuel, xs[i + 1..], es[i + 1..], b.env, b.st, m)))
  {
    LetStarSplit(fuel, xs, es, env, st, m, i);
    assert xs[i..][0] == xs[i] && es[i..][0] == es[i];
    assert xs[i..][1..] == xs[i + 1..] && es[i..][1..] == es[i + 1..];
  }

  /** The body of a let* runs in the environment extended by all its names,
      the last innermost, once every initializer has run; with unequal lists
      the assertion fails after the shorter list runs out. */
  lemma LetStarBodySeesAll(fuel: nat, xs: seq<Name>, es: seq<Exp>, body: Exp,
                           env: Env, st: St, m: Machine)
    ensures var n := MinLen(xs, es);
            var p := EvalLetStar(fuel, xs[..n], es[..n], env, st, m);
            var r := EvalLet(fuel, LetStar, xs, es, body, env, st, m);
            && (p.Abort? ==> r == Abort(p.err, p.st))
            && (p.Done? ==>
                  && BoundInOrder(xs[..n], env, p.val)
                  && (|xs| != |es| ==> r == Abort(SchemeEval.AssertionFailure, p.st))
                  && (|xs| == |es| ==> r == Eval(fuel, body, p.val, p.st, m)))
  {
    var n := MinLen(xs, es);
    LetStarSplit(fuel, xs, es, env, st, m, n);
    assert xs[n..] == [] || es[n..] == [];
  }
}
