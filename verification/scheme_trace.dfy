/** Tracing is transparent (uscheme-trace/eval.c, the APPLY case).

    Compare the evaluator with its trace bookkeeping (which decrements the
    number stored at &trace's location and moves traceindent) against the same
    evaluator with that block removed. As long as the program never names
    &trace itself, both runs produce the same outcome: the same value or the
    same error, and stores that differ at most at &trace's location L.

    "Never names &trace" is made precise by Clean*: no expression reads, sets
    or binds &trace, and in every environment reachable from the program the
    name &trace is bound to L and to nothing else. The primitives must keep
    this property (a primitive given clean values returns a clean value). */
module SchemeTrace {
  import opened Results
  import opened SchemeValue
  import opened SchemeEval

  function On(m: Machine): Machine {
    m.(tracing := true)
  }

  function Off(m: Machine): Machine {
    m.(tracing := false)
  }

  /** In env, &trace is bound to L, and L to nothing but &trace. */
  predicate CleanEnv(env: Env, L: Loc) {
    forall i | 0 <= i < |env| :: (env[i].name == TraceName) == (env[i].loc == L)
  }

  predicate CleanValue(v: Value, L: Loc)
    decreases v
  {
    match v
    case Pair(a, d) => CleanValue(a, L) && CleanValue(d, L)
    case Closure(lam, env) => CleanLambda(lam, L) && CleanEnv(env, L)
    case _ => true
  }

  predicate CleanLambda(lam: Lambda, L: Loc)
    decreases lam
  {
    TraceName !in lam.formals && CleanExp(lam.body, L)
  }

  predicate CleanExp(e: Exp, L: Loc)
    decreases e
  {
    match e
    case Literal(v) => CleanValue(v, L)
    case Var(x) => x != TraceName
    case Set(x, rhs) => x != TraceName && CleanExp(rhs, L)
    case If(c, t, f) => CleanExp(c, L) && CleanExp(t, L) && CleanExp(f, L)
    case While(c, b) => CleanExp(c, L) && CleanExp(b, L)
    case Begin(es) => forall i | 0 <= i < |es| :: CleanExp(es[i], L)
    case Apply(fn, args) => CleanExp(fn, L) && forall i | 0 <= i < |args| :: CleanExp(args[i], L)
    case LetX(_, xs, es, body) =>
      && TraceName !in xs
      && (forall i | 0 <= i < |es| :: CleanExp(es[i], L))
      && CleanExp(body, L)
    case LambdaX(lam) => CleanLambda(lam, L)
  }

  predicate CleanExps(es: seq<Exp>, L: Loc) {
    forall i | 0 <= i < |es| :: CleanExp(es[i], L)
  }

  predicate CleanValues(vs: seq<Value>, L: Loc) {
    forall i | 0 <= i < |vs| :: CleanValue(vs[i], L)
  }

  /** Every location but L holds a clean value. */
  predicate CleanStore(mem: map<Loc, Value>, L: Loc) {
    forall l | l in mem && l != L :: CleanValue(mem[l], L)
  }

  ghost predicate PrimsClean(m: Machine, L: Loc) {
    forall p, vs | CleanValues(vs, L) && m.prim(p, vs).Success? :: CleanValue(m.prim(p, vs).value, L)
  }

  /** Two stores that agree everywhere except possibly at L. */
  predicate RelatedMem(mem1: map<Loc, Value>, mem2: map<Loc, Value>, L: Loc) {
    && mem1.Keys == mem2.Keys
    && (forall l | l in mem1 && l != L :: mem1[l] == mem2[l])
    && CleanStore(mem1, L) && CleanStore(mem2, L)
  }

  /** Two states of the traced and the untraced run: related stores, the same
      allocation point (past L) and the same rand() position. traceindent is
      free: only the traced run moves it. */
  predicate Related(s1: St, s2: St, L: Loc) {
    && RelatedMem(s1.mem, s2.mem, L)
    && s1.next == s2.next
    && L < s1.next
    && s1.draws == s2.draws
  }

  /** The outcomes of the traced and the untraced run agree. */
  predicate Agree<T(==)>(r1: Outcome<T>, r2: Outcome<T>, L: Loc) {
    && r1.Done? == r2.Done?
    && Related(r1.st, r2.st, L)
    && (r1.Done? ==> r1.val == r2.val)
    && (r1.Abort? ==> r1.err == r2.err)
  }

  lemma FindInCleanEnv(x: Name, env: Env, L: Loc)
    requires CleanEnv(env, L)
    ensures Find(x, env).Some? && x == TraceName ==> Find(x, env).value == L
    ensures Find(x, env).Some? && x != TraceName ==> Find(x, env).value != L
  {
    if Find(x, env).Some? {
      var i :| 0 <= i < |env| && env[i] == Binding(x, Find(x, env).value);
      assert (env[i].name == TraceName) == (env[i].loc == L);
    }
  }

  lemma BindAllocRelated(x: Name, v: Value, env: Env, s1: St, s2: St, L: Loc)
    requires Related(s1, s2, L) && CleanEnv(env, L) && x != TraceName && CleanValue(v, L)
    ensures var b1 := BindAlloc(x, v, env, s1);
            var b2 := BindAlloc(x, v, env, s2);
            b1.env == b2.env && CleanEnv(b1.env, L) && Related(b1.st, b2.st, L)
            && b1.st.indent == s1.indent && b2.st.indent == s2.indent
  {
    var b1 := BindAlloc(x, v, env, s1);
    assert forall i | 1 <= i < |b1.env| :: b1.env[i] == env[i - 1];
  }

  lemma {:induction false} BindAllocListRelated(xs: seq<Name>, vs: seq<Value>, env: Env, s1: St, s2: St, L: Loc)
    requires Related(s1, s2, L) && CleanEnv(env, L) && TraceName !in xs && CleanValues(vs, L)
    ensures var b1 := BindAllocList(xs, vs, env, s1);
            var b2 := BindAllocList(xs, vs, env, s2);
            b1.env == b2.env && CleanEnv(b1.env, L) && Related(b1.st, b2.st, L)
            && b1.st.indent == s1.indent && b2.st.indent == s2.indent
    decreases |xs|
  {
    if xs != [] && vs != [] {
      BindAllocRelated(xs[0], vs[0], env, s1, s2, L);
      var b1 := BindAlloc(xs[0], vs[0], env, s1);
      var b2 := BindAlloc(xs[0], vs[0], env, s2);
      BindAllocListRelated(xs[1..], vs[1..], b1.env, b1.st, b2.st, L);
    }
  }

  lemma {:induction false} PreBindRelated(xs: seq<Name>, env: Env, s1: St, s2: St, rand: nat -> nat, L: Loc)
    requires Related(s1, s2, L) && CleanEnv(env, L) && TraceName !in xs
    ensures var b1 := PreBind(xs, env, s1, rand);
            var b2 := PreBind(xs, env, s2, rand);
            b1.env == b2.env && CleanEnv(b1.env, L) && Related(b1.st, b2.st, L)
    decreases |xs|
  {
    if xs != [] {
      PreBindOneRelated(xs[0], env, s1, s2, rand, L);
      var b1 := PreBindOne(xs[0], env, s1, rand);
      var b2 := PreBindOne(xs[0], env, s2, rand);
      PreBindRelated(xs[1..], b1.env, b1.st, b2.st, rand, L);
    }
  }

  lemma PreBindOneRelated(x: Name, env: Env, s1: St, s2: St, rand: nat -> nat, L: Loc)
    requires Related(s1, s2, L) && CleanEnv(env, L) && x != TraceName
    ensures var b1 := PreBindOne(x, env, s1, rand);
            var b2 := PreBindOne(x, env, s2, rand);
            b1.env == b2.env && CleanEnv(b1.env, L) && Related(b1.st, b2.st, L)
  {
    var first := rand(s1.draws);
    var v := Unspecified(first, rand(s1.draws + 1));
    var t1 := s1.(draws := s1.draws + UnspecifiedDraws(first));
    var t2 := s2.(draws := s2.draws + UnspecifiedDraws(first));
    BindAllocRelated(x, v, env, t1, t2, L);
  }

  lemma {:induction false} BackpatchRelated(xs: seq<Name>, vs: seq<Value>, env: Env,
                                            mem1: map<Loc, Value>, mem2: map<Loc, Value>, L: Loc)
    requires RelatedMem(mem1, mem2, L) && CleanEnv(env, L) && TraceName !in xs && CleanValues(vs, L)
    ensures RelatedMem(Backpatch(xs, vs, env, mem1), Backpatch(xs, vs, env, mem2), L)
    decreases |xs|
  {
    if xs != [] && vs != [] {
      FindInCleanEnv(xs[0], env, L);
      var n1 := match Find(xs[0], env) case Some(l) => mem1[l := vs[0]] case None => mem1;
      var n2 := match Find(xs[0], env) case Some(l) => mem2[l := vs[0]] case None => mem2;
      BackpatchRelated(xs[1..], vs[1..], env, n1, n2, L);
    }
  }

  lemma TraceEnterRelated(env: Env, s1: St, s2: St, L: Loc)
    requires Related(s1, s2, L) && CleanEnv(env, L)
    ensures Related(TraceEnter(true, env, s1).st, s2, L)
    ensures TraceEnter(false, env, s2) == TraceStep(false, s2)
  {
    FindInCleanEnv(TraceName, env, L);
  }

  /** The traced and the untraced evaluator agree on every clean program. */
  lemma {:induction false} EvalAgrees(fuel: nat, e: Exp, env: Env, s1: St, s2: St, m: Machine, L: Loc)
    requires CleanExp(e, L) && CleanEnv(env, L) && Related(s1, s2, L) && PrimsClean(m, L)
    ensures var r1 := Eval(fuel, e, env, s1, On(m));
            var r2 := Eval(fuel, e, env, s2, Off(m));
            Agree(r1, r2, L) && (r1.Done? ==> CleanValue(r1.val, L))
    decreases fuel, 0, 0
  {
    if fuel > 0 {
      var f := fuel - 1;
      match e
      case Literal(v) =>
      case Var(x) =>
        FindInCleanEnv(x, env, L);
      case Set(x, rhs) =>
        SetAgrees(f, x, rhs, env, s1, s2, m, L);
      case If(c, t, el) =>
        IfAgrees(f, c, t, el, env, s1, s2, m, L);
      case While(c, body) =>
        WhileAgrees(f, c, body, env, s1, s2, m, L);
      case Begin(es) =>
        BeginAgrees(f, es, env, s1, s2, m, FalseV, L);
      case Apply(fn, args) =>
        ApplyAgrees(f, fn, args, env, s1, s2, m, L);
      case LetX(kind, xs, es, body) =>
        LetAgrees(f, kind, xs, es, body, env, s1, s2, m, L);
      case LambdaX(lam) =>
    }
  }

  lemma {:induction false} SetAgrees(f: nat, x: Name, rhs: Exp, env: Env, s1: St, s2: St, m: Machine, L: Loc)
    requires CleanExp(Set(x, rhs), L) && CleanEnv(env, L) && Related(s1, s2, L) && PrimsClean(m, L)
    ensures var r1 := Eval(f + 1, Set(x, rhs), env, s1, On(m));
            var r2 := Eval(f + 1, Set(x, rhs), env, s2, Off(m));
            Agree(r1, r2, L) && (r1.Done? ==> CleanValue(r1.val, L))
    decreases f, 2, 0
  {
    FindInCleanEnv(x, env, L);
    if Find(x, env).Some? {
      EvalAgrees(f, rhs, env, s1, s2, m, L);
    }
  }

  lemma {:induction false} IfAgrees(f: nat, c: Exp, t: Exp, el: Exp, env: Env, s1: St, s2: St, m: Machine, L: Loc)
    requires CleanExp(If(c, t, el), L) && CleanEnv(env, L) && Related(s1, s2, L) && PrimsClean(m, L)
    ensures var r1 := Eval(f + 1, If(c, t, el), env, s1, On(m));
            var r2 := Eval(f + 1, If(c, t, el), env, s2, Off(m));
            Agree(r1, r2, L) && (r1.Done? ==> CleanValue(r1.val, L))
    decreases f, 2, 0
  {
    EvalAgrees(f, c, env, s1, s2, m, L);
    var c1 := Eval(f, c, env, s1, On(m));
    var c2 := Eval(f, c, env, s2, Off(m));
    if c1.Done? {
      EvalAgrees(f, t, env, c1.st, c2.st, m, L);
      EvalAgrees(f, el, env, c1.st, c2.st, m, L);
    }
  }

  lemma {:induction false} WhileAgrees(fuel: nat, c: Exp, body: Exp, env: Env, s1: St, s2: St, m: Machine, L: Loc)
    requires CleanExp(c, L) && CleanExp(body, L) && CleanEnv(env, L) && Related(s1, s2, L) && PrimsClean(m, L)
    ensures var r1 := EvalWhile(fuel, c, body, env, s1, On(m));
            var r2 := EvalWhile(fuel, c, body, env, s2, Off(m));
            Agree(r1, r2, L) && (r1.Done? ==> CleanValue(r1.val, L))
    decreases fuel, 2, 0
  {
    if fuel > 0 {
      EvalAgrees(fuel, c, env, s1, s2, m, L);
      var c1 := Eval(fuel, c, env, s1, On(m));
      var c2 := Eval(fuel, c, env, s2, Off(m));
      if c1.Done? && IsTrue(c1.val) {
        EvalAgrees(fuel, body, env, c1.st, c2.st, m, L);
        var b1 := Eval(fuel, body, env, c1.st, On(m));
        var b2 := Eval(fuel, body, env, c2.st, Off(m));
        if b1.Done? {
          WhileAgrees(fuel - 1, c, body, env, b1.st, b2.st, m, L);
        }
      }
    }
  }

  lemma {:induction false} BeginAgrees(fuel: nat, es: seq<Exp>, env: Env, s1: St, s2: St, m: Machine, last: Value, L: Loc)
    requires CleanExps(es, L) && CleanValue(last, L) && CleanEnv(env, L) && Related(s1, s2, L) && PrimsClean(m, L)
    ensures var r1 := EvalBegin(fuel, es, env, s1, On(m), last);
            var r2 := EvalBegin(fuel, es, env, s2, Off(m), last);
            Agree(r1, r2, L) && (r1.Done? ==> CleanValue(r1.val, L))
    decreases fuel, 1, |es|
  {
    if es != [] {
      EvalAgrees(fuel, es[0], env, s1, s2, m, L);
      var h1 := Eval(fuel, es[0], env, s1, On(m));
      var h2 := Eval(fuel, es[0], env, s2, Off(m));
      if h1.Done? {
        BeginAgrees(fuel, es[1..], env, h1.st, h2.st, m, h1.val, L);
      }
    }
  }

  lemma {:induction false} ListAgrees(fuel: nat, es: seq<Exp>, env: Env, s1: St, s2: St, m: Machine, L: Loc)
    requires CleanExps(es, L) && CleanEnv(env, L) && Related(s1, s2, L) && PrimsClean(m, L)
    ensures var r1 := EvalList(fuel, es, env, s1, On(m));
            var r2 := EvalList(fuel, es, env, s2, Off(m));
            Agree(r1, r2, L) && (r1.Done? ==> CleanValues(r1.val, L))
    decreases fuel, 1, |es|
  {
    if es != [] {
      EvalAgrees(fuel, es[0], env, s1, s2, m, L);
      var h1 := Eval(fuel, es[0], env, s1, On(m));
      var h2 := Eval(fuel, es[0], env, s2, Off(m));
      if h1.Done? {
        ListAgrees(fuel, es[1..], env, h1.st, h2.st, m, L);
      }
    }
  }

  lemma {:induction false} LetStarAgrees(fuel: nat, xs: seq<Name>, es: seq<Exp>, env: Env, s1: St, s2: St, m: Machine, L: Loc)
    requires TraceName !in xs && CleanExps(es, L) && CleanEnv(env, L) && Related(s1, s2, L) && PrimsClean(m, L)
    ensures var r1 := EvalLetStar(fuel, xs, es, env, s1, On(m));
            var r2 := EvalLetStar(fuel, xs, es, env, s2, Off(m));
            Agree(r1, r2, L) && (r1.Done? ==> CleanEnv(r1.val, L))
    decreases fuel, 1, |xs|
  {
    if xs != [] && es != [] {
      EvalAgrees(fuel, es[0], env, s1, s2, m, L);
      var h1 := Eval(fuel, es[0], env, s1, On(m));
      var h2 := Eval(fuel, es[0], env, s2, Off(m));
      if h1.Done? {
        BindAllocRelated(xs[0], h1.val, env, h1.st, h2.st, L);
        var b1 := BindAlloc(xs[0], h1.val, env, h1.st);
        var b2 := BindAlloc(xs[0], h1.val, env, h2.st);
        LetStarAgrees(fuel, xs[1..], es[1..], b1.env, b1.st, b2.st, m, L);
      }
    }
  }

  lemma {:induction false} ApplyAgrees(fuel: nat, fn: Exp, args: seq<Exp>, env: Env, s1: St, s2: St, m: Machine, L: Loc)
    requires CleanExp(fn, L) && CleanExps(args, L) && CleanEnv(env, L) && Related(s1, s2, L) && PrimsClean(m, L)
    ensures var r1 := EvalApply(fuel, fn, args, env, s1, On(m));
            var r2 := EvalApply(fuel, fn, args, env, s2, Off(m));
            Agree(r1, r2, L) && (r1.Done? ==> CleanValue(r1.val, L))
    decreases fuel, 2, 0
  {
    EvalAgrees(fuel, fn, env, s1, s2, m, L);
    var f1 := Eval(fuel, fn, env, s1, On(m));
    var f2 := Eval(fuel, fn, env, s2, Off(m));
    if f1.Done? {
      ListAgrees(fuel, args, env, f1.st, f2.st, m, L);
      var a1 := EvalList(fuel, args, env, f1.st, On(m));
      if a1.Done? {
        CalleeAgrees(fuel, fn, args, env, s1, s2, m, L);
      }
    }
  }

  /** Once the operator and the operands agree, so does the call. */
  lemma {:induction false} CalleeAgrees(fuel: nat, fn: Exp, args: seq<Exp>, env: Env, s1: St, s2: St, m: Machine, L: Loc)
    requires CleanEnv(env, L) && PrimsClean(m, L)
    requires var f1 := Eval(fuel, fn, env, s1, On(m));
             var f2 := Eval(fuel, fn, env, s2, Off(m));
             && Agree(f1, f2, L) && f1.Done? && CleanValue(f1.val, L)
             && var a1 := EvalList(fuel, args, env, f1.st, On(m));
                var a2 := EvalList(fuel, args, env, f2.st, Off(m));
                Agree(a1, a2, L) && a1.Done? && CleanValues(a1.val, L)
    ensures var r1 := EvalApply(fuel, fn, args, env, s1, On(m));
            var r2 := EvalApply(fuel, fn, args, env, s2, Off(m));
            Agree(r1, r2, L) && (r1.Done? ==> CleanValue(r1.val, L))
    decreases fuel, 1, 1
  {
    var f1 := Eval(fuel, fn, env, s1, On(m));
    var f2 := Eval(fuel, fn, env, s2, Off(m));
    var a1 := EvalList(fuel, args, env, f1.st, On(m));
    var a2 := EvalList(fuel, args, env, f2.st, Off(m));
    TraceEnterRelated(env, a1.st, a2.st, L);
    var t1 := TraceEnter(true, env, a1.st);
    var t2 := TraceEnter(false, env, a2.st);
    if f1.val.Closure? {
      CallAgrees(fuel, f1.val.lambda, f1.val.env, a1.val, t1.st, t2.st, m, L);
    }
  }

  /** A closure's body, run on clean arguments from related states. */
  lemma {:induction false} CallAgrees(fuel: nat, lam: Lambda, cenv: Env, vs: seq<Value>, s1: St, s2: St, m: Machine, L: Loc)
    requires CleanValue(Closure(lam, cenv), L) && CleanValues(vs, L) && Related(s1, s2, L) && PrimsClean(m, L)
    ensures |lam.formals| == |vs| ==>
              var b1 := BindAllocList(lam.formals, vs, cenv, s1);
              var b2 := BindAllocList(lam.formals, vs, cenv, s2);
              var r1 := Eval(fuel, lam.body, b1.env, b1.st, On(m));
              var r2 := Eval(fuel, lam.body, b2.env, b2.st, Off(m));
              Agree(r1, r2, L) && (r1.Done? ==> CleanValue(r1.val, L))
    decreases fuel, 1, 0
  {
    if |lam.formals| == |vs| {
      BindAllocListRelated(lam.formals, vs, cenv, s1, s2, L);
      var b1 := BindAllocList(lam.formals, vs, cenv, s1);
      var b2 := BindAllocList(lam.formals, vs, cenv, s2);
      EvalAgrees(fuel, lam.body, b1.env, b1.st, b2.st, m, L);
    }
  }

  lemma {:induction false} LetAgrees(fuel: nat, kind: LetKind, xs: seq<Name>, es: seq<Exp>, body: Exp,
                                     env: Env, s1: St, s2: St, m: Machine, L: Loc)
    requires TraceName !in xs && CleanExps(es, L) && CleanExp(body, L)
    requires CleanEnv(env, L) && Related(s1, s2, L) && PrimsClean(m, L)
    ensures var r1 := EvalLet(fuel, kind, xs, es, body, env, s1, On(m));
            var r2 := EvalLet(fuel, kind, xs, es, body, env, s2, Off(m));
            Agree(r1, r2, L) && (r1.Done? ==> CleanValue(r1.val, L))
    decreases fuel, 3, 0
  {
    match kind
    case Let => PlainLetAgrees(fuel, xs, es, body, env, s1, s2, m, L);
    case LetStar => LetStarBodyAgrees(fuel, xs, es, body, env, s1, s2, m, L);
    case LetRec => LetRecAgrees(fuel, xs, es, body, env, s1, s2, m, L);
  }

  lemma {:induction false} PlainLetAgrees(fuel: nat, xs: seq<Name>, es: seq<Exp>, body: Exp,
                                          env: Env, s1: St, s2: St, m: Machine, L: Loc)
    requires TraceName !in xs && CleanExps(es, L) && CleanExp(body, L)
    requires CleanEnv(env, L) && Related(s1, s2, L) && PrimsClean(m, L)
    ensures var r1 := EvalLet(fuel, Let, xs, es, body, env, s1, On(m));
            var r2 := EvalLet(fuel, Let, xs, es, body, env, s2, Off(m));
            Agree(r1, r2, L) && (r1.Done? ==> CleanValue(r1.val, L))
    decreases fuel, 2, 0
  {
    ListAgrees(fuel, es, env, s1, s2, m, L);
    var a1 := EvalList(fuel, es, env, s1, On(m));
    var a2 := EvalList(fuel, es, env, s2, Off(m));
    if a1.Done? {
      BindAllocListRelated(xs, a1.val, env, a1.st, a2.st, L);
      var b1 := BindAllocList(xs, a1.val, env, a1.st);
      var b2 := BindAllocList(xs, a1.val, env, a2.st);
      EvalAgrees(fuel, body, b1.env, b1.st, b2.st, m, L);
    }
  }

  lemma {:induction false} LetStarBodyAgrees(fuel: nat, xs: seq<Name>, es: seq<Exp>, body: Exp,
                                             env: Env, s1: St, s2: St, m: Machine, L: Loc)
    requires TraceName !in xs && CleanExps(es, L) && CleanExp(body, L)
    requires CleanEnv(env, L) && Related(s1, s2, L) && PrimsClean(m, L)
    ensures var r1 := EvalLet(fuel, LetStar, xs, es, body, env, s1, On(m));
            var r2 := EvalLet(fuel, LetStar, xs, es, body, env, s2, Off(m));
            Agree(r1, r2, L) && (r1.Done? ==> CleanValue(r1.val, L))
    decreases fuel, 2, 0
  {
    LetStarAgrees(fuel, xs, es, env, s1, s2, m, L);
    var a1 := EvalLetStar(fuel, xs, es, env, s1, On(m));
    var a2 := EvalLetStar(fuel, xs, es, env, s2, Off(m));
    if a1.Done? {
      EvalAgrees(fuel, body, a1.val, a1.st, a2.st, m, L);
    }
  }

  lemma {:induction false} LetRecAgrees(fuel: nat, xs: seq<Name>, es: seq<Exp>, body: Exp,
                                        env: Env, s1: St, s2: St, m: Machine, L: Loc)
    requires TraceName !in xs && CleanExps(es, L) && CleanExp(body, L)
    requires CleanEnv(env, L) && Related(s1, s2, L) && PrimsClean(m, L)
    ensures var r1 := EvalLet(fuel, LetRec, xs, es, body, env, s1, On(m));
            var r2 := EvalLet(fuel, LetRec, xs, es, body, env, s2, Off(m));
            Agree(r1, r2, L) && (r1.Done? ==> CleanValue(r1.val, L))
    decreases fuel, 2, 0
  {
    PreBindRelated(xs, env, s1, s2, m.rand, L);
    var b1 := PreBind(xs, env, s1, m.rand);
    var b2 := PreBind(xs, env, s2, m.rand);
    if FirstNonLambda(es).None? {
      ListAgrees(fuel, es, b1.env, b1.st, b2.st, m, L);
      var a1 := EvalList(fuel, es, b1.env, b1.st, On(m));
      var a2 := EvalList(fuel, es, b1.env, b2.st, Off(m));
      if a1.Done? {
        BackpatchRelated(xs, a1.val, b1.env, a1.st.mem, a2.st.mem, L);
        var p1 := a1.st.(mem := Backpatch(xs, a1.val, b1.env, a1.st.mem));
        var p2 := a2.st.(mem := Backpatch(xs, a1.val, b1.env, a2.st.mem));
        EvalAgrees(fuel, body, b1.env, p1, p2, m, L);
      }
    }
  }
}
