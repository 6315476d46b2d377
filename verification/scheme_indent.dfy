/** Trace indentation is balanced (uscheme-trace/eval.c, the APPLY case):
    every application that returns normally leaves traceindent where it found
    it, because the +2 on entry is undone by the -2 on exit, and everything
    evaluated in between is balanced too. */
module SchemeIndent {
  import opened SchemeValue
  import opened SchemeEval

  lemma {:induction false} PreBindKeepsIndent(xs: seq<Name>, env: Env, st: St, rand: nat -> nat)
    ensures PreBind(xs, env, st, rand).st.indent == st.indent
    decreases |xs|
  {
    if xs != [] {
      var b := PreBindOne(xs[0], env, st, rand);
      PreBindKeepsIndent(xs[1..], b.env, b.st, rand);
    }
  }

  lemma {:induction false} EvalBalanced(fuel: nat, e: Exp, env: Env, st: St, m: Machine)
    ensures var r := Eval(fuel, e, env, st, m); r.Done? ==> r.st.indent == st.indent
    decreases fuel, 0, 0
  {
    if fuel > 0 {
      var f := fuel - 1;
      match e
      case Literal(v) =>
      case Var(x) =>
      case Set(x, rhs) =>
        EvalBalanced(f, rhs, env, st, m);
      case If(c, t, el) =>
        EvalBalanced(f, c, env, st, m);
        var c1 := Eval(f, c, env, st, m);
        if c1.Done? {
          EvalBalanced(f, t, env, c1.st, m);
          EvalBalanced(f, el, env, c1.st, m);
        }
      case While(c, body) =>
        WhileBalanced(f, c, body, env, st, m);
      case Begin(es) =>
        BeginBalanced(f, es, env, st, m, FalseV);
      case Apply(fn, args) =>
        ApplyBalanced(f, fn, args, env, st, m);
      case LetX(kind, xs, es, body) =>
        LetBalanced(f, kind, xs, es, body, env, st, m);
      case LambdaX(lam) =>
    }
  }

  lemma {:induction false} WhileBalanced(fuel: nat, c: Exp, body: Exp, env: Env, st: St, m: Machine)
    ensures var r := EvalWhile(fuel, c, body, env, st, m); r.Done? ==> r.st.indent == st.indent
    decreases fuel, 2, 0
  {
    if fuel > 0 {
      EvalBalanced(fuel, c, env, st, m);
      var c1 := Eval(fuel, c, env, st, m);
      if c1.Done? && IsTrue(c1.val) {
        EvalBalanced(fuel, body, env, c1.st, m);
        var b1 := Eval(fuel, body, env, c1.st, m);
        if b1.Done? {
          WhileBalanced(fuel - 1, c, body, env, b1.st, m);
        }
      }
    }
  }

  lemma {:induction false} BeginBalanced(fuel: nat, es: seq<Exp>, env: Env, st: St, m: Machine, last: Value)
    ensures var r := EvalBegin(fuel, es, env, st, m, last); r.Done? ==> r.st.indent == st.indent
    decreases fuel, 1, |es|
  {
    if es != [] {
      EvalBalanced(fuel, es[0], env, st, m);
      var h := Eval(fuel, es[0], env, st, m);
      if h.Done? {
        BeginBalanced(fuel, es[1..], env, h.st, m, h.val);
      }
    }
  }

  lemma {:induction false} ListBalanced(fuel: nat, es: seq<Exp>, env: Env, st: St, m: Machine)
    ensures var r := EvalList(fuel, es, env, st, m); r.Done? ==> r.st.indent == st.indent
    decreases fuel, 1, |es|
  {
    if es != [] {
      EvalBalanced(fuel, es[0], env, st, m);
      var h := Eval(fuel, es[0], env, st, m);
      if h.Done? {
        ListBalanced(fuel, es[1..], env, h.st, m);
      }
    }
  }

  lemma {:induction false} LetStarBalanced(fuel: nat, xs: seq<Name>, es: seq<Exp>, env: Env, st: St, m: Machine)
    ensures var r := EvalLetStar(fuel, xs, es, env, st, m); r.Done? ==> r.st.indent == st.indent
    decreases fuel, 1, |xs|
  {
    if xs != [] && es != [] {
      EvalBalanced(fuel, es[0], env, st, m);
      var h := Eval(fuel, es[0], env, st, m);
      if h.Done? {
        var b := BindAlloc(xs[0], h.val, env, h.st);
        LetStarBalanced(fuel, xs[1..], es[1..], b.env, b.st, m);
      }
    }
  }

  lemma {:induction false} ApplyBalanced(fuel: nat, fn: Exp, args: seq<Exp>, env: Env, st: St, m: Machine)
    ensures var r := EvalApply(fuel, fn, args, env, st, m); r.Done? ==> r.st.indent == st.indent
    decreases fuel, 2, 0
  {
    EvalBalanced(fuel, fn, env, st, m);
    var f1 := Eval(fuel, fn, env, st, m);
    if f1.Done? {
      ListBalanced(fuel, args, env, f1.st, m);
      var a := EvalList(fuel, args, env, f1.st, m);
      if a.Done? {
        var t := TraceEnter(m.tracing, env, a.st);
        match f1.val
        case Primitive(p) =>
        case Closure(lam, cenv) => BodyBalanced(fuel, lam, a.val, cenv, t.st, m);
        case _ =>
      }
    }
  }

  /** A closure's body, run in fresh bindings of its formals, returns at the
      indentation it started from. */
  lemma {:induction false} BodyBalanced(fuel: nat, lam: Lambda, vs: seq<Value>, cenv: Env, st: St, m: Machine)
    ensures var b := BindAllocList(lam.formals, vs, cenv, st);
            var r := Eval(fuel, lam.body, b.env, b.st, m);
            r.Done? ==> r.st.indent == st.indent
    decreases fuel, 1, 0
  {
    BindAllocListCounts(lam.formals, vs, cenv, st);
    var b := BindAllocList(lam.formals, vs, cenv, st);
    EvalBalanced(fuel, lam.body, b.env, b.st, m);
  }

  lemma {:induction false} LetBalanced(fuel: nat, kind: LetKind, xs: seq<Name>, es: seq<Exp>, body: Exp,
                                       env: Env, st: St, m: Machine)
    ensures var r := EvalLet(fuel, kind, xs, es, body, env, st, m); r.Done? ==> r.st.indent == st.indent
    decreases fuel, 2, 0
  {
    match kind
    case Let =>
      ListBalanced(fuel, es, env, st, m);
      var a := EvalList(fuel, es, env, st, m);
      if a.Done? {
        BindAllocListCounts(xs, a.val, env, a.st);
        var b := BindAllocList(xs, a.val, env, a.st);
        EvalBalanced(fuel, body, b.env, b.st, m);
      }
    case LetStar =>
      LetStarBalanced(fuel, xs, es, env, st, m);
      var a := EvalLetStar(fuel, xs, es, env, st, m);
      if a.Done? {
        EvalBalanced(fuel, body, a.val, a.st, m);
      }
    case LetRec =>
      PreBindKeepsIndent(xs, env, st, m.rand);
      var b := PreBind(xs, env, st, m.rand);
      ListBalanced(fuel, es, b.env, b.st, m);
      var a := EvalList(fuel, es, b.env, b.st, m);
      if a.Done? {
        var s2 := a.st.(mem := Backpatch(xs, a.val, b.env, a.st.mem));
        EvalBalanced(fuel, body, b.env, s2, m);
      }
  }
}
