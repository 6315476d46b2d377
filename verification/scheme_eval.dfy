/** The uScheme evaluator with application tracing (uscheme-trace/eval.c).

    Evaluation threads a state holding the store, the next free location,
    traceindent and the number of rand() results consumed so far. A runtime
    error is an Abort carrying the state at the moment runerror was called;
    what runerror then does to traceindent is ErrorFacility.RunError's
    business. Recursion is bounded by fuel, which stands in for the host-stack
    guard `checkoverflow`. */
module SchemeEval {
  import opened Results
  import opened SchemeValue
  import ErrorFacility

  /** The variable whose numeric value switches tracing on. */
  const TraceName: Name := "&trace"

  datatype St = St(mem: map<Loc, Value>, next: Loc, indent: int, draws: nat)

  datatype Error =
    | NameNotFound(name: Name)
    | SetUnbound(setName: Name)
    | WrongArgCount(argc: ErrorFacility.ArgcError)
    | NotAFunction(f: Value)
    | LetrecNonLambda(init: Exp)
    | PrimitiveFailed(message: string)
    | AssertionFailure
    | DanglingLocation(loc: Loc)
    | OutOfFuel

  datatype Outcome<T> = Done(val: T, st: St) | Abort(err: Error, st: St)

  /** What the evaluator cannot see: the primitives' C functions, the C library's
      rand(), and whether the tracing block is present (the source always has
      it; turning it off gives the untraced reference interpreter). */
  datatype Machine = Machine(
    prim: (PrimTag, seq<Value>) -> Result<Value, string>,
    rand: nat -> nat,
    tracing: bool)

  datatype Extended = Extended(env: Env, st: St)

  /** bindalloc: a fresh location holding v, bound to x in front of env. */
  function BindAlloc(x: Name, v: Value, env: Env, st: St): Extended {
    Extended([Binding(x, st.next)] + env,
             st.(mem := st.mem[st.next := v], next := st.next + 1))
  }

  /** bindalloclist: binds the pairs of xs and vs left to right while both
      lists last, so the last name ends up innermost. */
  function BindAllocList(xs: seq<Name>, vs: seq<Value>, env: Env, st: St): Extended
    decreases |xs|
  {
    if xs == [] || vs == [] then Extended(env, st)
    else
      var b := BindAlloc(xs[0], vs[0], env, st);
      BindAllocList(xs[1..], vs[1..], b.env, b.st)
  }

  function MinLen<A, B>(xs: seq<A>, ys: seq<B>): nat {
    if |xs| < |ys| then |xs| else |ys|
  }

  /** What bindalloclist builds: n = min(|xs|, |vs|) fresh locations starting at
      the old next-free one, the i-th holding vs[i] and bound to xs[i], the
      bindings stacked in front of env with the last one innermost, and the
      rest of the store untouched. */
  predicate AllocatedAsListed(xs: seq<Name>, vs: seq<Value>, env: Env, st: St, r: Extended) {
    var n := MinLen(xs, vs);
    && r.st.next == st.next + n
    && |r.env| == |env| + n
    && r.env[n..] == env
    && (forall i | 0 <= i < n :: r.env[n - 1 - i] == Binding(xs[i], st.next + i))
    && (forall l: Loc | st.next <= l < st.next + n :: l in r.st.mem && r.st.mem[l] == vs[l - st.next])
    && (forall l | l in st.mem && !(st.next <= l < st.next + n) :: l in r.st.mem && r.st.mem[l] == st.mem[l])
    && (forall l | l in r.st.mem :: l in st.mem || st.next <= l < st.next + n)
    && r.st.indent == st.indent && r.st.draws == st.draws
  }

  lemma BindAllocListShape(xs: seq<Name>, vs: seq<Value>, env: Env, st: St)
    ensures AllocatedAsListed(xs, vs, env, st, BindAllocList(xs, vs, env, st))
  {
    BindAllocListCounts(xs, vs, env, st);
    BindAllocListBindings(xs, vs, env, st);
    BindAllocListNewCells(xs, vs, env, st);
    BindAllocListOldCells(xs, vs, env, st);
  }

  lemma {:induction false} BindAllocListCounts(xs: seq<Name>, vs: seq<Value>, env: Env, st: St)
    ensures var r := BindAllocList(xs, vs, env, st);
            var n := MinLen(xs, vs);
            && r.st.next == st.next + n
            && |r.env| == |env| + n
            && r.env[n..] == env
            && r.st.indent == st.indent && r.st.draws == st.draws
    decreases |xs|
  {
    if xs != [] && vs != [] {
      var r := BindAllocList(xs, vs, env, st);
      var n := MinLen(xs, vs);
      var b := BindAlloc(xs[0], vs[0], env, st);
      BindAllocListCounts(xs[1..], vs[1..], b.env, b.st);
      assert r == BindAllocList(xs[1..], vs[1..], b.env, b.st);
      assert MinLen(xs[1..], vs[1..]) == n - 1;
      assert r.env[n - 1..] == b.env;
      assert r.env[n..] == r.env[n - 1..][1..];
    }
  }

  lemma {:induction false} BindAllocListBindings(xs: seq<Name>, vs: seq<Value>, env: Env, st: St)
    ensures var r := BindAllocList(xs, vs, env, st);
            var n := MinLen(xs, vs);
            |r.env| >= n && forall i | 0 <= i < n :: r.env[n - 1 - i] == Binding(xs[i], st.next + i)
    decreases |xs|
  {
    if xs != [] && vs != [] {
      var r := BindAllocList(xs, vs, env, st);
      var n := MinLen(xs, vs);
      var b := BindAlloc(xs[0], vs[0], env, st);
      BindAllocListBindings(xs[1..], vs[1..], b.env, b.st);
      BindAllocListCounts(xs[1..], vs[1..], b.env, b.st);
      assert r == BindAllocList(xs[1..], vs[1..], b.env, b.st);
      assert MinLen(xs[1..], vs[1..]) == n - 1;
      forall i: int | 0 <= i < n
        ensures r.env[n - 1 - i] == Binding(xs[i], st.next + i)
      {
        if i > 0 {
          assert r.env[(n - 1) - 1 - (i - 1)] == Binding(xs[1..][i - 1], b.st.next + (i - 1));
          assert xs[1..][i - 1] == xs[i];
        } else {
          assert r.env[n - 1..] == b.env;
          assert r.env[n - 1] == b.env[0];
        }
      }
    }
  }

  lemma {:induction false} BindAllocListNewCells(xs: seq<Name>, vs: seq<Value>, env: Env, st: St)
    ensures var r := BindAllocList(xs, vs, env, st);
            var n := MinLen(xs, vs);
            forall l: Loc | st.next <= l < st.next + n :: l in r.st.mem && r.st.mem[l] == vs[l - st.next]
    decreases |xs|
  {
    if xs != [] && vs != [] {
      var r := BindAllocList(xs, vs, env, st);
      var n := MinLen(xs, vs);
      var b := BindAlloc(xs[0], vs[0], env, st);
      BindAllocListNewCells(xs[1..], vs[1..], b.env, b.st);
      BindAllocListOldCells(xs[1..], vs[1..], b.env, b.st);
      assert r == BindAllocList(xs[1..], vs[1..], b.env, b.st);
      assert MinLen(xs[1..], vs[1..]) == n - 1;
      forall l: Loc | st.next <= l < st.next + n
        ensures l in r.st.mem && r.st.mem[l] == vs[l - st.next]
      {
        if l > st.next {
          assert vs[1..][l - b.st.next] == vs[l - st.next];
        } else {
          assert st.next in b.st.mem && b.st.mem[st.next] == vs[0] && !(b.st.next <= st.next);
        }
      }
    }
  }

  lemma {:induction false} BindAllocListOldCells(xs: seq<Name>, vs: seq<Value>, env: Env, st: St)
    ensures var r := BindAllocList(xs, vs, env, st);
            var n := MinLen(xs, vs);
            && (forall l | l in st.mem && !(st.next <= l < st.next + n) :: l in r.st.mem && r.st.mem[l] == st.mem[l])
            && (forall l | l in r.st.mem :: l in st.mem || st.next <= l < st.next + n)
    decreases |xs|
  {
    if xs != [] && vs != [] {
      var r := BindAllocList(xs, vs, env, st);
      var n := MinLen(xs, vs);
      var b := BindAlloc(xs[0], vs[0], env, st);
      BindAllocListOldCells(xs[1..], vs[1..], b.env, b.st);
      assert r == BindAllocList(xs[1..], vs[1..], b.env, b.st);
      assert MinLen(xs[1..], vs[1..]) == n - 1;
      forall l | l in st.mem && !(st.next <= l < st.next + n)
        ensures l in r.st.mem && r.st.mem[l] == st.mem[l]
      {
        assert l in b.st.mem && b.st.mem[l] == st.mem[l];
      }
    }
  }

  /** The value at the innermost location bound to x. */
  function Fetch(x: Name, env: Env, st: St): Outcome<Value> {
    match Find(x, env)
    case None => Abort(NameNotFound(x), st)
    case Some(l) => if l in st.mem then Done(st.mem[l], st) else Abort(DanglingLocation(l), st)
  }

  /** letrec's first loop: every name bound to a fresh location holding an
      unspecified value. */
  function PreBind(xs: seq<Name>, env: Env, st: St, rand: nat -> nat): Extended
    decreases |xs|
  {
    if xs == [] then Extended(env, st)
    else
      var b := PreBindOne(xs[0], env, st, rand);
      PreBind(xs[1..], b.env, b.st, rand)
  }

  /** One name of letrec's first loop: the unspecified value is drawn from
      rand() at the current draw position, then bound in a fresh location. */
  function PreBindOne(x: Name, env: Env, st: St, rand: nat -> nat): Extended {
    var first := rand(st.draws);
    BindAlloc(x, Unspecified(first, rand(st.draws + 1)), env, st.(draws := st.draws + UnspecifiedDraws(first)))
  }

  /** The first initializer that is not a lambda expression, if any. */
  function FirstNonLambda(es: seq<Exp>): (r: Option<Exp>)
    ensures r.None? <==> forall i | 0 <= i < |es| :: es[i].LambdaX?
    ensures r.Some? ==> !r.value.LambdaX? && r.value in es
    ensures r.Some? ==> exists i | 0 <= i < |es| :: es[i] == r.value && forall j | 0 <= j < i :: es[j].LambdaX?
  {
    if es == [] then None
    else if !es[0].LambdaX? then Some(es[0])
    else FirstNonLambda(es[1..])
  }

  /** letrec's last loop: each name's location, as found in env, gets the
      corresponding value, in list order. (Every name was bound by PreBind, so
      the lookup never misses.) */
  function Backpatch(xs: seq<Name>, vs: seq<Value>, env: Env, mem: map<Loc, Value>): map<Loc, Value>
    decreases |xs|
  {
    if xs == [] || vs == [] then mem
    else
      var mem1 := match Find(xs[0], env)
                  case Some(l) => mem[l := vs[0]]
                  case None => mem;
      Backpatch(xs[1..], vs[1..], env, mem1)
  }

  datatype TraceStep = TraceStep(on: bool, st: St)

  /** The bookkeeping before an application: when &trace is bound to a nonzero
      number, that location is decremented by one and traceindent rises by 2. */
  function TraceEnter(enabled: bool, env: Env, st: St): (r: TraceStep)
    ensures r.on <==> enabled && Find(TraceName, env).Some? && Find(TraceName, env).value in st.mem
                      && st.mem[Find(TraceName, env).value].Num?
                      && st.mem[Find(TraceName, env).value].n != 0
    ensures r.on ==>
      var l := Find(TraceName, env).value;
      r.st == st.(mem := st.mem[l := Num(st.mem[l].n - 1)], indent := st.indent + 2)
    ensures !r.on ==> r.st == st
  {
    if !enabled then TraceStep(false, st)
    else
      match Find(TraceName, env)
      case None => TraceStep(false, st)
      case Some(l) =>
        if l in st.mem && st.mem[l].Num? && st.mem[l].n != 0 then
          TraceStep(true, st.(mem := st.mem[l := Num(st.mem[l].n - 1)], indent := st.indent + 2))
        else TraceStep(false, st)
  }

  /** The bookkeeping after a traced application returns: traceindent drops by 2. */
  function TraceExit(on: bool, st: St): St {
    if on then st.(indent := st.indent - 2) else st
  }

  /** eval. */
  function Eval(fuel: nat, e: Exp, env: Env, st: St, m: Machine): Outcome<Value>
    decreases fuel, 0, 0
  {
    if fuel == 0 then Abort(OutOfFuel, st)
    else
      var f := fuel - 1;
      match e
      case Literal(v) => Done(v, st)
      case Var(x) => Fetch(x, env, st)
      case Set(x, rhs) =>
        (match Find(x, env)
         case None => Abort(SetUnbound(x), st)
         case Some(l) =>
           match Eval(f, rhs, env, st, m)
           case Abort(err, s) => Abort(err, s)
           case Done(v, s1) => Done(v, s1.(mem := s1.mem[l := v])))
      case If(c, t, el) =>
        (match Eval(f, c, env, st, m)
         case Abort(err, s) => Abort(err, s)
         case Done(v, s1) => if IsTrue(v) then Eval(f, t, env, s1, m) else Eval(f, el, env, s1, m))
      case While(c, body) => EvalWhile(f, c, body, env, st, m)
      case Begin(es) => EvalBegin(f, es, env, st, m, FalseV)
      case Apply(fn, args) => EvalApply(f, fn, args, env, st, m)
      case LetX(kind, xs, es, body) => EvalLet(f, kind, xs, es, body, env, st, m)
      case LambdaX(lam) => Done(Closure(lam, env), st)
  }

  /** The while loop; each iteration costs one unit of fuel. */
  function EvalWhile(fuel: nat, c: Exp, body: Exp, env: Env, st: St, m: Machine): Outcome<Value>
    decreases fuel, 2, 0
  {
    if fuel == 0 then Abort(OutOfFuel, st)
    else
      match Eval(fuel, c, env, st, m)
      case Abort(err, s) => Abort(err, s)
      case Done(v, s1) =>
        if !IsTrue(v) then Done(FalseV, s1)
        else
          match Eval(fuel, body, env, s1, m)
          case Abort(err, s) => Abort(err, s)
          case Done(_, s2) => EvalWhile(fuel - 1, c, body, env, s2, m)
  }

  /** begin: the value of the last expression, `last` (initially false) if none. */
  function EvalBegin(fuel: nat, es: seq<Exp>, env: Env, st: St, m: Machine, last: Value): Outcome<Value>
    decreases fuel, 1, |es|
  {
    if es == [] then Done(last, st)
    else
      match Eval(fuel, es[0], env, st, m)
      case Abort(err, s) => Abort(err, s)
      case Done(v, s1) => EvalBegin(fuel, es[1..], env, s1, m, v)
  }

  /** evallist: strictly left to right. */
  function EvalList(fuel: nat, es: seq<Exp>, env: Env, st: St, m: Machine): Outcome<seq<Value>>
    decreases fuel, 1, |es|
  {
    if es == [] then Done([], st)
    else
      match Eval(fuel, es[0], env, st, m)
      case Abort(err, s) => Abort(err, s)
      case Done(v, s1) =>
        match EvalList(fuel, es[1..], env, s1, m)
        case Abort(err, s) => Abort(err, s)
        case Done(vs, s2) => Done([v] + vs, s2)
  }

  /** Application: operator, then operands, then the trace bookkeeping, then
      the call. */
  function EvalApply(fuel: nat, fn: Exp, args: seq<Exp>, env: Env, st: St, m: Machine): Outcome<Value>
    decreases fuel, 2, 0
  {
    match Eval(fuel, fn, env, st, m)
    case Abort(err, s) => Abort(err, s)
    case Done(f, s1) =>
      match EvalList(fuel, args, env, s1, m)
      case Abort(err, s) => Abort(err, s)
      case Done(vs, s2) =>
        var t := TraceEnter(m.tracing, env, s2);
        match f
        case Primitive(p) =>
          (match m.prim(p, vs)
           case Failure(msg) => Abort(PrimitiveFailed(msg), t.st)
           case Success(rv) => Done(rv, TraceExit(t.on, t.st)))
        case Closure(lam, cenv) =>
          (match ErrorFacility.CheckArgc(|lam.formals|, |vs|)
           case Some(a) => Abort(WrongArgCount(a), t.st)
           case None =>
             var b := BindAllocList(lam.formals, vs, cenv, t.st);
             match Eval(fuel, lam.body, b.env, b.st, m)
             case Abort(err, s) => Abort(err, s)
             case Done(rv, s3) => Done(rv, TraceExit(t.on, s3)))
        case _ => Abort(NotAFunction(f), t.st)
  }

  /** let, let* and letrec: build the extended environment, then evaluate the body in it. */
  function EvalLet(fuel: nat, kind: LetKind, xs: seq<Name>, es: seq<Exp>, body: Exp,
                   env: Env, st: St, m: Machine): Outcome<Value>
    decreases fuel, 2, 0
  {
    match kind
    case Let =>
      (match EvalList(fuel, es, env, st, m)
       case Abort(err, s) => Abort(err, s)
       case Done(vs, s1) =>
         var b := BindAllocList(xs, vs, env, s1);
         if |xs| != |vs| then Abort(AssertionFailure, b.st)
         else Eval(fuel, body, b.env, b.st, m))
    case LetStar =>
      (match EvalLetStar(fuel, xs, es, env, st, m)
       case Abort(err, s) => Abort(err, s)
       case Done(env1, s1) => Eval(fuel, body, env1, s1, m))
    case LetRec =>
      var b := PreBind(xs, env, st, m.rand);
      match FirstNonLambda(es)
      case Some(bad) => Abort(LetrecNonLambda(bad), b.st)
      case None =>
        match EvalList(fuel, es, b.env, b.st, m)
        case Abort(err, s) => Abort(err, s)
        case Done(vs, s1) =>
          var s2 := s1.(mem := Backpatch(xs, vs, b.env, s1.mem));
          if |xs| != |vs| then Abort(AssertionFailure, s2)
          else Eval(fuel, body, b.env, s2, m)
  }

  /** let*: one binding at a time, each initializer seeing the earlier names. */
  function EvalLetStar(fuel: nat, xs: seq<Name>, es: seq<Exp>, env: Env, st: St, m: Machine): Outcome<Env>
    decreases fuel, 1, |xs|
  {
    if xs == [] || es == [] then
      if xs == [] && es == [] then Done(env, st) else Abort(AssertionFailure, st)
    else
      match Eval(fuel, es[0], env, st, m)
      case Abort(err, s) => Abort(err, s)
      case Done(v, s1) =>
        var b := BindAlloc(xs[0], v, env, s1);
        EvalLetStar(fuel, xs[1..], es[1..], b.env, b.st, m)
  }
}
