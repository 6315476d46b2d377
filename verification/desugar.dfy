/** The derived forms of uScheme (uscheme-trace/parse.c): let* as nested
    single-binding lets, let as the application of a lambda, and, or, and
    cond as conditionals. Only the parser's output is modelled here; what the
    results do when evaluated is in SchemeDesugarFacts. reduce_to_exp applies
    the and, or and cond desugarings; desugarLet and desugarLetStar are
    defined but not called (let and let* stay LETX forms). */
module SchemeDesugar {
  import opened Results
  import opened Decimal
  import opened SchemeValue
  import ErrorFacility

  /** errorexp: a call of the global function `error` on one argument. */
  function ErrorExp(arg: Exp): Exp {
    Apply(Var("error"), [arg])
  }

  /** desugarLet: ((lambda (x1 ... xn) body) e1 ... en). */
  function DesugarLet(xs: seq<Name>, es: seq<Exp>, body: Exp): (r: Exp)
    ensures r.Apply? && r.fn.LambdaX? && r.args == es
    ensures r.fn.lam.formals == xs && r.fn.lam.body == body
  {
    Apply(LambdaX(Lambda(xs, body)), es)
  }

  /** desugarLetStar: one single-binding let per name, the first outermost.
      Lists of different lengths trip the C assertion. */
  function DesugarLetStar(xs: seq<Name>, es: seq<Exp>, body: Exp): (r: Result<Exp, ErrorFacility.Crash>)
    ensures r.Success? <==> |xs| == |es|
    ensures xs == [] && es == [] ==> r == Success(body)
    decreases |xs|
  {
    if xs == [] || es == [] then
      if xs == [] && es == [] then Success(body) else Failure(ErrorFacility.AssertionFailure)
    else
      match DesugarLetStar(xs[1..], es[1..], body)
      case Failure(c) => Failure(c)
      case Success(inner) => Success(DesugarLet([xs[0]], [es[0]], inner))
  }

  /** The names, initializers and body of n nested single-binding lets, when
      e has that shape. */
  datatype Unnested = Unnested(xs: seq<Name>, es: seq<Exp>, body: Exp)

  function UnnestLets(e: Exp, n: nat): Option<Unnested>
    decreases n
  {
    if n == 0 then Some(Unnested([], [], e))
    else if e.Apply? && e.fn.LambdaX? && |e.fn.lam.formals| == 1 && |e.args| == 1 then
      match UnnestLets(e.fn.lam.body, n - 1)
      case None => None
      case Some(u) => Some(Unnested([e.fn.lam.formals[0]] + u.xs, [e.args[0]] + u.es, u.body))
    else None
  }

  /** let* desugaring loses nothing: peeling |xs| single-binding lets off the
      result gives back the names, the initializers and the body. */
  lemma {:induction false} DesugarLetStarUnnests(xs: seq<Name>, es: seq<Exp>, body: Exp)
    requires |xs| == |es|
    ensures UnnestLets(DesugarLetStar(xs, es, body).value, |xs|) == Some(Unnested(xs, es, body))
    decreases |xs|
  {
    if xs != [] {
      DesugarLetStarUnnests(xs[1..], es[1..], body);
      assert [xs[0]] + xs[1..] == xs && [es[0]] + es[1..] == es;
    }
  }

  /** desugarAnd: () is #t, (e) is e, and (e1 e2 ...) is
      (if e1 (and e2 ...) #f). */
  function DesugarAnd(args: seq<Exp>): Exp
    decreases |args|
  {
    if args == [] then Literal(TrueV)
    else if |args| == 1 then args[0]
    else If(args[0], DesugarAnd(args[1..]), Literal(FalseV))
  }

  /** desugarCond: an if chain over the question-answer pairs, as long as
      both lists last, ending in a call of `error`. */
  function DesugarCond(qs: seq<Exp>, answers: seq<Exp>): Exp
    decreases |qs|
  {
    if qs != [] && answers != [] then If(qs[0], answers[0], DesugarCond(qs[1..], answers[1..]))
    else ErrorExp(Literal(Sym("cond:-all-question-results-were-false")))
  }

  /** memberNL: whether x occurs in the list. */
  function MemberNL(x: Name, xs: seq<Name>): (r: bool)
    ensures r <==> x in xs
  {
    if xs == [] then false else if x == xs[0] then true else MemberNL(x, xs[1..])
  }

  /** The free variables of an expression: names used by var and set that no
      enclosing lambda or let binds. (freevars itself is not part of this
      model; this is the usual definition, with let* binding left to right.) */
  function FreeVars(e: Exp): set<Name>
    decreases e, 1
  {
    match e
    case Literal(_) => {}
    case Var(x) => {x}
    case Set(x, rhs) => {x} + FreeVars(rhs)
    case If(c, t, el) => FreeVars(c) + FreeVars(t) + FreeVars(el)
    case While(c, body) => FreeVars(c) + FreeVars(body)
    case Begin(es) => Union(FreeVarsEach(es))
    case Apply(fn, args) => FreeVars(fn) + Union(FreeVarsEach(args))
    case LetX(kind, xs, es, body) =>
      (match kind
       case Let => Union(FreeVarsEach(es)) + (FreeVars(body) - NameSet(xs))
       case LetRec => (Union(FreeVarsEach(es)) + FreeVars(body)) - NameSet(xs)
       case LetStar => Sequential(xs, FreeVarsEach(es), FreeVars(body)))
    case LambdaX(lam) => FreeVars(lam.body) - NameSet(lam.formals)
  }

  function FreeVarsEach(es: seq<Exp>): (r: seq<set<Name>>)
    ensures |r| == |es|
    decreases es, 0
  {
    if es == [] then [] else [FreeVars(es[0])] + FreeVarsEach(es[1..])
  }

  function Union(ss: seq<set<Name>>): set<Name> {
    if ss == [] then {} else ss[0] + Union(ss[1..])
  }

  function NameSet(xs: seq<Name>): set<Name> {
    set x | x in xs
  }

  /** The free names of let* bindings: each initializer sees the names bound
      before it, the body sees all of them. */
  function Sequential(xs: seq<Name>, fvs: seq<set<Name>>, body: set<Name>): set<Name> {
    if xs == [] || fvs == [] then Union(fvs) + body
    else fvs[0] + (Sequential(xs[1..], fvs[1..], body) - {xs[0]})
  }

  /** The name desugarOr tries at a given suffix: "x1", "x2", ... */
  function TempName(k: nat): Name {
    "x" + NatToString(k)
  }

  lemma TempNameInjective(j: nat, k: nat)
    ensures TempName(j) == TempName(k) <==> j == k
  {
    if TempName(j) == TempName(k) {
      assert TempName(j)[1..] == NatToString(j);
      assert TempName(k)[1..] == NatToString(k);
      NatToStringInjective(j, k);
    }
  }

  /** The names tried before suffix k. */
  function Tried(k: nat): set<Name> {
    set j | 1 <= j < k :: TempName(j)
  }

  /** The loop over suffixes in desugarOr, from k on: `remaining` is the free
      set with the names already tried removed, so it shrinks with every
      suffix that is in use and the search ends. */
  function FreshFrom(remaining: set<Name>, k: nat): (j: nat)
    ensures j >= k
    decreases |remaining|
  {
    if TempName(k) in remaining then FreshFrom(remaining - {TempName(k)}, k + 1) else k
  }

  /** The first suffix whose name is not in `free`. */
  function FreshSuffix(free: set<Name>): nat {
    FreshFrom(free, 1)
  }

  lemma {:induction false} FreshFromFinds(free: set<Name>, remaining: set<Name>, k: nat)
    requires k >= 1 && remaining <= free && free - remaining <= Tried(k)
    ensures TempName(FreshFrom(remaining, k)) !in free
    ensures forall i | k <= i < FreshFrom(remaining, k) :: TempName(i) in free
    decreases |remaining|
  {
    var t := TempName(k);
    if t in remaining {
      assert t in Tried(k + 1);
      assert Tried(k) <= Tried(k + 1);
      FreshFromFinds(free, remaining - {t}, k + 1);
    } else if t in free {
      assert t in Tried(k);
      var j: nat :| 1 <= j < k && TempName(j) == t;
      TempNameInjective(j, k);
    }
  }

  /** The suffix desugarOr settles on is the least positive one whose name is
      not free. */
  lemma FreshSuffixIsLeast(free: set<Name>)
    ensures FreshSuffix(free) >= 1
    ensures TempName(FreshSuffix(free)) !in free
    ensures forall i | 1 <= i < FreshSuffix(free) :: TempName(i) in free
  {
    FreshFromFinds(free, free, 1);
  }

  /** desugarOr: () is #f, (e) is e, and (e1 e2 ...) is
      (let ((x e1)) (if x x (or e2 ...))) with x the first of x1, x2, ...
      not free in the desugared rest. */
  function DesugarOr(args: seq<Exp>): Exp
    decreases |args|
  {
    if args == [] then Literal(FalseV)
    else if |args| == 1 then args[0]
    else
      var e2 := DesugarOr(args[1..]);
      var x := TempName(FreshSuffix(FreeVars(e2)));
      LetX(Let, [x], [args[0]], If(Var(x), Var(x), e2))
  }

  /** The temporary or binds cannot capture a name the rest of the
      disjunction uses, and it is the first such candidate. */
  lemma DesugarOrTempIsFresh(args: seq<Exp>)
    requires |args| >= 2
    ensures var r := DesugarOr(args);
            var e2 := DesugarOr(args[1..]);
            && r.LetX? && r.kind == Let && |r.xs| == 1 && r.inits == [args[0]]
            && r.xs[0] !in FreeVars(e2)
            && r.letBody == If(Var(r.xs[0]), Var(r.xs[0]), e2)
            && exists k: nat | k >= 1 :: r.xs[0] == TempName(k)
                 && forall i | 1 <= i < k :: TempName(i) in FreeVars(e2)
  {
    var e2 := DesugarOr(args[1..]);
    var k := FreshSuffix(FreeVars(e2));
    FreshSuffixIsLeast(FreeVars(e2));
    assert DesugarOr(args).xs[0] == TempName(k);
  }
}
