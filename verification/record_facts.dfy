/** What the record desugaring's code computes when the pair primitives
    behave as cons, car, cdr, null? and pair? do: the constructor builds the
    list (make-R v1 ... vn), the field path of the i-th accessor reads vi back,
    and the length test in R? accepts exactly the lists of the right length. */
module RecordFacts {
  import opened Results
  import opened SchemeValue
  import opened SchemeEval
  import opened RecordSugar

  /** The five primitives the desugaring names, as the primitive table
      defines them (car and cdr of a pair succeed; their errors are not
      needed here). */
  ghost predicate PairPrims(m: Machine) {
    && (forall a, d :: m.prim(ConsTag, [a, d]) == Success(Pair(a, d)))
    && (forall v: Value | v.Pair? :: m.prim(CarTag, [v]) == Success(v.car))
    && (forall v: Value | v.Pair? :: m.prim(CdrTag, [v]) == Success(v.cdr))
    && (forall v: Value :: m.prim(NullPTag, [v]) == Success(Bool(v == Nil)))
    && (forall v: Value :: m.prim(PairPTag, [v]) == Success(Bool(v.Pair?)))
  }

  /** A primitive used as a literal operator: the operands' values go to
      the primitive and, untraced, the state is the operands'. */
  lemma PrimCall(fuel: nat, p: PrimTag, args: seq<Exp>, env: Env, st: St, m: Machine)
    requires !m.tracing && fuel >= 2
    requires EvalList(fuel - 1, args, env, st, m).Done?
    ensures var l := EvalList(fuel - 1, args, env, st, m);
            Eval(fuel, Apply(Literal(Primitive(p)), args), env, st, m)
              == match m.prim(p, l.val)
                 case Success(w) => Done(w, l.st)
                 case Failure(msg) => Abort(PrimitiveFailed(msg), l.st)
  {
    var l := EvalList(fuel - 1, args, env, st, m);
    assert Eval(fuel - 1, Literal(Primitive(p)), env, st, m) == Done(Primitive(p), st);
    assert TraceEnter(m.tracing, env, l.st) == TraceStep(false, l.st);
    assert Eval(fuel, Apply(Literal(Primitive(p)), args), env, st, m)
             == EvalApply(fuel - 1, Literal(Primitive(p)), args, env, st, m);
  }

  /** The same for one operand. */
  lemma UnaryPrim(fuel: nat, p: PrimTag, e: Exp, env: Env, st: St, m: Machine)
    requires !m.tracing && fuel >= 2
    requires Eval(fuel - 1, e, env, st, m).Done?
    ensures var a := Eval(fuel - 1, e, env, st, m);
            Eval(fuel, Apply(Literal(Primitive(p)), [e]), env, st, m)
              == match m.prim(p, [a.val])
                 case Success(w) => Done(w, a.st)
                 case Failure(msg) => Abort(PrimitiveFailed(msg), a.st)
  {
    var a := Eval(fuel - 1, e, env, st, m);
    assert [e][1..] == [];
    assert EvalList(fuel - 1, [e], env, st, m) == Done([a.val], a.st) by {
      assert EvalList(fuel - 1, [e][1..], env, a.st, m) == Done([], a.st);
      assert [a.val] + [] == [a.val];
    }
    PrimCall(fuel, p, [e], env, st, m);
  }

  /** The k-fold cdr of a value, the outermost applied last, as Cdrs builds it. */
  predicate HasCdrs(v: Value, k: nat)
    decreases k, 0
  {
    k == 0 || (HasCdrs(v, k - 1) && CdrN(v, k - 1).Pair?)
  }

  function CdrN(v: Value, k: nat): Value
    requires HasCdrs(v, k)
    decreases k, 1
  {
    if k == 0 then v else CdrN(v, k - 1).cdr
  }

  /** Reading down a chain of cdrs from a variable: each cdr is one
      application, and the state does not change. */
  lemma {:induction false} CdrsRead(fuel: nat, k: nat, r: Name, v: Value, env: Env, st: St, m: Machine)
    requires !m.tracing && PairPrims(m) && fuel >= k + 1
    requires Fetch(r, env, st) == Done(v, st) && HasCdrs(v, k)
    ensures Eval(fuel, Cdrs(k, Var(r)), env, st, m) == Done(CdrN(v, k), st)
    decreases k
  {
    if k > 0 {
      CdrsRead(fuel - 1, k - 1, r, v, env, st, m);
      UnaryPrim(fuel, CdrTag, Cdrs(k - 1, Var(r)), env, st, m);
    }
  }

  /** The value a record of fields vs is: (make-R v1 ... vn). */
  function RecordValue(rec: Name, vs: seq<Value>): Value {
    Pair(Sym(ConstructorName(rec)), ListValue(vs))
  }

  lemma {:induction false} RecordCdrs(rec: Name, vs: seq<Value>, k: nat)
    requires 1 <= k <= |vs| + 1
    ensures HasCdrs(RecordValue(rec, vs), k) && CdrN(RecordValue(rec, vs), k) == ListValue(vs[k - 1..])
    decreases k
  {
    if k > 1 {
      RecordCdrs(rec, vs, k - 1);
      assert vs[k - 2..][1..] == vs[k - 1..];
    }
  }

  /** The i-th accessor's field expression, applied to a record value, gives
      the i-th field back. */
  lemma AccessorReadsField(fuel: nat, rec: Name, vs: seq<Value>, i: nat, env: Env, st: St, m: Machine)
    requires !m.tracing && PairPrims(m) && i < |vs| && fuel >= i + 3
    requires Fetch("r", env, st) == Done(RecordValue(rec, vs), st)
    ensures Eval(fuel, CarExp(Cdrs(i + 1, Var("r"))), env, st, m) == Done(vs[i], st)
  {
    var v := RecordValue(rec, vs);
    RecordCdrs(rec, vs, i + 1);
    CdrsRead(fuel - 1, i + 1, "r", v, env, st, m);
    UnaryPrim(fuel, CarTag, Cdrs(i + 1, Var("r")), env, st, m);
  }

  /** cons of two operands that evaluate without changing the state builds
      the pair of their values. */
  lemma ConsBuilds(fuel: nat, e1: Exp, e2: Exp, v1: Value, v2: Value, env: Env, st: St, m: Machine)
    requires !m.tracing && PairPrims(m) && fuel >= 2
    requires Eval(fuel - 1, e1, env, st, m) == Done(v1, st)
    requires Eval(fuel - 1, e2, env, st, m) == Done(v2, st)
    ensures Eval(fuel, ConsExp(e1, e2), env, st, m) == Done(Pair(v1, v2), st)
  {
    var f := fuel - 1;
    var args := [e1, e2];
    assert EvalList(f, args, env, st, m) == Done([v1, v2], st) by {
      assert args[1..] == [e2] && [e2][1..] == [];
      assert EvalList(f, [e2][1..], env, st, m) == Done([], st);
      assert [v2] + [] == [v2];
      assert EvalList(f, args[1..], env, st, m) == Done([v2], st);
      assert [v1] + [v2] == [v1, v2];
    }
    assert m.prim(ConsTag, [v1, v2]) == Success(Pair(v1, v2));
    PrimCall(fuel, ConsTag, args, env, st, m);
  }

  /** varlist's code builds the list of the variables' values, state unchanged. */
  lemma {:induction false} VarListBuilds(fuel: nat, names: seq<Name>, vs: seq<Value>, env: Env, st: St, m: Machine)
    requires !m.tracing && PairPrims(m) && |names| == |vs| && fuel >= |names| + 1
    requires forall i | 0 <= i < |names| :: Fetch(names[i], env, st) == Done(vs[i], st)
    ensures Eval(fuel, VarList(names), env, st, m) == Done(ListValue(vs), st)
    decreases |names|
  {
    if names != [] {
      assert forall i | 0 <= i < |names[1..]| :: names[1..][i] == names[i + 1] && vs[1..][i] == vs[i + 1];
      VarListBuilds(fuel - 1, names[1..], vs[1..], env, st, m);
      assert Eval(fuel - 1, Var(names[0]), env, st, m) == Done(vs[0], st);
      ConsBuilds(fuel, Var(names[0]), VarList(names[1..]), vs[0], ListValue(vs[1..]), env, st, m);
    }
  }

  /** The constructor's body, run with its parameters bound to vs, builds
      the record value (make-R v1 ... vn). */
  lemma ConstructorBuilds(fuel: nat, rec: Name, fields: seq<Name>, vs: seq<Value>,
                          env: Env, st: St, m: Machine)
    requires !m.tracing && PairPrims(m) && |fields| == |vs| && fuel >= |fields| + 2
    requires forall i | 0 <= i < |fields| :: Fetch(PrefixThe(fields)[i], env, st) == Done(vs[i], st)
    ensures Eval(fuel, RecordConstructor(rec, fields).defLambda.body, env, st, m)
              == Done(RecordValue(rec, vs), st)
  {
    var tag := Sym(ConstructorName(rec));
    VarListBuilds(fuel - 1, PrefixThe(fields), vs, env, st, m);
    assert Eval(fuel - 1, Literal(tag), env, st, m) == Done(tag, st);
    ConsBuilds(fuel, Literal(tag), VarList(PrefixThe(fields)), tag, ListValue(vs), env, st, m);
  }

  /** A list of exactly n elements. */
  predicate ListOfLength(v: Value, n: nat) {
    if n == 0 then v == Nil else v.Pair? && ListOfLength(v.cdr, n - 1)
  }

  /** goodRecordCdr's code, looking k cdrs down a variable, yields #t exactly
      when what it finds there is a list with one element per field, and #f
      otherwise; it never applies cdr to a non-pair. */
  lemma {:induction false} GoodRecordCdrTests(fuel: nat, k: nat, fields: seq<Name>, r: Name, v: Value,
                                              env: Env, st: St, m: Machine)
    requires !m.tracing && PairPrims(m) && fuel >= k + 2 * |fields| + 2
    requires Fetch(r, env, st) == Done(v, st) && HasCdrs(v, k)
    ensures Eval(fuel, GoodRecordCdr(Cdrs(k, Var(r)), fields), env, st, m)
              == Done(Bool(ListOfLength(CdrN(v, k), |fields|)), st)
    decreases |fields|
  {
    if fields == [] {
      GoodRecordCdrEnd(fuel, k, r, v, env, st, m);
    } else {
      GoodRecordCdrStep(fuel, k, fields, r, v, env, st, m);
      ListOfLengthAt(v, k, |fields|);
      if CdrN(v, k).Pair? {
        GoodRecordCdrTests(fuel - 1, k + 1, fields[1..], r, v, env, st, m);
      }
    }
  }

  /** A list of n > 0 elements k cdrs down is a pair whose cdr, one cdr
      further down, holds the other n - 1. */
  lemma ListOfLengthAt(v: Value, k: nat, n: nat)
    requires HasCdrs(v, k) && n > 0
    ensures !CdrN(v, k).Pair? ==> !ListOfLength(CdrN(v, k), n)
    ensures CdrN(v, k).Pair? ==>
              HasCdrs(v, k + 1) && ListOfLength(CdrN(v, k), n) == ListOfLength(CdrN(v, k + 1), n - 1)
  {
  }

  /** With no fields left, goodRecordCdr's code is the null? test. */
  lemma GoodRecordCdrEnd(fuel: nat, k: nat, r: Name, v: Value, env: Env, st: St, m: Machine)
    requires !m.tracing && PairPrims(m) && fuel >= k + 2
    requires Fetch(r, env, st) == Done(v, st) && HasCdrs(v, k)
    ensures Eval(fuel, GoodRecordCdr(Cdrs(k, Var(r)), []), env, st, m) == Done(Bool(ListOfLength(CdrN(v, k), 0)), st)
  {
    CdrsRead(fuel - 1, k, r, v, env, st, m);
    UnaryPrim(fuel, NullPTag, Cdrs(k, Var(r)), env, st, m);
  }

  /** One field of goodRecordCdr's code: #f unless the value k cdrs down is
      a pair, else the test of the remaining fields one cdr further down. */
  lemma GoodRecordCdrStep(fuel: nat, k: nat, fields: seq<Name>, r: Name, v: Value,
                          env: Env, st: St, m: Machine)
    requires !m.tracing && PairPrims(m) && fuel >= k + 3 && fields != []
    requires Fetch(r, env, st) == Done(v, st) && HasCdrs(v, k)
    ensures Eval(fuel, GoodRecordCdr(Cdrs(k, Var(r)), fields), env, st, m)
              == if CdrN(v, k).Pair? then Eval(fuel - 1, GoodRecordCdr(Cdrs(k + 1, Var(r)), fields[1..]), env, st, m)
                 else Done(Bool(false), st)
  {
    var here := Cdrs(k, Var(r));
    CdrsRead(fuel - 2, k, r, v, env, st, m);
    UnaryPrim(fuel - 1, PairPTag, here, env, st, m);
    assert CdrExp(here) == Cdrs(k + 1, Var(r));
    AndAlsoStep(fuel, PairPExp(here), GoodRecordCdr(Cdrs(k + 1, Var(r)), fields[1..]), env, st, m);
  }

  /** and_also's code: q runs after p only when p's value is true; otherwise
      the answer is #f in p's state. */
  lemma AndAlsoStep(fuel: nat, p: Exp, q: Exp, env: Env, st: St, m: Machine)
    requires fuel >= 2 && Eval(fuel - 1, p, env, st, m).Done?
    ensures var a := Eval(fuel - 1, p, env, st, m);
            Eval(fuel, AndAlso(p, q), env, st, m)
              == if IsTrue(a.val) then Eval(fuel - 1, q, env, a.st, m) else Done(Bool(false), a.st)
  {
  }

  /** A record value passes the length test of its own predicate, and a value
      whose tail is a list of another length does not. */
  lemma RecordPassesLengthTest(fuel: nat, rec: Name, fields: seq<Name>, v: Value, env: Env, st: St, m: Machine)
    requires !m.tracing && PairPrims(m) && fuel >= 2 * |fields| + 3
    requires Fetch("r", env, st) == Done(v, st) && v.Pair?
    ensures var r := Eval(fuel, GoodRecordCdr(CdrExp(Var("r")), fields), env, st, m);
            && (forall vs: seq<Value> | v == RecordValue(rec, vs) ::
                  r == Done(Bool(|vs| == |fields|), st))
  {
    assert CdrExp(Var("r")) == Cdrs(1, Var("r"));
    GoodRecordCdrTests(fuel, 1, fields, "r", v, env, st, m);
    forall vs: seq<Value> | v == RecordValue(rec, vs)
      ensures ListOfLength(ListValue(vs), |fields|) <==> |vs| == |fields|
    {
      ListValueLength(vs, |fields|);
    }
  }

  lemma {:induction false} ListValueLength(vs: seq<Value>, n: nat)
    ensures ListOfLength(ListValue(vs), n) <==> |vs| == n
    decreases n
  {
    if n > 0 && vs != [] {
      ListValueLength(vs[1..], n - 1);
    }
  }
}
