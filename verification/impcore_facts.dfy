/** Properties of the Impcore evaluator (impcore-with-locals/eval.c): the
    three-scope lookup and assignment against a single merged view, the scope
    shapes every evaluation preserves, what a call's frame holds, the checked
    arithmetic, and evaldef. */
module ImpcoreFacts {
  import opened Results
  import opened Int32Arith
  import opened ErrorFacility
  import opened Impcore

  /** The variables visible in a frame: a local hides a formal of the same
      name, and a formal hides a global. */
  function Visible(fr: Frame): Scope {
    fr.globals + fr.formals + fr.locals
  }

  /** Lookup through three scopes is lookup in the merged view. */
  lemma LookupIsVisible(x: Name, fr: Frame)
    ensures Lookup(x, fr).Some? <==> x in Visible(fr)
    ensures Lookup(x, fr).Some? ==> Lookup(x, fr).value == Visible(fr)[x]
  {
  }

  /** Assignment succeeds exactly for visible names, changes the merged view at
      that one name, and writes only the first scope that binds it. */
  lemma AssignIsVisibleUpdate(x: Name, v: Int32, fr: Frame)
    ensures Assign(x, v, fr).Some? <==> x in Visible(fr)
    ensures Assign(x, v, fr).Some? ==> Visible(Assign(x, v, fr).value) == Visible(fr)[x := v]
    ensures Assign(x, v, fr).Some? ==> SameShape(fr, Assign(x, v, fr).value)
    ensures x in fr.locals ==> Assign(x, v, fr) == Some(fr.(locals := fr.locals[x := v]))
    ensures x !in fr.locals && x in fr.formals ==> Assign(x, v, fr) == Some(fr.(formals := fr.formals[x := v]))
    ensures x !in fr.locals && x !in fr.formals && x in fr.globals ==>
              Assign(x, v, fr) == Some(fr.(globals := fr.globals[x := v]))
  {
    if x in Visible(fr) {
      AssignUpdatesView(x, v, fr);
    }
  }

  /** Assignment to a visible name changes the merged view at that name and
      nowhere else, and adds or removes no name in any scope. */
  lemma AssignUpdatesView(x: Name, v: Int32, fr: Frame)
    requires x in Visible(fr)
    ensures Assign(x, v, fr).Some?
    ensures Visible(Assign(x, v, fr).value) == Visible(fr)[x := v]
    ensures SameShape(fr, Assign(x, v, fr).value)
  {
    var g, f, l := fr.globals, fr.formals, fr.locals;
    var want := Visible(fr)[x := v];
    var fr2 := Assign(x, v, fr).value;
    if x in l {
      assert fr2 == fr.(locals := l[x := v]);
      MergeUpdate(g, f, l[x := v], want);
    } else if x in f {
      assert fr2 == fr.(formals := f[x := v]);
      MergeUpdate(g, f[x := v], l, want);
    } else {
      assert fr2 == fr.(globals := g[x := v]);
      MergeUpdate(g[x := v], f, l, want);
    }
  }

  /** Two maps are the same merged view when they agree name by name. */
  lemma MergeUpdate(g: Scope, f: Scope, l: Scope, want: Scope)
    requires forall y :: (y in g || y in f || y in l) <==> y in want
    requires forall y | y in want :: want[y] == (if y in l then l[y] else if y in f then f[y] else g[y])
    ensures g + f + l == want
  {
  }

  /** Two frames bind the same names in each scope. */
  predicate SameShape(fr1: Frame, fr2: Frame) {
    && fr1.globals.Keys == fr2.globals.Keys
    && fr1.formals.Keys == fr2.formals.Keys
    && fr1.locals.Keys == fr2.locals.Keys
  }

  /** Evaluation never creates or removes a variable: set only overwrites,
      and a call's scopes are thrown away when it returns. An error leaves the
      globals with the names they had. */
  predicate KeepsShape<T>(fr: Frame, r: Outcome<T>) {
    && (r.Done? ==> SameShape(fr, r.frame))
    && (r.Abort? ==> r.globals.Keys == fr.globals.Keys)
  }

  lemma {:induction false} EvalKeepsShape(fuel: nat, e: Exp, funs: FunEnv, fr: Frame)
    ensures KeepsShape(fr, Eval(fuel, e, funs, fr))
    decreases fuel, 0, 0
  {
    if fuel > 0 {
      var f := fuel - 1;
      match e
      case Literal(v) =>
      case Var(x) =>
      case Set(x, rhs) =>
        EvalKeepsShape(f, rhs, funs, fr);
        var r := Eval(f, rhs, funs, fr);
        if r.Done? {
          AssignIsVisibleUpdate(x, r.val, r.frame);
        }
      case If(c, t, el) =>
        EvalKeepsShape(f, c, funs, fr);
        var r := Eval(f, c, funs, fr);
        if r.Done? {
          EvalKeepsShape(f, t, funs, r.frame);
          EvalKeepsShape(f, el, funs, r.frame);
        }
      case While(c, body) => WhileKeepsShape(f, c, body, funs, fr);
      case Begin(es) => BeginKeepsShape(f, es, funs, fr, 0);
      case Apply(name, args) => ApplyKeepsShape(f, name, args, funs, fr);
    }
  }

  lemma {:induction false} WhileKeepsShape(fuel: nat, c: Exp, body: Exp, funs: FunEnv, fr: Frame)
    ensures KeepsShape(fr, EvalWhile(fuel, c, body, funs, fr))
    decreases fuel, 2, 0
  {
    if fuel > 0 {
      EvalKeepsShape(fuel, c, funs, fr);
      var r := Eval(fuel, c, funs, fr);
      if r.Done? && r.val != 0 {
        EvalKeepsShape(fuel, body, funs, r.frame);
        var b := Eval(fuel, body, funs, r.frame);
        if b.Done? {
          assert EvalWhile(fuel, c, body, funs, fr) == EvalWhile(fuel - 1, c, body, funs, b.frame);
          WhileKeepsShape(fuel - 1, c, body, funs, b.frame);
        }
      }
    }
  }

  lemma {:induction false} BeginKeepsShape(fuel: nat, es: seq<Exp>, funs: FunEnv, fr: Frame, last: Int32)
    ensures KeepsShape(fr, EvalBegin(fuel, es, funs, fr, last))
    decreases fuel, 1, |es|
  {
    if es != [] {
      EvalKeepsShape(fuel, es[0], funs, fr);
      var r := Eval(fuel, es[0], funs, fr);
      if r.Done? {
        BeginKeepsShape(fuel, es[1..], funs, r.frame, r.val);
      }
    }
  }

  lemma {:induction false} ListKeepsShape(fuel: nat, es: seq<Exp>, funs: FunEnv, fr: Frame)
    ensures KeepsShape(fr, EvalList(fuel, es, funs, fr))
    decreases fuel, 1, |es|
  {
    if es != [] {
      EvalKeepsShape(fuel, es[0], funs, fr);
      var r := Eval(fuel, es[0], funs, fr);
      if r.Done? {
        ListKeepsShape(fuel, es[1..], funs, r.frame);
      }
    }
  }

  lemma {:induction false} ApplyKeepsShape(fuel: nat, name: Name, args: seq<Exp>, funs: FunEnv, fr: Frame)
    ensures KeepsShape(fr, EvalApply(fuel, name, args, funs, fr))
    decreases fuel, 2, 0
  {
    if name in funs {
      ListKeepsShape(fuel, args, funs, fr);
      var a := EvalList(fuel, args, funs, fr);
      if a.Done? && funs[name].UserDef? {
        var u := funs[name];
        var callee := CallFrame(a.frame.globals, u.formals, u.locals, a.val);
        EvalKeepsShape(fuel, u.body, funs, callee);
      }
    }
  }

  /** mkValenv binds exactly the names listed, as far as there are values
      for them ... */
  lemma {:induction false} MkScopeKeys(xs: seq<Name>, vs: seq<Int32>)
    ensures forall x :: x in MkScope(xs, vs) <==> exists i | 0 <= i < |xs| && i < |vs| :: xs[i] == x
    decreases |xs|
  {
    if xs != [] && vs != [] {
      MkScopeKeys(xs[1..], vs[1..]);
      var m := MkScope(xs, vs);
      forall i | 0 <= i < |xs| && i < |vs| ensures xs[i] in m {
        if i > 0 {
          assert xs[1..][i - 1] == xs[i] && i - 1 < |vs[1..]|;
          assert xs[i] in MkScope(xs[1..], vs[1..]);
        }
      }
      forall x | x in m ensures exists i | 0 <= i < |xs| && i < |vs| :: xs[i] == x {
        if x == xs[0] {
          assert xs[0] == x;
        } else {
          assert x in MkScope(xs[1..], vs[1..]);
          var i :| 0 <= i < |xs[1..]| && i < |vs[1..]| && xs[1..][i] == x;
          assert xs[i + 1] == x;
        }
      }
    }
  }

  /** ... each bound to the value paired with its first occurrence. */
  lemma {:induction false} MkScopeValues(xs: seq<Name>, vs: seq<Int32>)
    ensures forall i | 0 <= i < |xs| && i < |vs| && (forall j | 0 <= j < i :: xs[j] != xs[i]) ::
              xs[i] in MkScope(xs, vs) && MkScope(xs, vs)[xs[i]] == vs[i]
    decreases |xs|
  {
    if xs != [] && vs != [] {
      MkScopeValues(xs[1..], vs[1..]);
      var m := MkScope(xs, vs);
      forall i | 0 <= i < |xs| && i < |vs| && (forall j | 0 <= j < i :: xs[j] != xs[i])
        ensures xs[i] in m && m[xs[i]] == vs[i]
      {
        if i > 0 {
          assert xs[0] != xs[i];
          assert xs[1..][i - 1] == xs[i] && vs[1..][i - 1] == vs[i];
          assert forall j | 0 <= j < i - 1 :: xs[1..][j] == xs[j + 1];
        }
      }
    }
  }

  /** The frame a call builds from distinct formals and as many actuals: the
      caller's globals, each formal bound to its actual, every declared local
      (and nothing else) bound to 0. */
  lemma CallFrameContents(globals: Scope, xs: seq<Name>, ls: seq<Name>, vs: seq<Int32>)
    requires Distinct(xs) && |xs| == |vs|
    ensures var cf := CallFrame(globals, xs, ls, vs);
            && cf.globals == globals
            && cf.formals.Keys == (set i | 0 <= i < |xs| :: xs[i])
            && (forall i | 0 <= i < |xs| :: cf.formals[xs[i]] == vs[i])
            && cf.locals.Keys == (set i | 0 <= i < |ls| :: ls[i])
            && (forall x | x in cf.locals :: cf.locals[x] == 0)
  {
    MkScopeKeys(xs, vs);
    MkScopeValues(xs, vs);
    var zs := Zeros(|ls|);
    MkScopeKeys(ls, zs);
    MkScopeValues(ls, zs);
    var cf := CallFrame(globals, xs, ls, vs);
    forall x | x in cf.locals ensures cf.locals[x] == 0 {
      var i :| 0 <= i < |ls| && i < |zs| && ls[i] == x;
      var k := FirstIndex(ls, i);
      assert cf.locals[ls[k]] == zs[k];
    }
  }

  /** The earliest position holding the same name as position i. */
  function FirstIndex(xs: seq<Name>, i: nat): (k: nat)
    requires i < |xs|
    ensures k <= i && xs[k] == xs[i]
    ensures forall j | 0 <= j < k :: xs[j] != xs[i]
  {
    if exists j | 0 <= j < i :: xs[j] == xs[i] then
      var j :| 0 <= j < i && xs[j] == xs[i];
      FirstIndex(xs, j)
    else i
  }

  /** A call to a name missing from the function table fails before any
      actual is evaluated. */
  lemma UndefinedFunctionFails(fuel: nat, name: Name, args: seq<Exp>, funs: FunEnv, fr: Frame)
    requires fuel > 0 && name !in funs
    ensures Eval(fuel, Apply(name, args), funs, fr) == Abort(UndefinedFunction(name), fr.globals)
  {
  }

  /** Calling a user function: after the actuals are evaluated, an arity
      mismatch is an error; otherwise the body runs in the call frame and the
      caller resumes with its own formals and locals and the globals the body
      left behind. */
  lemma UserCall(fuel: nat, name: Name, args: seq<Exp>, funs: FunEnv, fr: Frame)
    requires fuel > 0 && name in funs && funs[name].UserDef?
    requires EvalList(fuel - 1, args, funs, fr).Done?
    ensures var u := funs[name];
            var a := EvalList(fuel - 1, args, funs, fr);
            var r := Eval(fuel, Apply(name, args), funs, fr);
            && (|u.formals| != |a.val| ==>
                  r == Abort(WrongArgCount(ArgcError(|u.formals|, |a.val|,
                                                     if |u.formals| == 1 then "argument" else "arguments")),
                             a.frame.globals))
            && (|u.formals| == |a.val| ==>
                  var b := Eval(fuel - 1, u.body, funs, CallFrame(a.frame.globals, u.formals, u.locals, a.val));
                  && r.Done? == b.Done?
                  && (r.Done? ==> r.val == b.val && r.frame.formals == a.frame.formals
                                  && r.frame.locals == a.frame.locals && r.frame.globals == b.frame.globals)
                  && (r.Abort? ==> r == b))
  {
    var u := funs[name];
    var a := EvalList(fuel - 1, args, funs, fr);
    var c := CheckArgc(|u.formals|, |a.val|);
    if c.Some? {
      assert c.value.noun == "argument" || c.value.noun == "arguments";
    }
  }

  /** if treats 0 as false and every other value as true. */
  lemma IfTestsNonzero(fuel: nat, c: Exp, t: Exp, el: Exp, funs: FunEnv, fr: Frame)
    requires fuel > 0 && Eval(fuel - 1, c, funs, fr).Done?
    ensures var cv := Eval(fuel - 1, c, funs, fr);
            Eval(fuel, If(c, t, el), funs, fr)
              == Eval(fuel - 1, if cv.val == 0 then el else t, funs, cv.frame)
  {
  }

  /** A while loop that finishes returns 0. */
  lemma {:induction false} WhileReturnsZero(fuel: nat, c: Exp, body: Exp, funs: FunEnv, fr: Frame)
    ensures var r := EvalWhile(fuel, c, body, funs, fr); r.Done? ==> r.val == 0
    decreases fuel
  {
    if fuel > 0 {
      var r := Eval(fuel, c, funs, fr);
      if r.Done? && r.val != 0 {
        var b := Eval(fuel, body, funs, r.frame);
        if b.Done? {
          WhileReturnsZero(fuel - 1, c, body, funs, b.frame);
        }
      }
    }
  }

  /** begin returns its last expression's value, evaluated after the others;
      an empty begin returns 0. */
  lemma {:induction false} BeginLast(fuel: nat, es: seq<Exp>, e: Exp, funs: FunEnv, fr: Frame, last: Int32)
    ensures EvalBegin(fuel, [], funs, fr, last) == Done(last, fr)
    ensures EvalBegin(fuel, es + [e], funs, fr, last)
            == match EvalBegin(fuel, es, funs, fr, last)
               case Abort(err, g) => Abort(err, g)
               case Done(_, fr1) => Eval(fuel, e, funs, fr1)
    decreases |es|
  {
    if es == [] {
      assert es + [e] == [e];
      assert [e][1..] == [];
    } else {
      assert (es + [e])[1..] == es[1..] + [e];
      match Eval(fuel, es[0], funs, fr)
      case Abort(err, g) =>
      case Done(v, fr1) => BeginLast(fuel, es[1..], e, funs, fr1, v);
    }
  }

  /** set evaluates its right-hand side first; an unbound target is an error
      raised afterwards, so the rhs's effects on the globals stand. */
  lemma SetAfterRhs(fuel: nat, x: Name, rhs: Exp, funs: FunEnv, fr: Frame)
    requires fuel > 0 && Eval(fuel - 1, rhs, funs, fr).Done?
    ensures var rv := Eval(fuel - 1, rhs, funs, fr);
            var r := Eval(fuel, Set(x, rhs), funs, fr);
            && (x !in Visible(rv.frame) ==> r == Abort(SetUnbound(x), rv.frame.globals))
            && (x in Visible(rv.frame) ==>
                  r.Done? && r.val == rv.val && Visible(r.frame) == Visible(rv.frame)[x := rv.val])
  {
    var rv := Eval(fuel - 1, rhs, funs, fr);
    AssignIsVisibleUpdate(x, rv.val, rv.frame);
  }

  /** The arithmetic primitives are checked: the result is the exact one when
      it fits in 32 bits and an overflow error when it does not. */
  lemma AddSubMulChecked(op: ArithOp, v: Int32, w: Int32)
    requires op == Plus || op == Minus || op == Times
    ensures var exact := if op == Plus then v + w else if op == Minus then v - w else v * w;
            && (InInt32(exact) ==> ApplyPrim(Arith(op), [v, w]) == Success(exact))
            && (!InInt32(exact) ==> ApplyPrim(Arith(op), [v, w]) == Failure(ArithOverflow(op, v, w)))
  {
  }

  /** Division rounds toward zero; dividing by 0 is an error, and so is the
      one overflowing quotient, INT32_MIN / -1. */
  lemma DivideChecked(v: Int32, w: Int32)
    ensures w == 0 ==> ApplyPrim(Arith(Divide), [v, w]) == Failure(DivisionByZero)
    ensures w != 0 && v == INT32_MIN && w == -1 ==>
              ApplyPrim(Arith(Divide), [v, w]) == Failure(ArithOverflow(Divide, v, w))
    ensures w != 0 && !(v == INT32_MIN && w == -1) ==>
              && ApplyPrim(Arith(Divide), [v, w]).Success?
              && Abs(ApplyPrim(Arith(Divide), [v, w]).value) == Abs(v) / Abs(w)
  {
    if w != 0 {
      TruncDivOverflow(v, w);
    }
  }

  /** The comparisons never fail on two arguments and return 1 for true, 0
      for false. */
  lemma ComparisonsAreBoolean(v: Int32, w: Int32)
    ensures ApplyPrim(Arith(Less), [v, w]) == Success(if v < w then 1 else 0)
    ensures ApplyPrim(Arith(Greater), [v, w]) == Success(if v > w then 1 else 0)
    ensures ApplyPrim(Arith(Equal), [v, w]) == Success(if v == w then 1 else 0)
  {
  }

  /** print, println and printu return their one argument. */
  lemma PrintReturnsArgument(op: PrimOp, v: Int32)
    requires op == Print || op == Println || op == Printu
    ensures ApplyPrim(op, [v]) == Success(v)
  {
  }

  /** val: the value is bound in the globals (replacing any old binding), on
      top of whatever the expression did to them; nothing else is defined. */
  lemma ValBindsGlobal(fuel: nat, x: Name, e: Exp, globals: Scope, funs: FunEnv)
    ensures var r := Eval(fuel, e, funs, Frame(globals, map[], map[]));
            var d := EvalDef(fuel, Val(x, e), globals, funs);
            && (r.Done? ==> d.Defined? && d.funs == funs && x in d.globals && d.globals[x] == r.val
                            && d.globals.Keys == globals.Keys + {x}
                            && (forall y | y in d.globals && y != x :: d.globals[y] == r.frame.globals[y]))
            && (r.Abort? ==> d == DefFailed(r.err, r.globals))
  {
    EvalKeepsShape(fuel, e, funs, Frame(globals, map[], map[]));
  }

  /** A bare expression's value is bound to `it`; the other globals keep
      what the expression left in them, and an error is passed on as is. */
  lemma ExpBindsIt(fuel: nat, e: Exp, globals: Scope, funs: FunEnv)
    ensures var r := Eval(fuel, e, funs, Frame(globals, map[], map[]));
            var d := EvalDef(fuel, ExpDef(e), globals, funs);
            && (r.Done? ==> d.Defined? && d.funs == funs && "it" in d.globals && d.globals["it"] == r.val
                            && d.globals.Keys == globals.Keys + {"it"}
                            && (forall y | y in d.globals && y != "it" :: d.globals[y] == r.frame.globals[y]))
            && (r.Abort? ==> d == DefFailed(r.err, r.globals))
  {
    EvalKeepsShape(fuel, e, funs, Frame(globals, map[], map[]));
  }

  /** define is refused exactly when a formal repeats, naming the earliest
      repeating formal; otherwise it binds or replaces the function and
      leaves the globals alone. */
  lemma DefineChecksFormals(fuel: nat, name: Name, uf: Fun, globals: Scope, funs: FunEnv)
    requires uf.UserDef?
    ensures var d := EvalDef(fuel, Define(name, uf), globals, funs);
            && (d.DefFailed? <==> !Distinct(uf.formals))
            && (d.DefFailed? ==> d.failedGlobals == globals && d.err.DuplicateFormal?
                                 && d.err.inFunction == name
                                 && exists i, j | 0 <= i < j < |uf.formals| ::
                                      uf.formals[i] == d.err.formal && uf.formals[j] == d.err.formal)
            && (d.Defined? ==> d.globals == globals && d.funs == funs[name := uf])
  {
    DuplicateNameNoneIffDistinct(uf.formals);
    if DuplicateName(uf.formals).Some? {
      DuplicateNameIsEarliest(uf.formals);
    }
  }
}
