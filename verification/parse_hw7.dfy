/** The earlier uScheme parser (typesys uscheme/parse.c). Its exp_of_atom,
    parsesx, duplicate checks and namecat are the same code as in the
    tracing interpreter and are modelled once, in SchemeParse; what differs
    is let: desugarLet is a stub that always raises a run-time error, so
    desugarLetStar as defined can only succeed on an empty binding list.
    reduce_to_exp calls neither (let* goes to mkLetx), so these are
    statements about the two functions, not about programs. */
module SchemeParseHw7 {
  import opened Results
  import opened SchemeValue
  import SchemeDesugar

  /** How the stub-era let desugaring fails: the C assertion on unequal
      lists, or runerror's "desugaring for LET never got implemented". */
  datatype LetError = AssertionFailed | LetNotImplemented

  /** desugarLet as written in this version: always an error. */
  function DesugarLetStub(xs: seq<Name>, es: seq<Exp>, body: Exp): Result<Exp, LetError> {
    Failure(LetNotImplemented)
  }

  /** desugarLetStar: the rest of the bindings is desugared first (it is an
      argument of the call), then the stub is called on the first binding. */
  function DesugarLetStar(xs: seq<Name>, es: seq<Exp>, body: Exp): Result<Exp, LetError>
    decreases |xs|
  {
    if xs == [] || es == [] then
      if xs == [] && es == [] then Success(body) else Failure(AssertionFailed)
    else
      match DesugarLetStar(xs[1..], es[1..], body)
      case Failure(e) => Failure(e)
      case Success(inner) => DesugarLetStub([xs[0]], [es[0]], inner)
  }

  /** Only the empty let* desugars; lists of unequal length trip the
      assertion before the stub is ever reached; any other let* reaches the
      stub's run-time error. */
  lemma {:induction false} LetStarOutcomes(xs: seq<Name>, es: seq<Exp>, body: Exp)
    ensures DesugarLetStar(xs, es, body).Success? <==> xs == [] && es == []
    ensures xs == [] && es == [] ==> DesugarLetStar(xs, es, body) == Success(body)
    ensures |xs| != |es| ==> DesugarLetStar(xs, es, body) == Failure(AssertionFailed)
    ensures |xs| == |es| > 0 ==> DesugarLetStar(xs, es, body) == Failure(LetNotImplemented)
    decreases |xs|
  {
    if xs != [] && es != [] {
      LetStarOutcomes(xs[1..], es[1..], body);
    }
  }

  /** Where this version succeeds, it agrees with the later one. */
  lemma LetStarAgreesWithLater(xs: seq<Name>, es: seq<Exp>, body: Exp)
    requires DesugarLetStar(xs, es, body).Success?
    ensures SchemeDesugar.DesugarLetStar(xs, es, body) == Success(body)
    ensures DesugarLetStar(xs, es, body) == Success(body)
  {
    LetStarOutcomes(xs, es, body);
  }
}
