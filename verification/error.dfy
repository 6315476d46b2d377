/** The error facility of uscheme-trace/error.c: the NORMAL/TESTING mode, the
    control effect of runerror and synerror (where control lands, what happens
    to traceindent and to the message buffer), the arity check and the
    duplicate-name finder. The non-local jump itself is modelled by the
    evaluators returning an abort; the functions here say what the facility
    does once an error is signalled. */
module ErrorFacility {
  import opened Results

  type Name = string

  datatype ErrorMode = Normal | Testing

  /** The C enum's codes, in declaration order: NORMAL is 0, TESTING is 1. */
  function ModeOfCode(code: int): Option<ErrorMode> {
    if code == 0 then Some(Normal) else if code == 1 then Some(Testing) else None
  }

  /** A failed C `assert`, which ends the process. */
  datatype Crash = AssertionFailure

  /** set_error_mode: only the codes of NORMAL and TESTING pass the assertion. */
  function SetErrorMode(code: int): (r: Result<ErrorMode, Crash>)
    ensures r.Success? <==> (code == 0 || code == 1)
    ensures r == Success(Normal) <==> code == 0
    ensures r == Success(Testing) <==> code == 1
  {
    match ModeOfCode(code)
    case Some(m) => Success(m)
    case None => Failure(AssertionFailure)
  }

  /** The global state the facility reads and writes. */
  datatype ErrState = ErrState(mode: ErrorMode, traceindent: int, errorbuf: string)

  /** The two recovery points: `errorjmp` at top level, `testjmp` in the unit-test runner. */
  datatype Landing = TopLevel | TestHarness

  /** Where control lands, the facility's state afterwards, and the diagnostic
      written to stderr (None when nothing is written). */
  datatype Raised = Raised(landing: Landing, after: ErrState, diagnostic: Option<string>)

  /** runerror with an already formatted message `msg`. The message is first
      appended to the error buffer; NORMAL mode then reports it, empties the
      buffer, zeroes traceindent and lands at top level; TESTING mode lands in
      the test harness with traceindent as it was and the buffer still holding
      the message, for the harness to inspect. */
  function RunError(st: ErrState, msg: string): (r: Raised)
    ensures st.mode == Normal ==>
      && r.landing == TopLevel
      && r.after == ErrState(Normal, 0, "")
      && r.diagnostic == Some("Run-time error: " + (st.errorbuf + msg))
    ensures st.mode == Testing ==>
      && r.landing == TestHarness
      && r.after.mode == Testing
      && r.after.traceindent == st.traceindent
      && r.after.errorbuf == st.errorbuf + msg
      && r.diagnostic == None
  {
    var buf := st.errorbuf + msg;
    match st.mode
    case Normal => Raised(TopLevel, ErrState(Normal, 0, ""), Some("Run-time error: " + buf))
    case Testing => Raised(TestHarness, st.(errorbuf := buf), None)
  }

  /** synerror with a formatted message and the source-location prefix already
      chosen by the caller. It may only be called in NORMAL mode (otherwise
      the C `assert(0)` fires); it zeroes traceindent, lands at top level and
      does not touch the runtime error buffer. */
  function SynError(st: ErrState, located: string): (r: Result<Raised, Crash>)
    ensures r.Success? <==> st.mode == Normal
    ensures r.Success? ==>
      && r.value.landing == TopLevel
      && r.value.after == st.(traceindent := 0)
      && r.value.diagnostic == Some(located)
  {
    match st.mode
    case Normal => Success(Raised(TopLevel, st.(traceindent := 0), Some(located)))
    case Testing => Failure(AssertionFailure)
  }

  /** The part of checkargc's message that depends on the counts. */
  datatype ArgcError = ArgcError(expected: int, actual: int, noun: string)

  /** checkargc: an error exactly when the counts differ; the message says
      "argument" for an expected count of one and "arguments" otherwise. */
  function CheckArgc(expected: int, actual: int): (r: Option<ArgcError>)
    ensures r.None? <==> expected == actual
    ensures r.Some? ==> r.value.expected == expected && r.value.actual == actual
    ensures r.Some? ==> (r.value.noun == "argument" <==> expected == 1)
    ensures r.Some? ==> (r.value.noun == "arguments" <==> expected != 1)
  {
    if expected != actual then
      Some(ArgcError(expected, actual, "argument" + (if expected == 1 then "" else "s")))
    else None
  }

  /** No name occurs twice. */
  predicate Distinct(xs: seq<Name>) {
    forall i, j | 0 <= i < j < |xs| :: xs[i] != xs[j]
  }

  /** Position i holds a name that occurs again later in the list. */
  predicate RepeatsLater(xs: seq<Name>, i: int)
    requires 0 <= i < |xs|
  {
    xs[i] in xs[i + 1..]
  }

  /** duplicatename: the first name, in list order, that occurs again further on. */
  function DuplicateName(xs: seq<Name>): (r: Option<Name>)
    ensures r.Some? ==> r.value in xs
  {
    if xs == [] then None
    else if xs[0] in xs[1..] then Some(xs[0])
    else DuplicateName(xs[1..])
  }

  /** duplicatename returns NULL exactly when the names are pairwise distinct. */
  lemma {:induction false} DuplicateNameNoneIffDistinct(xs: seq<Name>)
    ensures DuplicateName(xs).None? <==> Distinct(xs)
  {
    if xs != [] {
      DuplicateNameNoneIffDistinct(xs[1..]);
      if xs[0] in xs[1..] {
        var j :| 0 <= j < |xs[1..]| && xs[1..][j] == xs[0];
        assert xs[0] == xs[j + 1];
      } else if Distinct(xs[1..]) {
        forall i, j | 0 <= i < j < |xs|
          ensures xs[i] != xs[j]
        {
          if i == 0 {
            assert xs[j] == xs[1..][j - 1];
          } else {
            assert xs[i] == xs[1..][i - 1] && xs[j] == xs[1..][j - 1];
          }
        }
      } else {
        var i, j :| 0 <= i < j < |xs[1..]| && xs[1..][i] == xs[1..][j];
        assert xs[i + 1] == xs[j + 1];
      }
    }
  }

  /** The name duplicatename reports sits at the earliest position whose name
      repeats later, and so occurs at least twice. */
  lemma {:induction false} DuplicateNameIsEarliest(xs: seq<Name>)
    requires DuplicateName(xs).Some?
    ensures exists i, j | 0 <= i < j < |xs| ::
              && xs[i] == DuplicateName(xs).value
              && xs[j] == DuplicateName(xs).value
              && forall k | 0 <= k < i :: !RepeatsLater(xs, k)
  {
    var n := DuplicateName(xs).value;
    if xs[0] in xs[1..] {
      var j :| 0 <= j < |xs[1..]| && xs[1..][j] == xs[0];
      assert xs[0] == n && xs[j + 1] == n;
    } else {
      DuplicateNameIsEarliest(xs[1..]);
      var ys := xs[1..];
      var i, j :| 0 <= i < j < |ys| && ys[i] == n && ys[j] == n
                  && forall k | 0 <= k < i :: !RepeatsLater(ys, k);
      assert xs[i + 1] == n && xs[j + 1] == n;
      forall k | 0 <= k < i + 1
        ensures !RepeatsLater(xs, k)
      {
        if k > 0 {
          assert !RepeatsLater(ys, k - 1);
          assert xs[k + 1..] == ys[k..];
        }
      }
    }
  }
}
