/** The stack-trace counter of uscheme-ms/stack-debug.c: a countdown, held in
    the value of a variable the tracer points at, and two tick counters, one
    for expressions shown and one for values shown. Tracing prints while the
    countdown is nonzero; the printing itself is not modelled. */
module StackDebug {
  import opened Results

  /** The tracer's state: the two ticks and the countdown the count pointer
      reaches (None when the pointer is NULL). */
  datatype Ticks = Ticks(etick: int, vtick: int, count: Option<int>)

  /** stack_trace_init: both ticks zero and the count pointer recorded. */
  function Init(count: Option<int>): Ticks {
    Ticks(0, 0, count)
  }

  /** The guard both trace functions test: a count pointer whose target is nonzero. */
  predicate Active(t: Ticks) {
    t.count.Some? && t.count.value != 0
  }

  /** stack_trace_current_expression: when active, one step off the countdown
      and one more expression tick; otherwise nothing changes. */
  function CurrentExpression(t: Ticks): (r: Ticks)
    ensures !Active(t) ==> r == t
    ensures Active(t) ==> r.count == Some(t.count.value - 1) && r.etick == t.etick + 1 && r.vtick == t.vtick
  {
    if Active(t) then Ticks(t.etick + 1, t.vtick, Some(t.count.value - 1)) else t
  }

  /** stack_trace_current_value: the same with the value tick. */
  function CurrentValue(t: Ticks): (r: Ticks)
    ensures !Active(t) ==> r == t
    ensures Active(t) ==> r.count == Some(t.count.value - 1) && r.vtick == t.vtick + 1 && r.etick == t.etick
  {
    if Active(t) then Ticks(t.etick, t.vtick + 1, Some(t.count.value - 1)) else t
  }

  /** What the stack-based evaluator reports to the tracer, in order. */
  datatype Event = ExpEvent | ValEvent

  function Step(t: Ticks, e: Event): Ticks {
    match e
    case ExpEvent => CurrentExpression(t)
    case ValEvent => CurrentValue(t)
  }

  /** The tracer's state after a run of events. */
  function Run(t: Ticks, evs: seq<Event>): Ticks
    decreases |evs|
  {
    if evs == [] then t else Run(Step(t, evs[0]), evs[1..])
  }

  /** The number of expression events in evs. */
  function ExpCount(evs: seq<Event>): nat {
    if evs == [] then 0 else (if evs[0] == ExpEvent then 1 else 0) + ExpCount(evs[1..])
  }

  function Min(a: int, b: int): int {
    if a < b then a else b
  }

  /** Every event the tracer takes costs exactly one step of the countdown:
      ticks gained plus the count lost are always equal. */
  lemma {:induction false} TicksConserveCount(t: Ticks, evs: seq<Event>)
    requires t.count.Some?
    ensures var r := Run(t, evs);
            r.count.Some? && r.etick + r.vtick + r.count.value == t.etick + t.vtick + t.count.value
    decreases |evs|
  {
    if evs != [] {
      TicksConserveCount(Step(t, evs[0]), evs[1..]);
    }
  }

  /** A NULL count pointer makes the tracer inert. */
  lemma {:induction false} NullPointerIsInert(t: Ticks, evs: seq<Event>)
    requires t.count.None?
    ensures Run(t, evs) == t
    decreases |evs|
  {
    if evs != [] {
      NullPointerIsInert(Step(t, evs[0]), evs[1..]);
    }
  }

  /** Starting from a countdown of n >= 0, the tracer shows exactly the first
      min(n, |evs|) events, ticking etick for the expressions among them and
      vtick for the values, and stops at zero. */
  lemma {:induction false} CountdownShowsFirstN(n: int, evs: seq<Event>)
    requires n >= 0
    ensures var k := Min(n, |evs|);
            var r := Run(Init(Some(n)), evs);
            && r.count == Some(n - k)
            && r.etick == ExpCount(evs[..k])
            && r.vtick == k - ExpCount(evs[..k])
  {
    ShowsFirstN(Init(Some(n)), evs);
  }

  lemma {:induction false} ShowsFirstN(t: Ticks, evs: seq<Event>)
    requires t.count.Some? && t.count.value >= 0
    ensures var k := Min(t.count.value, |evs|);
            var r := Run(t, evs);
            && r.count == Some(t.count.value - k)
            && r.etick == t.etick + ExpCount(evs[..k])
            && r.vtick == t.vtick + k - ExpCount(evs[..k])
    decreases |evs|
  {
    var n := t.count.value;
    if evs == [] {
      assert evs[..0] == [];
    } else if n == 0 {
      NotActiveStays(t, evs);
      assert evs[..0] == [];
    } else {
      var t1 := Step(t, evs[0]);
      ShowsFirstN(t1, evs[1..]);
      var k := Min(n, |evs|);
      assert evs[..k][1..] == evs[1..][..k - 1];
      assert evs[..k][0] == evs[0];
    }
  }

  /** Once the countdown is at zero nothing changes any more. */
  lemma {:induction false} NotActiveStays(t: Ticks, evs: seq<Event>)
    requires !Active(t)
    ensures Run(t, evs) == t
    decreases |evs|
  {
    if evs != [] {
      NotActiveStays(Step(t, evs[0]), evs[1..]);
    }
  }

  /** A negative countdown never reaches zero by decrements, so every event
      is shown. */
  lemma {:induction false} NegativeCountShowsAll(t: Ticks, evs: seq<Event>)
    requires t.count.Some? && t.count.value < 0
    ensures var r := Run(t, evs);
            && r.count == Some(t.count.value - |evs|)
            && r.etick == t.etick + ExpCount(evs)
            && r.vtick == t.vtick + |evs| - ExpCount(evs)
    decreases |evs|
  {
    if evs != [] {
      NegativeCountShowsAll(Step(t, evs[0]), evs[1..]);
    }
  }
}
