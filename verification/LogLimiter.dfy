// pkg/client/client.go: logLimiter.allow, one atomic operation at a time.
//
// Each call works on the one cell its flag and reason hash to, so one cell is modelled,
// with any number of threads calling. A run is any sequence of the steps below; a step that
// is not enabled leaves the state alone.
module LogLimiter {
  import opened Core

  const SECOND := 1_000_000_000

  function NewInterval(d: int): (interval: int)
    ensures interval > 0 && (d > 0 ==> interval == d) && (d <= 0 ==> interval == 1_000_000_000)
  {
    if d <= 0 then SECOND else d
  }

  datatype Stage = Loading | Loaded(next: int) | Admitted

  /** One call in progress. `first` is what it loaded first, `retries` its failed swaps. */
  datatype Call = Call(now: int, stage: Stage, first: Option<int>, retries: nat)

  /**
   * `finished` counts the calls that returned and `accounted` adds up what they returned;
   * `admitted` lists the timestamps let through, in the order of their compare-and-swaps.
   */
  datatype State = State(
    next: int, suppressed: nat, calls: map<nat, Call>, finished: nat, accounted: nat, admitted: seq<int>)

  const INITIAL := State(0, 0, map[], 0, 0, [])

  datatype Event =
    | Begin(id: nat, now: int)
    | Load(id: nat)
    | Suppress(id: nat)
    | CompareAndSwap(id: nat)
    | SwapOut(id: nat)

  predicate Enabled(s: State, e: Event) {
    match e
    case Begin(id, now) => id !in s.calls && IsInt64(now)
    case Load(id) => id in s.calls && s.calls[id].stage.Loading?
    case Suppress(id) => id in s.calls && s.calls[id].stage.Loaded? && s.calls[id].now < s.calls[id].stage.next
    case CompareAndSwap(id) =>
      id in s.calls && s.calls[id].stage.Loaded? && s.calls[id].now >= s.calls[id].stage.next
    case SwapOut(id) => id in s.calls && s.calls[id].stage.Admitted?
  }

  function With(s: State, id: nat, c: Call): State { s.(calls := s.calls[id := c]) }

  /** The call returns, standing for `sampledOf` events. */
  function Return(s: State, id: nat, sampledOf: nat): State {
    s.(calls := s.calls - {id}, finished := s.finished + 1, accounted := s.accounted + sampledOf)
  }

  function Step(s: State, e: Event, interval: int): State {
    if !Enabled(s, e) then s
    else
      match e
      case Begin(id, now) => With(s, id, Call(now, Loading, None, 0))
      case Load(id) =>
        var c := s.calls[id];
        With(s, id, c.(stage := Loaded(s.next), first := if c.first.Some? then c.first else Some(s.next)))
      case Suppress(id) => Return(s.(suppressed := s.suppressed + 1), id, 0)
      case CompareAndSwap(id) =>
        var c := s.calls[id];
        if s.next == c.stage.next then
          With(s, id, c.(stage := Admitted)).(next := Wrap64(c.now + interval), admitted := s.admitted + [c.now])
        else With(s, id, c.(stage := Loading, retries := c.retries + 1))
      case SwapOut(id) => Return(s.(suppressed := 0), id, s.suppressed + 1)
  }

  function Run(events: seq<Event>, interval: int): State {
    if events == [] then INITIAL else Step(Run(events[..|events| - 1], interval), events[|events| - 1], interval)
  }

  // ---- Every call is accounted for -------------------------------------------------

  /** What has been reported, and what is still held back, is every call that returned. */
  lemma {:induction false} EveryCallIsAccountedFor(events: seq<Event>, interval: int)
    ensures var s := Run(events, interval); s.accounted + s.suppressed == s.finished
  {
    if events != [] {
      EveryCallIsAccountedFor(events[..|events| - 1], interval);
    }
  }

  // ---- Runs ------------------------------------------------------------------------

  lemma RunSnoc(events: seq<Event>, e: Event, interval: int)
    ensures Run(events + [e], interval) == Step(Run(events, interval), e, interval)
  {
    assert (events + [e])[..|events|] == events;
  }

  /** Admissions are only ever appended. */
  lemma {:induction false} AdmissionsGrow(events: seq<Event>, more: seq<Event>, interval: int)
    ensures Run(events, interval).admitted <= Run(events + more, interval).admitted
    decreases |more|
  {
    if more == [] {
      assert events + more == events;
    } else {
      var n := |more| - 1;
      assert events + more == (events + more[..n]) + [more[n]];
      RunSnoc(events + more[..n], more[n], interval);
      AdmissionsGrow(events, more[..n], interval);
    }
  }

  // ---- Spacing ---------------------------------------------------------------------

  /** The swap of call `id` is about to succeed. */
  predicate SwapSucceeds(s: State, id: nat) {
    Enabled(s, CompareAndSwap(id)) && s.next == s.calls[id].stage.next
  }

  /** Each admission waited for the deadline before it, whatever int64 that was. */
  predicate Waits(admitted: seq<int>, interval: int) {
    forall i | 0 < i < |admitted| :: admitted[i] >= Wrap64(admitted[i - 1] + interval)
  }

  lemma WaitsAppends(admitted: seq<int>, now: int, interval: int)
    requires Waits(admitted, interval)
    requires admitted != [] ==> now >= Wrap64(admitted[|admitted| - 1] + interval)
    ensures Waits(admitted + [now], interval)
  {
  }

  /** What every run keeps, wrapped deadlines included. */
  predicate DeadlineOk(s: State, interval: int) {
    && (s.next == if s.admitted == [] then 0 else Wrap64(s.admitted[|s.admitted| - 1] + interval))
    && Waits(s.admitted, interval)
    && (forall i | 0 <= i < |s.admitted| :: IsInt64(s.admitted[i]))
    && (forall id | id in s.calls :: IsInt64(s.calls[id].now))
  }

  lemma SwapKeepsDeadlineOk(s: State, id: nat, interval: int)
    requires DeadlineOk(s, interval) && SwapSucceeds(s, id)
    ensures DeadlineOk(Step(s, CompareAndSwap(id), interval), interval)
  {
    var now, t := s.calls[id].now, Step(s, CompareAndSwap(id), interval);
    assert t.admitted == s.admitted + [now] && now >= s.next;
    WaitsAppends(s.admitted, now, interval);
  }

  lemma StepKeepsDeadlineOk(s: State, e: Event, interval: int)
    requires DeadlineOk(s, interval)
    ensures DeadlineOk(Step(s, e, interval), interval)
  {
    if e.CompareAndSwap? && SwapSucceeds(s, e.id) {
      SwapKeepsDeadlineOk(s, e.id, interval);
    } else {
      assert Step(s, e, interval).admitted == s.admitted && Step(s, e, interval).next == s.next;
    }
  }

  /** In every run each admission waited for the deadline the one before it set, as an int64. */
  lemma {:induction false} EveryRunKeepsDeadlines(events: seq<Event>, interval: int)
    ensures DeadlineOk(Run(events, interval), interval)
  {
    if events != [] {
      EveryRunKeepsDeadlines(events[..|events| - 1], interval);
      StepKeepsDeadlineOk(Run(events[..|events| - 1], interval), events[|events| - 1], interval);
    }
  }

  predicate Spaced(admitted: seq<int>, interval: int) {
    forall i | 0 < i < |admitted| :: admitted[i] >= admitted[i - 1] + interval
  }

  /** Every admission that another one follows set a deadline that fits in an int64. */
  predicate DeadlinesFit(admitted: seq<int>, interval: int) {
    forall i | 0 <= i < |admitted| - 1 :: admitted[i] + interval <= MAX_INT64
  }

  /**
   * Successive admitted timestamps are at least an interval apart if and only if every
   * deadline that was waited for fits in an int64. Calls that were not admitted do not
   * matter.
   */
  lemma AdmissionsAreSpaced(events: seq<Event>, interval: int)
    requires interval > 0
    ensures var a := Run(events, interval).admitted; Spaced(a, interval) <==> DeadlinesFit(a, interval)
  {
    EveryRunKeepsDeadlines(events, interval);
    var a := Run(events, interval).admitted;
    if DeadlinesFit(a, interval) {
      forall i | 0 < i < |a| ensures a[i] >= a[i - 1] + interval {
        assert a[i - 1] + interval <= MAX_INT64;
      }
    }
    if Spaced(a, interval) {
      forall i | 0 <= i < |a| - 1 ensures a[i] + interval <= MAX_INT64 {
        assert a[i + 1] >= a[i + 1 - 1] + interval;
      }
    }
  }

  /** Two calls whose clocks read the largest int64 are both admitted at once. */
  lemma WrappedDeadlinesAdmitTwice()
    ensures exists events ::
              var a := Run(events, 1).admitted; a == [MAX_INT64, MAX_INT64] && !Spaced(a, 1)
  {
    var first := [Begin(0, MAX_INT64), Load(0), CompareAndSwap(0)];
    assert [] + first == first;
    assert Run([], 1) == INITIAL;
    var s := CallsThrough([], 0, MAX_INT64, 1);
    assert Run(first, 1).calls.Keys == {0} && 1 !in Run(first, 1).calls.Keys;
    var t := CallsThrough(first, 1, MAX_INT64, 1);
    var both := first + [Begin(1, MAX_INT64), Load(1), CompareAndSwap(1)];
    assert Run(both, 1).admitted == [MAX_INT64, MAX_INT64];
    assert Run(both, 1).admitted[1] < Run(both, 1).admitted[0] + 1;
  }

  /** A new call whose clock has reached the deadline, run to its swap, is admitted. */
  lemma CallsThrough(events: seq<Event>, id: nat, now: int, interval: int) returns (t: State)
    requires id !in Run(events, interval).calls && IsInt64(now) && now >= Run(events, interval).next
    ensures t == Run(events + [Begin(id, now), Load(id), CompareAndSwap(id)], interval)
    ensures t.admitted == Run(events, interval).admitted + [now]
    ensures t.next == Wrap64(now + interval)
    ensures t.calls.Keys == Run(events, interval).calls.Keys + {id}
  {
    var s := Run(events, interval);
    RunSnoc(events, Begin(id, now), interval);
    RunSnoc(events + [Begin(id, now)], Load(id), interval);
    RunSnoc(events + [Begin(id, now)] + [Load(id)], CompareAndSwap(id), interval);
    assert events + [Begin(id, now)] + [Load(id)] + [CompareAndSwap(id)]
           == events + [Begin(id, now), Load(id), CompareAndSwap(id)];
    t := Run(events + [Begin(id, now), Load(id), CompareAndSwap(id)], interval);
  }

  /** Whatever happens next, the admission after number `n` is not before `deadline`. */
  ghost predicate NextAdmissionFrom(events: seq<Event>, interval: int, n: nat, deadline: int) {
    forall more ::
      var a := Run(events + more, interval).admitted; |a| > n + 1 ==> a[n + 1] >= deadline
  }

  /**
   * Exactly how late a clock may be: in every reachable state, a swap that succeeds at `t`
   * keeps the next admission of every continuation at `t + interval` or later if and only
   * if `t + interval` fits in an int64.
   */
  lemma SpacingIsExact(events: seq<Event>, interval: int, id: nat)
    requires interval > 0 && SwapSucceeds(Run(events, interval), id)
    ensures var s := Run(events, interval);
            var t := s.calls[id].now;
            t + interval <= MAX_INT64 <==>
            NextAdmissionFrom(events + [CompareAndSwap(id)], interval, |s.admitted|, t + interval)
  {
    var t := Run(events, interval).calls[id].now;
    if t + interval <= MAX_INT64 {
      FittingDeadlineHolds(events, interval, id);
    } else {
      WrappedDeadlineFails(events, interval, id);
    }
  }

  lemma AfterTheSwap(events: seq<Event>, interval: int, id: nat)
    requires SwapSucceeds(Run(events, interval), id)
    ensures var s, u := Run(events, interval), Run(events + [CompareAndSwap(id)], interval);
            u.admitted == s.admitted + [s.calls[id].now] && u.next == Wrap64(s.calls[id].now + interval)
    ensures IsInt64(Run(events, interval).calls[id].now)
  {
    RunSnoc(events, CompareAndSwap(id), interval);
    EveryRunKeepsDeadlines(events, interval);
  }

  lemma FittingDeadlineHolds(events: seq<Event>, interval: int, id: nat)
    requires interval > 0 && SwapSucceeds(Run(events, interval), id)
    requires Run(events, interval).calls[id].now + interval <= MAX_INT64
    ensures var s := Run(events, interval);
            NextAdmissionFrom(events + [CompareAndSwap(id)], interval, |s.admitted|, s.calls[id].now + interval)
  {
    var s := Run(events, interval);
    var swapped := events + [CompareAndSwap(id)];
    AfterTheSwap(events, interval, id);
    forall more ensures var a := Run(swapped + more, interval).admitted;
                        |a| > |s.admitted| + 1 ==> a[|s.admitted| + 1] >= s.calls[id].now + interval
    {
      NextWaits(events, swapped, more, interval, s.calls[id].now);
    }
  }

  lemma WrappedDeadlineFails(events: seq<Event>, interval: int, id: nat)
    requires SwapSucceeds(Run(events, interval), id)
    requires Run(events, interval).calls[id].now + interval > MAX_INT64
    ensures var s := Run(events, interval);
            !NextAdmissionFrom(events + [CompareAndSwap(id)], interval, |s.admitted|, s.calls[id].now + interval)
  {
    var s := Run(events, interval);
    var swapped := events + [CompareAndSwap(id)];
    AfterTheSwap(events, interval, id);
    var other := SomeNewId(Run(swapped, interval).calls.Keys);
    var more := [Begin(other, MAX_INT64), Load(other), CompareAndSwap(other)];
    var u := CallsThrough(swapped, other, MAX_INT64, interval);
    assert Run(swapped + more, interval).admitted == s.admitted + [s.calls[id].now] + [MAX_INT64];
    assert Run(swapped + more, interval).admitted[|s.admitted| + 1] == MAX_INT64;
  }

  lemma NextWaits(events: seq<Event>, swapped: seq<Event>, more: seq<Event>, interval: int, t: int)
    requires Run(swapped, interval).admitted == Run(events, interval).admitted + [t]
    requires IsInt64(t + interval)
    ensures var n, a := |Run(events, interval).admitted|, Run(swapped + more, interval).admitted;
            |a| > n + 1 ==> a[n + 1] >= t + interval
  {
    var n, a := |Run(events, interval).admitted|, Run(swapped + more, interval).admitted;
    AdmissionsGrow(swapped, more, interval);
    EveryRunKeepsDeadlines(swapped + more, interval);
    if |a| > n + 1 {
      assert a[n] == Run(swapped, interval).admitted[n] == t;
      assert a[n + 1] >= Wrap64(a[n + 1 - 1] + interval);
    }
  }

  lemma SomeNewId(ids: set<nat>) returns (id: nat)
    ensures id !in ids
  {
    if forall i | i in Range(0, |ids| + 1) :: i in ids {
      SubsetIsSmaller(Range(0, |ids| + 1), ids);
    }
    id :| id in Range(0, |ids| + 1) && id !in ids;
  }

  // ---- The retry loop's invariant --------------------------------------------------

  /** Every deadline set so far fits in an int64. */
  predicate NoWrap(s: State, interval: int) {
    forall i | 0 <= i < |s.admitted| :: s.admitted[i] + interval <= MAX_INT64
  }

  /** What a call loaded is still there, or a whole interval has been added since. */
  predicate CallOk(c: Call, next: int, interval: int) {
    && (c.stage.Loaded? ==> c.first.Some? && (next == c.stage.next || next >= c.stage.next + interval))
    && (c.stage.Loaded? ==> c.stage.next >= c.first.value + c.retries * interval)
    && (c.stage.Loading? && c.first.Some? ==> next >= c.first.value + c.retries * interval)
    && (c.stage.Loading? && c.first.None? ==> c.retries == 0)
    && (c.retries > 0 ==> c.first.Some? && (c.retries - 1) * interval <= c.now - c.first.value)
  }

  predicate CallsOk(s: State, interval: int) {
    forall id | id in s.calls :: CallOk(s.calls[id], s.next, interval)
  }

  /** The next deadline rises by at least an interval whenever it changes. */
  lemma RisingKeepsCallOk(c: Call, next: int, higher: int, interval: int)
    requires interval > 0 && CallOk(c, next, interval) && higher >= next + interval
    ensures CallOk(c, higher, interval)
  {
  }

  lemma LoadKeepsCallOk(c: Call, next: int, interval: int)
    requires CallOk(c, next, interval) && c.stage.Loading?
    ensures CallOk(c.(stage := Loaded(next), first := if c.first.Some? then c.first else Some(next)), next, interval)
  {
  }

  lemma RetryKeepsCallOk(c: Call, next: int, interval: int)
    requires CallOk(c, next, interval) && c.stage.Loaded? && c.now >= c.stage.next && next != c.stage.next
    ensures CallOk(c.(stage := Loading, retries := c.retries + 1), next, interval)
  {
    assert (c.retries + 1) * interval == c.retries * interval + interval;
  }

  lemma StepKeepsCallsOk(s: State, e: Event, interval: int)
    requires interval > 0 && DeadlineOk(s, interval) && CallsOk(s, interval)
    requires NoWrap(Step(s, e, interval), interval)
    ensures CallsOk(Step(s, e, interval), interval)
  {
    if Enabled(s, e) && !e.Begin? {
      var c, t := s.calls[e.id], Step(s, e, interval);
      assert CallOk(c, s.next, interval);
      if e.Load? {
        LoadKeepsCallOk(c, s.next, interval);
      } else if e.CompareAndSwap? && s.next == c.stage.next {
        assert t.admitted[|s.admitted|] == c.now;
        forall id | id in s.calls ensures CallOk(s.calls[id], t.next, interval) {
          RisingKeepsCallOk(s.calls[id], s.next, t.next, interval);
        }
      } else if e.CompareAndSwap? {
        RetryKeepsCallOk(c, s.next, interval);
      }
    }
  }

  lemma {:induction false} EveryRunKeepsCallsOk(events: seq<Event>, interval: int)
    requires interval > 0 && NoWrap(Run(events, interval), interval)
    ensures CallsOk(Run(events, interval), interval)
  {
    if events != [] {
      var n := |events| - 1;
      assert events == events[..n] + [events[n]];
      AdmissionsGrow(events[..n], [events[n]], interval);
      assert NoWrap(Run(events[..n], interval), interval);
      EveryRunKeepsDeadlines(events[..n], interval);
      EveryRunKeepsCallsOk(events[..n], interval);
      StepKeepsCallsOk(Run(events[..n], interval), events[n], interval);
    }
  }

  // ---- Windows ---------------------------------------------------------------------

  lemma {:induction false} SpacingAdds(admitted: seq<int>, interval: int, i: nat, j: nat)
    requires Spaced(admitted, interval) && i <= j < |admitted|
    ensures admitted[j] >= admitted[i] + (j - i) * interval
    decreases j - i
  {
    if i < j {
      SpacingAdds(admitted, interval, i, j - 1);
      assert (j - i) * interval == (j - 1 - i) * interval + interval;
    }
  }

  function InWindow(admitted: seq<int>, from: int, width: nat): set<nat> {
    set i: nat | i < |admitted| && from <= admitted[i] <= from + width
  }

  function Range(from: nat, n: nat): (r: set<nat>)
    ensures |r| == n && forall i :: i in r <==> from <= i < from + n
  {
    if n == 0 then {} else Range(from, n - 1) + {from + n - 1}
  }

  lemma SubsetIsSmaller(a: set<nat>, b: set<nat>)
    requires a <= b
    ensures |a| <= |b|
  {
    if a != {} {
      var x :| x in a;
      SubsetIsSmaller(a - {x}, b - {x});
    }
  }

  lemma CloseIndices(gap: int, width: nat, interval: int)
    requires interval > 0 && gap * interval <= width
    ensures gap <= width / interval
  {
    assert (width / interval + 1 - gap) * interval == (width / interval) * interval + interval - gap * interval;
  }

  lemma {:induction false} SpacedIsSorted(a: seq<int>, interval: int, i: nat, j: nat)
    requires interval > 0 && Spaced(a, interval) && i <= j < |a|
    ensures a[i] <= a[j]
    decreases j - i
  {
    if i < j {
      SpacedIsSorted(a, interval, i, j - 1);
    }
  }

  lemma InsideIsClose(a: seq<int>, interval: int, from: int, width: nat, first: nat, i: nat)
    requires interval > 0 && Spaced(a, interval)
    requires first in InWindow(a, from, width) && (first == 0 || a[first - 1] < from)
    requires i in InWindow(a, from, width)
    ensures first <= i && i - first <= width / interval
  {
    if i < first {
      SpacedIsSorted(a, interval, i, first - 1);
    } else {
      SpacingAdds(a, interval, first, i);
      CloseIndices(i - first, width, interval);
    }
  }

  lemma CountInRange(inside: set<nat>, first: nat, n: nat)
    requires forall i | i in inside :: first <= i < first + n
    ensures |inside| <= n
  {
    SubsetIsSmaller(inside, Range(first, n));
  }

  lemma SpacedWindowsAreBounded(a: seq<int>, interval: int, from: int, width: nat)
    requires interval > 0 && Spaced(a, interval)
    ensures |InWindow(a, from, width)| <= width / interval + 1
  {
    var inside, n := InWindow(a, from, width), width / interval;
    CloseIndices(0, width, interval);
    if inside != {} {
      FirstInside(a, interval, from, width);
      var first: nat :| first in inside && (first == 0 || a[first - 1] < from);
      forall i | i in inside ensures first <= i < first + (n + 1) {
        InsideIsClose(a, interval, from, width, first, i);
      }
      CountInRange(inside, first, n + 1);
    }
  }

  /**
   * A window of width `width` admits at most width / interval + 1 events, wherever it is, as
   * long as every deadline that was waited for fits in an int64.
   */
  lemma WindowsAreBounded(events: seq<Event>, interval: int, from: int, width: nat)
    requires interval > 0 && DeadlinesFit(Run(events, interval).admitted, interval)
    ensures |InWindow(Run(events, interval).admitted, from, width)| <= width / interval + 1
  {
    AdmissionsAreSpaced(events, interval);
    SpacedWindowsAreBounded(Run(events, interval).admitted, interval, from, width);
  }

  lemma FirstInside(a: seq<int>, interval: int, from: int, width: nat)
    requires interval > 0 && Spaced(a, interval) && InWindow(a, from, width) != {}
    ensures exists first: nat :: first in InWindow(a, from, width) && (first == 0 || a[first - 1] < from)
  {
    var i: nat :| i in InWindow(a, from, width);
    while i > 0 && a[i - 1] >= from
      invariant i in InWindow(a, from, width)
    {
      assert a[i] >= a[i - 1] + interval;
      i := i - 1;
    }
  }

  // ---- The retry loop --------------------------------------------------------------

  /** A failed compare-and-swap means the deadline rose, by an interval at least. */
  lemma AFailedSwapMeansTheDeadlineRose(events: seq<Event>, interval: int, id: nat)
    requires interval > 0 && NoWrap(Run(events, interval), interval)
    requires Enabled(Run(events, interval), CompareAndSwap(id))
    ensures var s := Run(events, interval);
            s.next != s.calls[id].stage.next ==> s.next >= s.calls[id].stage.next + interval
  {
    EveryRunKeepsCallsOk(events, interval);
    assert CallOk(Run(events, interval).calls[id], Run(events, interval).next, interval);
  }

  /** So a call retries no more often than intervals fit between its first load and its clock. */
  lemma RetriesAreBounded(events: seq<Event>, interval: int, id: nat)
    requires interval > 0 && NoWrap(Run(events, interval), interval) && id in Run(events, interval).calls
    ensures var c := Run(events, interval).calls[id];
            c.retries > 0 ==> c.first.Some? && c.retries <= (c.now - c.first.value) / interval + 1
  {
    EveryRunKeepsCallsOk(events, interval);
    var c := Run(events, interval).calls[id];
    assert CallOk(c, Run(events, interval).next, interval);
    if c.retries > 0 {
      CloseIndices(c.retries - 1, c.now - c.first.value, interval);
    }
  }

  // ---- What one call returns -------------------------------------------------------

  /** A call that read the deadline is suppressed before it, and tries its swap from it on. */
  lemma CallsWaitExactlyForTheDeadline(s: State, id: nat)
    requires id in s.calls && s.calls[id].stage.Loaded?
    ensures Enabled(s, Suppress(id)) <==> s.calls[id].now < s.calls[id].stage.next
    ensures Enabled(s, CompareAndSwap(id)) <==> s.calls[id].now >= s.calls[id].stage.next
  {
  }

  /**
   * A suppressed call returns nothing and is counted; an admitted one stands for itself and
   * for every call suppressed since the last report, and no admission happens on the way out.
   */
  lemma ReturnsAreExact(s: State, id: nat, interval: int)
    ensures Enabled(s, Suppress(id)) ==>
              var t := Step(s, Suppress(id), interval);
              && t.accounted == s.accounted && t.suppressed == s.suppressed + 1 && t.finished == s.finished + 1
              && t.calls == s.calls - {id} && t.next == s.next && t.admitted == s.admitted
    ensures Enabled(s, SwapOut(id)) ==>
              var t := Step(s, SwapOut(id), interval);
              && t.accounted == s.accounted + s.suppressed + 1 && t.suppressed == 0 && t.finished == s.finished + 1
              && t.calls == s.calls - {id} && t.next == s.next && t.admitted == s.admitted
  {
  }
}
