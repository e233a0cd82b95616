// pkg/client/cache.go: asyncWriter, the single-slot last-write-wins mailbox in front of the
// disk, one lock section or channel operation at a time.
//
// Entries are numbered in the order in which they were put in the slot. A run is any
// sequence of the steps below; a step that is not enabled leaves the state alone.
module AsyncWriter {
  import opened Core

  datatype Runner =
    | Waiting
    | Draining(final: bool)
    | Writing(final: bool)
    | Exited

  /**
   * `puts` counts the entries so far and `unsignalled` the callers between the two halves
   * of enqueue. `putsAtClose` is the count when close was called.
   */
  datatype State = State(
    puts: nat, pending: Option<nat>, sig: bool, done: bool, runner: Runner,
    unsignalled: nat, attempts: seq<nat>, putsAtClose: nat)

  const INITIAL := State(0, None, false, false, Waiting, 0, [], 0)

  datatype Event = Put | Signal | WakeOnSignal | WakeOnDone | Take | WriteReturns | Close

  predicate Enabled(s: State, e: Event) {
    match e
    case Put => true
    case Signal => s.unsignalled > 0
    case WakeOnSignal => s.runner.Waiting? && s.sig
    case WakeOnDone => s.runner.Waiting? && s.done
    case Take => s.runner.Draining?
    case WriteReturns => s.runner.Writing?
    case Close => !s.done
  }

  function After(final: bool): Runner { if final then Exited else Waiting }

  function Step(s: State, e: Event): State {
    if !Enabled(s, e) then s
    else
      match e
      case Put => s.(puts := s.puts + 1, pending := Some(s.puts), unsignalled := s.unsignalled + 1)
      case Signal => s.(sig := true, unsignalled := s.unsignalled - 1)
      case WakeOnSignal => s.(sig := false, runner := Draining(false))
      case WakeOnDone => s.(runner := Draining(true))
      case Take =>
        if s.pending.None? then s.(runner := After(s.runner.final))
        else
          s.(pending := None, attempts := s.attempts + [s.pending.value], runner := Writing(s.runner.final))
      case WriteReturns => s.(runner := After(s.runner.final))
      case Close => s.(done := true, putsAtClose := s.puts)
  }

  function Run(events: seq<Event>): State {
    if events == [] then INITIAL else Step(Run(events[..|events| - 1]), events[|events| - 1])
  }

  // ---- The invariant ---------------------------------------------------------------

  predicate Increasing(a: seq<nat>) { forall i, j | 0 <= i < j < |a| :: a[i] < a[j] }

  /** Everything put before `n` has been attempted, or something newer has. */
  predicate NewestAttempted(s: State, n: nat) {
    n == 0 || (s.attempts != [] && s.attempts[|s.attempts| - 1] == n - 1)
  }

  predicate Inv(s: State) {
    && Increasing(s.attempts)
    && (forall i | 0 <= i < |s.attempts| :: s.attempts[i] < s.puts)
    && (s.pending.Some? ==>
          s.puts > 0 && s.pending == Some(s.puts - 1)
          && forall i | 0 <= i < |s.attempts| :: s.attempts[i] < s.puts - 1)
    && (s.pending.None? ==> NewestAttempted(s, s.puts))
    // no lost wake-up
    && (s.pending.Some? && !s.runner.Exited? ==> s.sig || s.unsignalled > 0 || s.runner.Draining?)
    // the flush on shutdown
    && (s.done ==> s.putsAtClose <= s.puts)
    && (s.runner.Exited? || (!s.runner.Waiting? && s.runner.final) ==> s.done)
    && (s.runner.Exited? || (s.runner.Writing? && s.runner.final) ==>
          s.pending.None? || s.putsAtClose <= s.pending.value)
  }

  lemma StepKeepsInv(s: State, e: Event)
    requires Inv(s)
    ensures Inv(Step(s, e))
  {
    if e.Take? && Enabled(s, e) {
      TakeKeepsInv(s);
    }
  }

  lemma TakeKeepsInv(s: State)
    requires Inv(s) && Enabled(s, Take)
    ensures Inv(Step(s, Take))
  {
    if s.pending.Some? {
      var t := Step(s, Take);
      assert t.attempts[|t.attempts| - 1] == s.puts - 1;
    }
  }

  lemma {:induction false} EveryRunKeepsInv(events: seq<Event>)
    ensures Inv(Run(events))
  {
    if events != [] {
      EveryRunKeepsInv(events[..|events| - 1]);
      StepKeepsInv(Run(events[..|events| - 1]), events[|events| - 1]);
    }
  }

  // ---- What the runs guarantee -----------------------------------------------------

  /** Writes are attempted in the order of the puts, none twice, and none made up. */
  lemma AttemptsAreASubsequence(events: seq<Event>)
    ensures var s := Run(events);
            Increasing(s.attempts) && forall i | 0 <= i < |s.attempts| :: s.attempts[i] < s.puts
  {
    EveryRunKeepsInv(events);
  }

  /** No wake-up is queued or on its way, and the runner is back in its select. */
  predicate IsQuiet(s: State) { s.runner.Waiting? && !s.sig && s.unsignalled == 0 }

  /** At rest the slot is empty and the newest entry is the last one attempted. */
  lemma NothingIsLeftBehind(events: seq<Event>)
    requires IsQuiet(Run(events))
    ensures var s := Run(events); s.pending.None? && NewestAttempted(s, s.puts)
  {
    EveryRunKeepsInv(events);
  }

  /** When every put came before close, the last attempt before close returns is the last put. */
  lemma CloseFlushesTheLastEntry(events: seq<Event>)
    requires Run(events).runner.Exited? && Run(events).puts == Run(events).putsAtClose
    ensures var s := Run(events); s.done && s.pending.None? && NewestAttempted(s, s.puts)
  {
    EveryRunKeepsInv(events);
  }

  predicate IsRunnerStep(e: Event) { e.WakeOnSignal? || e.WakeOnDone? || e.Take? || e.WriteReturns? }

  /** What the runner has left to do while nobody else moves. */
  function Work(s: State): nat {
    (if s.sig then 3 else 0)
    + (match s.runner
       case Waiting => if s.done then 3 else 0
       case Draining(final) => (if s.done && !final then 3 else 0) + 2
       case Writing(final) => (if s.done && !final then 3 else 0) + 1
       case Exited => 0)
  }

  /**
   * enqueue never waits for the runner; the runner can always move on while there is
   * something to pick up or close is waiting for it, and each of its steps leaves less.
   */
  lemma NobodyWaitsForever(events: seq<Event>, e: Event)
    ensures var s := Run(events);
            && Enabled(s, Put) && (s.unsignalled > 0 ==> Enabled(s, Signal))
            && (!s.runner.Exited? && (s.done || (s.pending.Some? && s.unsignalled == 0)) ==>
                  exists next :: IsRunnerStep(next) && Enabled(s, next))
            && (IsRunnerStep(e) && Enabled(s, e) ==> s.runner.Exited? || Work(Step(s, e)) < Work(s))
  {
    EveryRunKeepsInv(events);
    var s := Run(events);
    if !s.runner.Exited? && (s.done || (s.pending.Some? && s.unsignalled == 0)) {
      var next := if s.runner.Draining? then Take else if s.runner.Writing? then WriteReturns
                  else if s.done then WakeOnDone else WakeOnSignal;
      assert IsRunnerStep(next) && Enabled(s, next);
    }
  }

  // ---- Which puts are lost ---------------------------------------------------------

  lemma RunSnoc(events: seq<Event>, e: Event)
    ensures Run(events + [e]) == Step(Run(events), e)
  {
    assert (events + [e])[..|events|] == events;
  }

  lemma RunAppend(events: seq<Event>, more: seq<Event>)
    requires more != []
    ensures Run(events + more) == Step(Run(events + more[..|more| - 1]), more[|more| - 1])
  {
    assert events + more == (events + more[..|more| - 1]) + [more[|more| - 1]];
    RunSnoc(events + more[..|more| - 1], more[|more| - 1]);
  }

  /** The runner has emptied the slot for the last time. */
  predicate PastTheFinalTake(s: State) { s.runner.Exited? || (s.runner.Writing? && s.runner.final) }

  /** Put number `n` has been attempted, or a newer one has in its place. */
  predicate Attempted(s: State, n: nat) { s.attempts != [] && s.attempts[|s.attempts| - 1] >= n }

  /** It has been, or it or a newer one is in the slot with a take still to come. */
  predicate Secured(s: State, n: nat) {
    Attempted(s, n) || (s.pending.Some? && s.pending.value >= n && !PastTheFinalTake(s))
  }

  lemma StepKeepsSecured(s: State, e: Event, n: nat)
    requires Inv(s) && Secured(s, n) && n < s.puts
    ensures Secured(Step(s, e), n) && n < Step(s, e).puts
  {
  }

  lemma {:induction false} SecuredStays(events: seq<Event>, n: nat, more: seq<Event>)
    requires Secured(Run(events), n) && n < Run(events).puts
    ensures Secured(Run(events + more), n) && n < Run(events + more).puts
    decreases |more|
  {
    if more == [] {
      assert events + more == events;
    } else {
      SecuredStays(events, n, more[..|more| - 1]);
      RunAppend(events, more);
      EveryRunKeepsInv(events + more[..|more| - 1]);
      StepKeepsSecured(Run(events + more[..|more| - 1]), more[|more| - 1], n);
    }
  }

  /** Once the runner is gone nothing more is attempted. */
  lemma {:induction false} ExitIsFinal(events: seq<Event>, more: seq<Event>)
    requires Run(events).runner.Exited?
    ensures Run(events + more).runner.Exited? && Run(events + more).attempts == Run(events).attempts
    decreases |more|
  {
    if more == [] {
      assert events + more == events;
    } else {
      ExitIsFinal(events, more[..|more| - 1]);
      RunAppend(events, more);
    }
  }

  /** Every continuation in which the runner exits has attempted put `n` or a newer one. */
  ghost predicate SurelyAttempted(events: seq<Event>, n: nat) {
    forall more :: Run(events + more).runner.Exited? ==> Attempted(Run(events + more), n)
  }

  /** Some continuation in which the runner exits has attempted neither. */
  lemma LateOnesAreLost(events: seq<Event>, n: nat) returns (more: seq<Event>)
    requires PastTheFinalTake(Run(events)) && !Attempted(Run(events), n)
    ensures Run(events + more).runner.Exited? && !Attempted(Run(events + more), n)
  {
    if Run(events).runner.Exited? {
      more := [];
      assert events + more == events;
    } else {
      more := [WriteReturns];
      RunSnoc(events, WriteReturns);
    }
  }

  /**
   * Exactly which puts can be lost: a put made in a reachable state is attempted, or
   * superseded by a newer one that is, in every continuation that ends the runner, if and
   * only if the runner has not yet emptied the slot for the last time.
   */
  lemma APutIsSafeUntilTheFinalTake(events: seq<Event>)
    ensures SurelyAttempted(events + [Put], Run(events).puts) <==> !PastTheFinalTake(Run(events))
  {
    var s := Run(events);
    RunSnoc(events, Put);
    EveryRunKeepsInv(events);
    if PastTheFinalTake(s) {
      var more := LateOnesAreLost(events + [Put], s.puts);
      assert !Attempted(Run(events + [Put] + more), s.puts);
    } else {
      forall more | Run(events + [Put] + more).runner.Exited? ensures Attempted(Run(events + [Put] + more), s.puts) {
        SecuredStays(events + [Put], s.puts, more);
      }
    }
  }

  /** After close the runner can always be driven to its end, with no put on the way. */
  lemma {:induction false} CloseCanEnd(events: seq<Event>) returns (more: seq<Event>)
    requires Run(events).done
    ensures Run(events + more).runner.Exited? && Run(events + more).puts == Run(events).puts
    decreases Work(Run(events))
  {
    var s := Run(events);
    if s.runner.Exited? {
      more := [];
      assert events + more == events;
    } else {
      var next := if s.runner.Waiting? then WakeOnDone else if s.runner.Draining? then Take else WriteReturns;
      RunSnoc(events, next);
      var rest := CloseCanEnd(events + [next]);
      more := [next] + rest;
      assert events + more == events + [next] + rest;
    }
  }

  /** Whatever has happened, once close was called some continuation loses the next put for good. */
  lemma AfterCloseTheNextPutCanBeLost(events: seq<Event>)
    requires Run(events).done
    ensures exists more :: var n := Run(events).puts;
              && Run(events + more).puts == n + 1
              && forall rest :: n !in Run(events + more + rest).attempts && !Attempted(Run(events + more + rest), n)
  {
    var ending := CloseCanEnd(events);
    var n := Run(events).puts;
    var more := ending + [Put];
    assert events + more == (events + ending) + [Put];
    RunSnoc(events + ending, Put);
    EveryRunKeepsInv(events + ending);
    forall rest ensures n !in Run(events + more + rest).attempts && !Attempted(Run(events + more + rest), n) {
      ExitIsFinal(events + more, rest);
    }
  }
}
