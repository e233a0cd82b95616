// pkg/client/updater.go, state.go and the L1 half of cache.go: the client's update path.
//
// Applying one update is taken as a single step; a heartbeat's two loads and its decision
// are separate ones, so a reconcile fetch may land between them. The stream goroutine
// finishes one heartbeat before it does anything else of its own.
module Updater {
  import opened Core
  import opened Evaluator

  datatype ClientState = Uninitialized | Healthy | DegradedStale | Closed
  {
    predicate Serving() { Healthy? || DegradedStale? }
  }

  /** One frame from the config plane; no snapshot makes it a heartbeat. */
  datatype Update = Update(snapshot: Option<SnapshotView>, generation: int, instanceID: string)
  {
    /** A snapshot frame is to report its snapshot's own generation; this one reports a later. */
    predicate Overstates() { snapshot.Some? && generation > snapshot.value.generation }
  }

  /** What L1 publishes in one pointer store. */
  datatype Entry = Entry(snap: SnapshotView, gen: int, instanceID: string, fromDisk: bool)

  /** A heartbeat being handled: what was held when it came, and whether the source changed. */
  datatype Heartbeat = Heartbeat(up: Update, held: int, changed: Option<bool>)

  /**
   * `applied` lists the entries that came from the network, in order, which is also what is
   * handed to the disk writer; `changes` lists the calls of the change hook.
   */
  datatype State = State(
    l1: Option<Entry>, state: ClientState, readyCloses: nat, changes: seq<(ClientState, ClientState)>,
    applied: seq<Entry>, heard: Option<Heartbeat>)

  datatype Event =
    | Apply(up: Update)
    | LoadHeld(up: Update)
    | LoadInstance
    | Decide
    | Degrade
    | Close

  // ---- The state machine of state.go -----------------------------------------------

  function Set(s: State, to: ClientState): State {
    if s.state.Closed? || s.state == to then s
    else
      s.(state := to, changes := s.changes + [(s.state, to)],
         readyCloses := if to.Serving() && s.readyCloses == 0 then 1 else s.readyCloses)
  }

  function Confirm(s: State, held: int, source: int): State {
    if held < source then s else Set(s, Healthy)
  }

  // ---- The acceptance rule ---------------------------------------------------------

  function HeldGeneration(l1: Option<Entry>): int { if l1.Some? then l1.value.gen else 0 }

  /** A different process is talking, as far as both names are known. */
  predicate InstanceChanged(l1: Option<Entry>, up: Update) {
    && l1.Some? && l1.value.instanceID != "" && up.instanceID != ""
    && l1.value.instanceID != up.instanceID
  }

  /** Whether a snapshot frame replaces L1. */
  predicate Accepts(l1: Option<Entry>, up: Update)
    requires up.snapshot.Some?
  {
    || l1.None?
    || InstanceChanged(l1, up)
    || up.snapshot.value.generation > l1.value.gen
    || (up.snapshot.value.generation == l1.value.gen && l1.value.fromDisk)
  }

  function EntryOf(up: Update): Entry
    requires up.snapshot.Some?
  {
    Entry(up.snapshot.value, up.snapshot.value.generation, up.instanceID, false)
  }

  function ApplyUpdate(s: State, up: Update): State {
    if up.snapshot.None? then Confirm(s, HeldGeneration(s.l1), up.generation)
    else if Accepts(s.l1, up) then
      Confirm(s.(l1 := Some(EntryOf(up)), applied := s.applied + [EntryOf(up)]),
              up.snapshot.value.generation, up.generation)
    else Confirm(s, s.l1.value.gen, up.snapshot.value.generation)
  }

  predicate Enabled(s: State, e: Event) {
    match e
    case Apply(_) => true
    case LoadHeld(up) => s.heard.None? && up.snapshot.None?
    case LoadInstance => s.heard.Some? && s.heard.value.changed.None?
    case Decide => s.heard.Some? && s.heard.value.changed.Some?
    case Degrade => s.heard.None?
    case Close => true
  }

  function Step(s: State, e: Event): State {
    if !Enabled(s, e) then s
    else
      match e
      case Apply(up) => ApplyUpdate(s, up)
      case LoadHeld(up) => s.(heard := Some(Heartbeat(up, HeldGeneration(s.l1), None)))
      case LoadInstance =>
        s.(heard := Some(s.heard.value.(changed := Some(InstanceChanged(s.l1, s.heard.value.up)))))
      case Decide =>
        // a gap is repaired by a fetch, which comes back as an Apply
        var h, t := s.heard.value, s.(heard := None);
        if h.changed.value || h.up.generation > h.held then t else Confirm(t, h.held, h.up.generation)
      case Degrade => if s.l1.None? then s else Set(s, DegradedStale)
      case Close => Set(s, Closed)
  }

  /** A new client, hydrated from disk when there was something to read. */
  function Start(disk: Option<SnapshotView>): State {
    var s := State(None, Uninitialized, 0, [], [], None);
    if disk.None? then s
    else Set(s.(l1 := Some(Entry(disk.value, disk.value.generation, "", true))), DegradedStale)
  }

  function Run(disk: Option<SnapshotView>, events: seq<Event>): State {
    if events == [] then Start(disk) else Step(Run(disk, events[..|events| - 1]), events[|events| - 1])
  }

  // ---- Generations -----------------------------------------------------------------

  /** Every frame a client applies comes from one named source process. */
  predicate OneInstance(events: seq<Event>, instance: string) {
    instance != "" && forall e | e in events && e.Apply? :: e.up.instanceID == instance
  }

  predicate Rising(applied: seq<Entry>) {
    forall i, j | 0 <= i < j < |applied| :: applied[i].gen < applied[j].gen
  }

  /** L1 is the last entry applied, or the disk's as long as there is none. */
  predicate Tracks(s: State) {
    if s.applied != [] then s.l1 == Some(s.applied[|s.applied| - 1])
    else s.l1.None? || (s.l1.value.fromDisk && s.l1.value.instanceID == "")
  }

  predicate AppliedBy(s: State, instance: string) {
    forall i | 0 <= i < |s.applied| :: s.applied[i].instanceID == instance && !s.applied[i].fromDisk
  }

  lemma StepKeepsRising(s: State, e: Event, instance: string)
    requires instance != "" && Rising(s.applied) && Tracks(s) && AppliedBy(s, instance)
    requires e.Apply? ==> e.up.instanceID == instance
    ensures var t := Step(s, e); Rising(t.applied) && Tracks(t) && AppliedBy(t, instance)
  {
  }

  lemma {:induction false} RunKeepsRising(disk: Option<SnapshotView>, events: seq<Event>, instance: string)
    requires OneInstance(events, instance)
    ensures var s := Run(disk, events); Rising(s.applied) && Tracks(s) && AppliedBy(s, instance)
  {
    if events != [] {
      RunKeepsRising(disk, events[..|events| - 1], instance);
      StepKeepsRising(Run(disk, events[..|events| - 1]), events[|events| - 1], instance);
    }
  }

  /** While the source is one process, the generations applied to L1 strictly increase. */
  lemma AppliedGenerationsStrictlyIncrease(disk: Option<SnapshotView>, events: seq<Event>, instance: string)
    requires OneInstance(events, instance)
    ensures var s := Run(disk, events);
            Rising(s.applied) && (s.applied != [] ==> s.l1 == Some(s.applied[|s.applied| - 1]))
  {
    RunKeepsRising(disk, events, instance);
  }

  /** A disk entry has no instance to compare, so a restarted source is refused while it is lower. */
  lemma DiskEntriesYieldOnlyToTheirGeneration(e: Entry, up: Update)
    requires e.fromDisk && e.instanceID == "" && up.snapshot.Some?
    ensures Accepts(Some(e), up) <==> up.snapshot.value.generation >= e.gen
  {
  }

  /**
   * After a snapshot frame the client holds that snapshot's generation or, from the same
   * source as far as it knows, a later one; it is never left behind.
   */
  lemma AFrameNeverLeavesTheClientBehind(disk: Option<SnapshotView>, events: seq<Event>, up: Update)
    requires up.snapshot.Some?
    ensures var s := Run(disk, events);
            var t := Run(disk, events + [Apply(up)]);
            && t.l1.Some? && t.l1.value.gen >= up.snapshot.value.generation
            && (t.l1.value.gen > up.snapshot.value.generation ==> t.l1 == s.l1 && !InstanceChanged(s.l1, up))
            && (!up.Overstates() ==> t.state.Closed? || t.state.Healthy?)
  {
    assert (events + [Apply(up)])[..|events|] == events;
  }

  /** A restarted source is followed at once, however low it starts counting. */
  lemma ARestartedSourceIsFollowed(disk: Option<SnapshotView>, events: seq<Event>, up: Update)
    requires up.snapshot.Some? && Run(disk, events).l1.Some?
    requires var named := Run(disk, events).l1.value.instanceID;
             named != "" && up.instanceID != "" && named != up.instanceID
    ensures Run(disk, events + [Apply(up)]).l1
            == Some(Entry(up.snapshot.value, up.snapshot.value.generation, up.instanceID, false))
  {
    assert (events + [Apply(up)])[..|events|] == events;
  }

  // ---- HEALTHY ---------------------------------------------------------------------

  predicate NoneOverstates(events: seq<Event>) {
    forall e | e in events && e.Apply? :: !e.up.Overstates()
  }

  /** The frame a step acts on, if it may confirm anything. */
  function FrameOf(s: State, e: Event): Option<Update> {
    match e
    case Apply(up) => Some(up)
    case Decide => if s.heard.Some? then Some(s.heard.value.up) else None
    case _ => None
  }

  /** What a heartbeat measured is still what is held, unless an update has landed since. */
  predicate HeardOk(s: State) {
    s.heard.Some? ==> s.heard.value.held == HeldGeneration(s.l1) || s.state.Healthy? || s.state.Closed?
  }

  lemma {:induction false} EveryRunIsHeardOk(disk: Option<SnapshotView>, events: seq<Event>)
    requires NoneOverstates(events)
    ensures HeardOk(Run(disk, events))
  {
    if events != [] {
      EveryRunIsHeardOk(disk, events[..|events| - 1]);
    }
  }

  /** Every entry into HEALTHY is at a frame that reports no more than L1 then holds. */
  lemma HealthyMeansNotBehind(disk: Option<SnapshotView>, events: seq<Event>, e: Event)
    requires NoneOverstates(events + [e])
    requires !Run(disk, events).state.Healthy? && Step(Run(disk, events), e).state.Healthy?
    ensures var s := Run(disk, events);
            && FrameOf(s, e).Some?
            && FrameOf(s, e).value.generation <= HeldGeneration(Step(s, e).l1)
  {
    assert forall x | x in events :: x in events + [e];
    assert e in events + [e];
    EveryRunIsHeardOk(disk, events);
  }

  /** After `events`, none of which overstates, the frame makes the client HEALTHY and behind it. */
  predicate HealthyBehind(disk: Option<SnapshotView>, events: seq<Event>, up: Update) {
    && NoneOverstates(events) && !Run(disk, events).state.Healthy?
    && Step(Run(disk, events), Apply(up)).state.Healthy?
    && up.generation > HeldGeneration(Step(Run(disk, events), Apply(up)).l1)
  }

  /** A frame can make some client HEALTHY behind it exactly when it overstates its snapshot. */
  lemma OverstatingIsExact(up: Update)
    ensures up.Overstates() <==> exists disk, events :: HealthyBehind(disk, events, up)
  {
    if up.Overstates() {
      var events := [Apply(up.(generation := up.snapshot.value.generation)), Degrade];
      assert events[..1][..0] == [];
      assert Run(None, events[..1]) == Step(Start(None), events[0]);
      assert HealthyBehind(None, events, up);
    } else {
      forall disk, events | HealthyBehind(disk, events, up) ensures false {
        HealthyMeansNotBehind(disk, events, Apply(up));
      }
    }
  }

  // ---- Absorbing and unreachable states --------------------------------------------

  /** CLOSED is absorbing, and UNINITIALIZED is never entered again. */
  lemma {:induction false} StatesNeverGoBack(disk: Option<SnapshotView>, events: seq<Event>, n: nat)
    requires n <= |events|
    ensures Run(disk, events[..n]).state.Closed? ==> Run(disk, events).state.Closed?
    ensures !Run(disk, events[..n]).state.Uninitialized? ==> !Run(disk, events).state.Uninitialized?
    decreases |events|
  {
    if n < |events| {
      assert events[..|events| - 1][..n] == events[..n];
      StatesNeverGoBack(disk, events[..|events| - 1], n);
    } else {
      assert events[..n] == events;
    }
  }

  // ---- Serving something -----------------------------------------------------------

  predicate ServesSomething(s: State) { s.state.Serving() ==> s.l1.Some? }

  /** A source that has published anything reports a generation of one or more. */
  predicate AllPublished(events: seq<Event>) {
    forall e | e in events && (e.Apply? || e.LoadHeld?) :: e.up.generation >= 1
  }

  predicate HeardPublished(s: State) { s.heard.Some? ==> s.heard.value.up.generation >= 1 }

  lemma {:induction false} ServingMeansConfig(disk: Option<SnapshotView>, events: seq<Event>)
    requires AllPublished(events)
    ensures var s := Run(disk, events);
            ServesSomething(s) && HeardPublished(s) && (s.heard.Some? && s.l1.None? ==> s.heard.value.held == 0)
  {
    if events != [] {
      ServingMeansConfig(disk, events[..|events| - 1]);
      assert events[|events| - 1] in events;
    }
  }

  /** What a heartbeat finds while L1 is empty. */
  predicate HeardNothingHeld(s: State) {
    s.heard.Some? && s.l1.None? ==>
      s.heard.value.held == 0 && (s.heard.value.changed.Some? ==> !s.heard.value.changed.value)
  }

  lemma {:induction false} EveryRunHeardNothingHeld(disk: Option<SnapshotView>, events: seq<Event>)
    ensures HeardNothingHeld(Run(disk, events))
  {
    if events != [] {
      EveryRunHeardNothingHeld(disk, events[..|events| - 1]);
    }
  }

  /**
   * The exact exception: a step makes a client serve with nothing to serve if and only if
   * L1 is empty, the client is open, and the frame carries no snapshot and reports a
   * generation of zero or less.
   */
  lemma ServingNothingIsExact(disk: Option<SnapshotView>, events: seq<Event>, e: Event)
    requires ServesSomething(Run(disk, events)) && Enabled(Run(disk, events), e)
    ensures var s := Run(disk, events);
            !ServesSomething(Step(s, e)) <==>
            && s.l1.None? && !s.state.Closed?
            && FrameOf(s, e).Some? && FrameOf(s, e).value.snapshot.None? && FrameOf(s, e).value.generation <= 0
  {
    EveryRunHeardNothingHeld(disk, events);
    HeartbeatsCarryNoSnapshot(disk, events);
  }

  lemma {:induction false} HeartbeatsCarryNoSnapshot(disk: Option<SnapshotView>, events: seq<Event>)
    ensures var s := Run(disk, events); s.heard.Some? ==> s.heard.value.up.snapshot.None?
  {
    if events != [] {
      HeartbeatsCarryNoSnapshot(disk, events[..|events| - 1]);
    }
  }

  /** The exception happens: a zero heartbeat turns an empty client HEALTHY. */
  lemma AZeroHeartbeatServesNothing()
    ensures exists events ::
              var s := Run(None, events); s.state.Healthy? && s.l1.None?
  {
    var zero := Update(None, 0, "");
    var e1, e2, e3 := [LoadHeld(zero)], [LoadHeld(zero), LoadInstance], [LoadHeld(zero), LoadInstance, Decide];
    assert e3[..2] == e2 && e2[..1] == e1 && e1[..0] == [];
    assert Run(None, e1) == Step(Start(None), LoadHeld(zero));
    assert Run(None, e2) == Step(Run(None, e1), LoadInstance);
    assert Run(None, e3) == Step(Run(None, e2), Decide);
  }

  // ---- The ready channel and the change hook ---------------------------------------

  /** The hook's calls join up, each a real move, and end where the client is. */
  predicate ChangesJoinUp(s: State) {
    && (forall i | 0 <= i < |s.changes| :: s.changes[i].0 != s.changes[i].1)
    && (forall i | 0 < i < |s.changes| :: s.changes[i].0 == s.changes[i - 1].1)
    && (s.changes != [] ==> s.changes[0].0 == Uninitialized)
    && s.state == (if s.changes == [] then Uninitialized else s.changes[|s.changes| - 1].1)
  }

  predicate EverServed(s: State) { exists i | 0 <= i < |s.changes| :: s.changes[i].1.Serving() }

  lemma SetKeepsChanges(s: State, to: ClientState)
    requires ChangesJoinUp(s) && (s.readyCloses == if EverServed(s) then 1 else 0)
    ensures var t := Set(s, to); ChangesJoinUp(t) && (t.readyCloses == if EverServed(t) then 1 else 0)
  {
    var t := Set(s, to);
    if t != s {
      assert t.changes[|s.changes|] == (s.state, to);
      if EverServed(s) {
        var i :| 0 <= i < |s.changes| && s.changes[i].1.Serving();
        assert t.changes[i] == s.changes[i];
      }
      if EverServed(t) && !to.Serving() {
        var i :| 0 <= i < |t.changes| && t.changes[i].1.Serving();
        assert s.changes[i] == t.changes[i];
      }
    }
  }

  /** Whatever else a step writes, the hook and the channel only move through Set. */
  lemma StepIsASet(s: State, e: Event)
    ensures var t := Step(s, e);
            exists to :: var u := Set(s, to);
              u.changes == t.changes && u.state == t.state && u.readyCloses == t.readyCloses
  {
    var t := Step(s, e);
    var u := Set(s, t.state);
    assert u.changes == t.changes && u.state == t.state && u.readyCloses == t.readyCloses;
  }

  /** The ready channel is closed once if the client was ever ready to serve, else never. */
  lemma {:induction false} ReadyIsClosedOnce(disk: Option<SnapshotView>, events: seq<Event>)
    ensures var s := Run(disk, events);
            ChangesJoinUp(s) && (s.readyCloses == if EverServed(s) then 1 else 0)
  {
    if events == [] {
      SetKeepsChanges(State(None, Uninitialized, 0, [], [], None), DegradedStale);
    } else {
      var s := Run(disk, events[..|events| - 1]);
      var e := events[|events| - 1];
      ReadyIsClosedOnce(disk, events[..|events| - 1]);
      StepIsASet(s, e);
      var to :| var u := Set(s, to); var t := Step(s, e);
                u.changes == t.changes && u.state == t.state && u.readyCloses == t.readyCloses;
      SetKeepsChanges(s, to);
    }
  }

  // ---- One frame, one heartbeat, one loss ------------------------------------------

  /**
   * Exactly which snapshot frames replace L1, and by what: the first one, one from another
   * named instance, a newer one, and an equal one over a disk copy. The state becomes
   * HEALTHY unless the client is closed or the frame accepted reports more than it carries.
   */
  lemma FramesAreExact(disk: Option<SnapshotView>, events: seq<Event>, up: Update)
    requires up.snapshot.Some?
    ensures var s, t := Run(disk, events), Run(disk, events + [Apply(up)]);
            var gen := up.snapshot.value.generation;
            var taken :=
              || s.l1.None?
              || (s.l1.value.instanceID != "" && up.instanceID != "" && s.l1.value.instanceID != up.instanceID)
              || gen > s.l1.value.gen
              || (gen == s.l1.value.gen && s.l1.value.fromDisk);
            && t.l1 == (if taken then Some(Entry(up.snapshot.value, gen, up.instanceID, false)) else s.l1)
            && t.applied == (if taken then s.applied + [Entry(up.snapshot.value, gen, up.instanceID, false)]
                             else s.applied)
            && t.state == (if s.state.Closed? || (taken && gen < up.generation) then s.state else Healthy)
  {
    assert (events + [Apply(up)])[..|events|] == events;
  }

  /**
   * A heartbeat handled without interruption confirms what is held, unless another instance
   * is talking or the source is ahead, in which case the state waits for a fetch; L1 stays.
   */
  lemma HeartbeatsAreExact(disk: Option<SnapshotView>, events: seq<Event>, up: Update)
    requires up.snapshot.None? && Run(disk, events).heard.None?
    ensures var s := Run(disk, events);
            var t := Run(disk, events + [LoadHeld(up), LoadInstance, Decide]);
            var held := if s.l1.Some? then s.l1.value.gen else 0;
            var changed :=
              s.l1.Some? && s.l1.value.instanceID != "" && up.instanceID != "" && s.l1.value.instanceID != up.instanceID;
            && t.l1 == s.l1 && t.applied == s.applied && t.heard.None?
            && t.state == (if s.state.Closed? || changed || up.generation > held then s.state else Healthy)
  {
    var one, two := events + [LoadHeld(up)], events + [LoadHeld(up), LoadInstance];
    var three := events + [LoadHeld(up), LoadInstance, Decide];
    assert one[..|events|] == events && two[..|events| + 1] == one && three[..|events| + 2] == two;
    assert Run(disk, one) == Step(Run(disk, events), LoadHeld(up));
    assert Run(disk, two) == Step(Run(disk, one), LoadInstance);
    assert Run(disk, three) == Step(Run(disk, two), Decide);
  }

  /** A dead stream degrades an open client that holds something; closing closes; L1 stays. */
  lemma LossesAreExact(disk: Option<SnapshotView>, events: seq<Event>)
    ensures var s := Run(disk, events);
            var lost, closed := Run(disk, events + [Degrade]), Run(disk, events + [Close]);
            && lost.l1 == s.l1 && closed.l1 == s.l1 && closed.state.Closed?
            && (s.heard.None? ==>
                  lost.state == if s.state.Closed? || s.l1.None? then s.state else DegradedStale)
  {
    assert (events + [Degrade])[..|events|] == events && (events + [Close])[..|events|] == events;
  }

  /** A client starts empty, or stale with the disk copy, which names no instance. */
  lemma StartsAreExact(disk: Option<SnapshotView>)
    ensures var s := Run(disk, []);
            if disk.None? then s.l1.None? && s.state.Uninitialized? && s.readyCloses == 0
            else
              && s.l1 == Some(Entry(disk.value, disk.value.generation, "", true))
              && s.state.DegradedStale? && s.readyCloses == 1
  {
  }
}
