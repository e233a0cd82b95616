// internal/config/store.go: Subscribe, notify and cancel, one channel operation at a time.
//
// Builds are serialised by the store's lock, so there is one publisher. It stores the new
// snapshot without holding the subscriber lock, and takes that lock only to notify. Every
// subscriber has a channel with one slot. A run is any sequence of the steps below; a step
// that is not enabled leaves the state alone.
module Notify {
  import opened Core
  import opened Build

  // ---- States ----------------------------------------------------------------------

  /** How far Subscribe has got; the channel is the caller's from `Live` on. */
  datatype Stage = Registered | Loaded(snap: Option<Snapshot>) | Live | Cancelled

  datatype Sub = Sub(stage: Stage, buf: Option<Snapshot>, received: seq<Snapshot>)
  {
    /** In the table of channels that notify walks. */
    predicate InTable() { !stage.Cancelled? }

    predicate Subscribing() { stage.Registered? || stage.Loaded? }

    /** The newest snapshot placed in the channel, taken out already or not. */
    function Newest(): Option<Snapshot> {
      if buf.Some? then buf else if received != [] then Some(received[|received| - 1]) else None
    }
  }

  /** The three selects of one turn of notify's loop. */
  datatype Attempt = SendFirst | Drain | SendAgain

  datatype Phase =
    | Idle
    | Pending(snap: Snapshot)
    | Notifying(snap: Snapshot, todo: set<nat>, at: Option<nat>, attempt: Attempt)

  datatype Holder = Free | ByPublisher | BySubscriber(id: nat)

  /** `dropped` records that the innermost default was taken. */
  datatype State = State(cur: Option<Snapshot>, phase: Phase, holder: Holder, subs: map<nat, Sub>, dropped: bool)

  const INITIAL := State(None, Idle, Free, map[], false)

  // ---- Steps -----------------------------------------------------------------------

  datatype Event =
    | Publish(snap: Snapshot)
    | Lock
    | NextChannel(id: nat)
    | Select
    | Unlock
    | Register(id: nat)
    | Load(id: nat)
    | SendCurrent(id: nat)
    | Receive(id: nat)
    | Cancel(id: nat)

  function NextGeneration(cur: Option<Snapshot>): int { if cur.Some? then cur.value.generation + 1 else 1 }

  predicate Enabled(s: State, e: Event) {
    match e
    case Publish(snap) => s.phase.Idle? && snap.generation == NextGeneration(s.cur)
    case Lock => s.phase.Pending? && s.holder.Free?
    case NextChannel(id) => s.phase.Notifying? && s.phase.at.None? && id in s.phase.todo && id in s.subs
    case Select => s.phase.Notifying? && s.phase.at.Some? && s.phase.at.value in s.subs
    case Unlock => s.phase.Notifying? && s.phase.at.None? && s.phase.todo == {}
    case Register(id) => s.holder.Free? && id !in s.subs
    case Load(id) => s.holder == BySubscriber(id) && id in s.subs && s.subs[id].stage.Registered?
    case SendCurrent(id) =>
      && s.holder == BySubscriber(id) && id in s.subs && s.subs[id].stage.Loaded?
      && (s.subs[id].stage.snap.Some? ==> s.subs[id].buf.None?)
    case Receive(id) => id in s.subs && !s.subs[id].Subscribing() && s.subs[id].buf.Some?
    case Cancel(id) => s.holder.Free? && id in s.subs && s.subs[id].stage.Live?
  }

  function With(s: State, id: nat, sub: Sub): State { s.(subs := s.subs[id := sub]) }

  /** One select of the notify loop on channel `id`. */
  function SelectStep(s: State, id: nat): State
    requires s.phase.Notifying? && id in s.subs
  {
    var sub := s.subs[id];
    var done := s.phase.(at := None, attempt := SendFirst);
    match s.phase.attempt
    case SendFirst =>
      if sub.buf.None? then With(s, id, sub.(buf := Some(s.phase.snap))).(phase := done)
      else s.(phase := s.phase.(attempt := Drain))
    case Drain =>
      With(s, id, sub.(buf := None)).(phase := s.phase.(attempt := SendAgain))
    case SendAgain =>
      if sub.buf.None? then With(s, id, sub.(buf := Some(s.phase.snap))).(phase := done)
      else s.(phase := done, dropped := true)
  }

  function Table(s: State): set<nat> { set id | id in s.subs && s.subs[id].InTable() }

  function Step(s: State, e: Event): State {
    if !Enabled(s, e) then s
    else
      match e
      case Publish(snap) =>
        s.(cur := Some(snap), phase := if ContentChanged(s.cur, snap) then Pending(snap) else Idle)
      case Lock => s.(holder := ByPublisher, phase := Notifying(s.phase.snap, Table(s), None, SendFirst))
      case NextChannel(id) => s.(phase := s.phase.(todo := s.phase.todo - {id}, at := Some(id)))
      case Select => SelectStep(s, s.phase.at.value)
      case Unlock => s.(holder := Free, phase := Idle)
      case Register(id) => With(s, id, Sub(Registered, None, [])).(holder := BySubscriber(id))
      case Load(id) => With(s, id, s.subs[id].(stage := Loaded(s.cur)))
      case SendCurrent(id) =>
        var sub := s.subs[id];
        With(s, id, Sub(Live, if sub.stage.snap.Some? then sub.stage.snap else sub.buf, sub.received)).(holder := Free)
      case Receive(id) =>
        var sub := s.subs[id];
        With(s, id, sub.(buf := None, received := sub.received + [sub.buf.value]))
      case Cancel(id) => With(s, id, s.subs[id].(stage := Cancelled))
  }

  function Run(s: State, events: seq<Event>): State {
    if events == [] then s else Step(Run(s, events[..|events| - 1]), events[|events| - 1])
  }

  // ---- The invariant ---------------------------------------------------------------

  predicate SameContent(a: Option<Snapshot>, b: Option<Snapshot>) {
    match (a, b)
    case (None, None) => true
    case (Some(x), Some(y)) => x.flags == y.flags && x.quarantined == y.quarantined
    case _ => false
  }

  function GenerationOf(o: Option<Snapshot>): int { if o.Some? then o.value.generation else 0 }

  predicate NonDecreasing(r: seq<Snapshot>) {
    forall i, j | 0 <= i < j < |r| :: r[i].generation <= r[j].generation
  }

  /** Nothing in a channel is older than what came out of it, nor newer than the current. */
  predicate InOrder(sub: Sub, cur: Option<Snapshot>) {
    && NonDecreasing(sub.received)
    && (sub.received != [] ==> sub.received[|sub.received| - 1].generation <= GenerationOf(sub.Newest()))
    && (forall i | 0 <= i < |sub.received| :: sub.received[i].generation <= GenerationOf(cur))
    && (sub.buf.Some? ==> sub.buf.value.generation <= GenerationOf(cur))
    && (sub.stage.Loaded? ==> GenerationOf(sub.stage.snap) <= GenerationOf(cur))
    && (sub.Subscribing() ==> sub.buf.None? && sub.received == [])
  }

  predicate OrderOk(s: State) { forall id | id in s.subs :: InOrder(s.subs[id], s.cur) }

  /** Who may be doing what, given who holds the lock. */
  predicate LockOk(s: State) {
    && (s.holder.ByPublisher? <==> s.phase.Notifying?)
    && (forall id | id in s.subs :: s.subs[id].Subscribing() <==> s.holder == BySubscriber(id))
    && (s.phase.Pending? || s.phase.Notifying? ==> s.cur == Some(s.phase.snap))
    && (s.phase.Notifying? ==>
          && s.phase.todo <= Table(s)
          && (s.phase.at.Some? ==> s.phase.at.value in Table(s) && s.phase.at.value !in s.phase.todo)
          && (s.phase.at.None? ==> s.phase.attempt.SendFirst?)
          && (s.phase.at.Some? && s.phase.attempt.SendAgain? ==> s.subs[s.phase.at.value].buf.None?))
    && !s.dropped
  }

  /** What a subscriber is due to hold, or about to be told. */
  predicate Settled(sub: Sub, cur: Option<Snapshot>) {
    match sub.stage
    case Registered => true
    case Loaded(x) => SameContent(x, cur)
    case Live => SameContent(sub.Newest(), cur)
    case Cancelled => true
  }

  /** Channels the publisher still owes the snapshot it is handing out. */
  predicate Owed(s: State, id: nat) {
    match s.phase
    case Idle => false
    case Pending(_) => true
    case Notifying(_, todo, at, _) => id in todo || at == Some(id)
  }

  predicate SettledOk(s: State) {
    forall id | id in s.subs :: Owed(s, id) || Settled(s.subs[id], s.cur)
  }

  predicate Inv(s: State) { OrderOk(s) && LockOk(s) && SettledOk(s) }

  // ---- Every step keeps it ---------------------------------------------------------

  lemma PublishKeepsInv(s: State, snap: Snapshot)
    requires Inv(s) && Enabled(s, Publish(snap))
    ensures Inv(Step(s, Publish(snap)))
  {
    var t := Step(s, Publish(snap));
    forall id | id in t.subs ensures InOrder(t.subs[id], t.cur) && (Owed(t, id) || Settled(t.subs[id], t.cur)) {
      assert InOrder(s.subs[id], s.cur);
    }
  }

  /** Placing the current snapshot, or discarding what is there, keeps one channel in order. */
  lemma ReplacedInOrder(sub: Sub, snap: Snapshot)
    requires InOrder(sub, Some(snap)) && !sub.Subscribing()
    ensures InOrder(sub.(buf := Some(snap)), Some(snap)) && InOrder(sub.(buf := None), Some(snap))
  {
  }

  lemma ReceivedInOrder(sub: Sub, cur: Option<Snapshot>)
    requires InOrder(sub, cur) && !sub.Subscribing() && sub.buf.Some?
    ensures var after := sub.(buf := None, received := sub.received + [sub.buf.value]);
            InOrder(after, cur) && after.Newest() == sub.Newest()
  {
  }

  /** Replacing one subscriber by one in order. */
  lemma OneChangedKeepsOrder(s: State, t: State, id: nat)
    requires OrderOk(s) && t.cur == s.cur && id in t.subs && InOrder(t.subs[id], t.cur)
    requires forall other | other in t.subs && other != id :: other in s.subs && t.subs[other] == s.subs[other]
    ensures OrderOk(t)
  {
  }

  /** Changing what is in one channel, not whose it is, moves no other part of the invariant. */
  lemma OthersUnmoved(s: State, t: State, id: nat)
    requires OrderOk(s) && id in s.subs && t.subs.Keys == s.subs.Keys && t.cur == s.cur
    requires forall other | other in s.subs && other != id :: t.subs[other] == s.subs[other]
    requires t.subs[id].stage == s.subs[id].stage && InOrder(t.subs[id], t.cur)
    ensures OrderOk(t) && Table(t) == Table(s)
  {
    OneChangedKeepsOrder(s, t, id);
  }

  lemma SelectKeepsInv(s: State)
    requires Inv(s) && Enabled(s, Select)
    ensures Inv(Step(s, Select))
  {
    SelectKeepsOrder(s);
    SelectKeepsLock(s);
    SelectKeepsSettled(s);
  }

  lemma SelectKeepsOrder(s: State)
    requires Inv(s) && Enabled(s, Select)
    ensures OrderOk(Step(s, Select)) && Table(Step(s, Select)) == Table(s)
  {
    var id := s.phase.at.value;
    assert InOrder(s.subs[id], s.cur) && id in Table(s);
    ReplacedInOrder(s.subs[id], s.phase.snap);
    OthersUnmoved(s, Step(s, Select), id);
  }

  lemma SelectKeepsLock(s: State)
    requires LockOk(s) && Enabled(s, Select) && Table(Step(s, Select)) == Table(s)
    ensures LockOk(Step(s, Select))
  {
  }

  lemma SelectKeepsSettled(s: State)
    requires LockOk(s) && SettledOk(s) && Enabled(s, Select)
    ensures SettledOk(Step(s, Select))
  {
    var id := s.phase.at.value;
    var t := Step(s, Select);
    forall other | other in t.subs ensures Owed(t, other) || Settled(t.subs[other], t.cur) {
      assert Owed(s, other) || Settled(s.subs[other], s.cur);
    }
  }

  lemma ReceiveKeepsInv(s: State, id: nat)
    requires Inv(s) && Enabled(s, Receive(id))
    ensures Inv(Step(s, Receive(id)))
  {
    var t := Step(s, Receive(id));
    assert InOrder(s.subs[id], s.cur);
    ReceivedInOrder(s.subs[id], s.cur);
    OthersUnmoved(s, t, id);
    forall other | other in t.subs ensures Owed(t, other) || Settled(t.subs[other], t.cur) {
      assert Owed(s, other) || Settled(s.subs[other], s.cur);
    }
  }

  /** Steps of the publisher between channels leave every channel alone. */
  lemma BetweenChannelsKeepsOrder(s: State, t: State)
    requires OrderOk(s) && t.subs == s.subs && t.cur == s.cur
    ensures OrderOk(t) && Table(t) == Table(s)
  {
  }

  lemma LockKeepsInv(s: State)
    requires Inv(s) && Enabled(s, Lock)
    ensures Inv(Step(s, Lock))
  {
    BetweenChannelsKeepsOrder(s, Step(s, Lock));
  }

  lemma NextChannelKeepsInv(s: State, id: nat)
    requires Inv(s) && Enabled(s, NextChannel(id))
    ensures Inv(Step(s, NextChannel(id)))
  {
    BetweenChannelsKeepsOrder(s, Step(s, NextChannel(id)));
  }

  lemma UnlockKeepsInv(s: State)
    requires Inv(s) && Enabled(s, Unlock)
    ensures Inv(Step(s, Unlock))
  {
    BetweenChannelsKeepsOrder(s, Step(s, Unlock));
  }

  lemma CancelKeepsInv(s: State, id: nat)
    requires Inv(s) && Enabled(s, Cancel(id))
    ensures Inv(Step(s, Cancel(id)))
  {
    assert InOrder(s.subs[id], s.cur);
    OneChangedKeepsOrder(s, Step(s, Cancel(id)), id);
  }

  lemma RegisterKeepsInv(s: State, id: nat)
    requires Inv(s) && Enabled(s, Register(id))
    ensures Inv(Step(s, Register(id)))
  {
    OneChangedKeepsOrder(s, Step(s, Register(id)), id);
  }

  lemma LoadKeepsInv(s: State, id: nat)
    requires Inv(s) && Enabled(s, Load(id))
    ensures Inv(Step(s, Load(id)))
  {
    assert InOrder(s.subs[id], s.cur);
    OneChangedKeepsOrder(s, Step(s, Load(id)), id);
  }

  lemma SendCurrentKeepsInv(s: State, id: nat)
    requires Inv(s) && Enabled(s, SendCurrent(id))
    ensures Inv(Step(s, SendCurrent(id)))
  {
    assert InOrder(s.subs[id], s.cur);
    OneChangedKeepsOrder(s, Step(s, SendCurrent(id)), id);
  }

  lemma StepKeepsInv(s: State, e: Event)
    requires Inv(s)
    ensures Inv(Step(s, e))
  {
    if Enabled(s, e) {
      match e
      case Publish(snap) => PublishKeepsInv(s, snap);
      case Select => SelectKeepsInv(s);
      case Receive(id) => ReceiveKeepsInv(s, id);
      case Lock => LockKeepsInv(s);
      case NextChannel(id) => NextChannelKeepsInv(s, id);
      case Unlock => UnlockKeepsInv(s);
      case Register(id) => RegisterKeepsInv(s, id);
      case Load(id) => LoadKeepsInv(s, id);
      case SendCurrent(id) => SendCurrentKeepsInv(s, id);
      case Cancel(id) => CancelKeepsInv(s, id);
    }
  }

  lemma {:induction false} EveryRunKeepsInv(events: seq<Event>)
    ensures Inv(Run(INITIAL, events))
  {
    if events != [] {
      EveryRunKeepsInv(events[..|events| - 1]);
      StepKeepsInv(Run(INITIAL, events[..|events| - 1]), events[|events| - 1]);
    }
  }

  // ---- What the runs guarantee -----------------------------------------------------

  /**
   * Whenever no publication is in flight, the last snapshot placed in each live
   * subscriber's channel has the content, and the quarantine set, of the current one.
   */
  lemma SubscribersConverge(events: seq<Event>, id: nat)
    requires var s := Run(INITIAL, events); s.phase.Idle? && id in s.subs && s.subs[id].stage.Live?
    ensures var s := Run(INITIAL, events); SameContent(s.subs[id].Newest(), s.cur)
  {
    EveryRunKeepsInv(events);
    var s := Run(INITIAL, events);
    assert Owed(s, id) || Settled(s.subs[id], s.cur);
  }

  /** No subscriber ever sees a generation go back, or one not published yet. */
  lemma ReceivedGenerationsNeverDecrease(events: seq<Event>, id: nat)
    requires id in Run(INITIAL, events).subs
    ensures var s := Run(INITIAL, events);
            var r := s.subs[id].received;
            && NonDecreasing(r)
            && (forall i | 0 <= i < |r| :: r[i].generation <= GenerationOf(s.cur))
            && (r != [] && s.subs[id].buf.Some? ==> r[|r| - 1].generation <= s.subs[id].buf.value.generation)
  {
    EveryRunKeepsInv(events);
    assert InOrder(Run(INITIAL, events).subs[id], Run(INITIAL, events).cur);
  }

  /** The publisher is the only sender, so its second send finds the slot empty. */
  lemma InnerDefaultIsUnreachable(events: seq<Event>)
    ensures var s := Run(INITIAL, events);
            && !s.dropped
            && (s.phase.Notifying? && s.phase.at.Some? && s.phase.attempt.SendAgain? ==>
                  s.phase.at.value in s.subs && s.subs[s.phase.at.value].buf.None?)
  {
    EveryRunKeepsInv(events);
  }

  /** The send in Subscribe finds the slot empty too: each step of it can always be taken. */
  lemma SubscribeNeverBlocks(events: seq<Event>, id: nat)
    requires Run(INITIAL, events).holder == BySubscriber(id)
    requires id in Run(INITIAL, events).subs
    ensures var s := Run(INITIAL, events); Enabled(s, Load(id)) || Enabled(s, SendCurrent(id))
  {
    EveryRunKeepsInv(events);
    var s := Run(INITIAL, events);
    assert InOrder(s.subs[id], s.cur) && s.subs[id].Subscribing();
  }

  predicate IsNotifyStep(e: Event) { e.NextChannel? || e.Select? || e.Unlock? }

  /** What is left of a notify: four steps a channel, and the unlock. */
  function Work(p: Phase): nat {
    if !p.Notifying? then 0
    else
      4 * |p.todo|
      + (if p.at.None? then 1
         else match p.attempt case SendFirst => 4 case Drain => 3 case SendAgain => 2)
  }

  lemma SomeNotifyStepIsEnabled(s: State)
    requires LockOk(s) && s.phase.Notifying?
    ensures exists next :: IsNotifyStep(next) && Enabled(s, next)
  {
    assert forall id | id in Table(s) :: id in s.subs;
    if s.phase.at.Some? {
      assert Enabled(s, Select);
    } else if s.phase.todo == {} {
      assert Enabled(s, Unlock);
    } else {
      var id :| id in s.phase.todo;
      assert Enabled(s, NextChannel(id));
    }
  }

  lemma NotifyStepsLeaveLess(s: State, e: Event)
    requires LockOk(s) && IsNotifyStep(e) && Enabled(s, e)
    ensures Work(Step(s, e).phase) < Work(s.phase)
  {
    if e.NextChannel? {
      assert |s.phase.todo - {e.id}| == |s.phase.todo| - 1;
    }
  }

  /**
   * notify never blocks: while it runs, some step of it is enabled whatever receivers and
   * cancellers do, and every step it takes leaves strictly less to do; no one else's step
   * touches what it has left.
   */
  lemma NotifyNeverBlocks(events: seq<Event>, e: Event)
    requires Run(INITIAL, events).phase.Notifying?
    ensures var s := Run(INITIAL, events);
            && (exists next :: IsNotifyStep(next) && Enabled(s, next))
            && (IsNotifyStep(e) && Enabled(s, e) ==> Work(Step(s, e).phase) < Work(s.phase))
            && (!IsNotifyStep(e) ==> Step(s, e).phase == s.phase)
  {
    EveryRunKeepsInv(events);
    var s := Run(INITIAL, events);
    SomeNotifyStepIsEnabled(s);
    if IsNotifyStep(e) && Enabled(s, e) {
      NotifyStepsLeaveLess(s, e);
    }
  }

  // ---- What is announced, and to whom ----------------------------------------------

  /** A publication moves the pointer at once, and is announced exactly when content differs. */
  lemma ExactlyChangesAreAnnounced(s: State, snap: Snapshot)
    requires Enabled(s, Publish(snap))
    ensures var t := Step(s, Publish(snap));
            && t.cur == Some(snap) && t.subs == s.subs && t.holder == s.holder
            && (t.phase == Pending(snap) <==>
                  s.cur.None? || s.cur.value.flags != snap.flags || s.cur.value.quarantined != snap.quarantined)
            && (t.phase == Pending(snap) || t.phase == Idle)
  {
  }

  /** Everything ever placed in a channel that was not replaced before it was taken out. */
  function Delivered(sub: Sub): seq<Snapshot> {
    sub.received + if sub.buf.Some? then [sub.buf.value] else []
  }

  lemma CancelledStaysAsItIs(s: State, e: Event, id: nat)
    requires Inv(s) && id in s.subs && s.subs[id].stage.Cancelled?
    ensures var t := Step(s, e);
            id in t.subs && t.subs[id].stage.Cancelled? && Delivered(t.subs[id]) == Delivered(s.subs[id])
  {
    if e.Select? && Enabled(s, e) {
      SelectLeavesOthers(s, id);
    } else if e.Receive? && Enabled(s, e) && e.id == id {
      ReceivingDelivers(s.subs[id]);
    } else if Enabled(s, e) {
      OthersLeaveCancelled(s, e, id);
    }
  }

  lemma ReceivingDelivers(sub: Sub)
    requires sub.buf.Some?
    ensures Delivered(sub.(buf := None, received := sub.received + [sub.buf.value])) == Delivered(sub)
  {
  }

  lemma OthersLeaveCancelled(s: State, e: Event, id: nat)
    requires LockOk(s) && id in s.subs && s.subs[id].stage.Cancelled? && !e.Select? && e != Receive(id)
    ensures id in Step(s, e).subs && Step(s, e).subs[id] == s.subs[id]
  {
  }

  lemma SelectLeavesOthers(s: State, id: nat)
    requires LockOk(s) && Enabled(s, Select) && id in s.subs && s.subs[id].stage.Cancelled?
    ensures id in Step(s, Select).subs && Step(s, Select).subs[id] == s.subs[id]
  {
    assert s.phase.at.value in Table(s) && id !in Table(s);
  }

  /** After a cancel nothing more is ever placed, and what was there can still be received. */
  lemma {:induction false} CancelledChannelsAreLeftAlone(events: seq<Event>, id: nat, more: seq<Event>)
    requires Enabled(Run(INITIAL, events), Cancel(id))
    ensures var s, t := Run(INITIAL, events), Run(INITIAL, events + [Cancel(id)] + more);
            id in t.subs && t.subs[id].stage.Cancelled? && Delivered(t.subs[id]) == Delivered(s.subs[id])
    decreases |more|
  {
    var before := events + [Cancel(id)];
    if more == [] {
      assert before + more == before && before[..|events|] == events;
    } else {
      var n := |more| - 1;
      assert (before + more)[..|before| + n] == before + more[..n];
      CancelledChannelsAreLeftAlone(events, id, more[..n]);
      EveryRunKeepsInv(before + more[..n]);
      CancelledStaysAsItIs(Run(INITIAL, before + more[..n]), more[n], id);
    }
  }

  // ---- One publication, one subscriber ---------------------------------------------

  /** A subscriber that was there before receives what is published, and misses only what is replaced. */
  lemma APublicationIsReceived(a: Snapshot, b: Snapshot)
    requires a.generation == 1 && b.generation == 2 && a.flags != b.flags
    ensures var subscribed := [Register(0), Load(0), SendCurrent(0)];
            var once := subscribed + [Publish(a), Lock, NextChannel(0), Select, Unlock];
            var twice := once + [Publish(b), Lock, NextChannel(0), Select, Select, Select, Unlock];
            && 0 in Run(INITIAL, once + [Receive(0)]).subs
            && Run(INITIAL, once + [Receive(0)]).subs[0].received == [a]
            && 0 in Run(INITIAL, twice + [Receive(0)]).subs
            && Run(INITIAL, twice + [Receive(0)]).subs[0].received == [b]
  {
    var subscribed := [Register(0), Load(0), SendCurrent(0)];
    var first := [Publish(a), Lock, NextChannel(0), Select, Unlock];
    var second := [Publish(b), Lock, NextChannel(0), Select, Select, Select, Unlock];
    var s0 := State(None, Idle, Free, map[0 := Sub(Live, None, [])], false);
    var s1 := State(Some(a), Idle, Free, map[0 := Sub(Live, Some(a), [])], false);
    var s2 := State(Some(b), Idle, Free, map[0 := Sub(Live, Some(b), [])], false);
    Subscribing();
    RunAppend(INITIAL, subscribed, first);
    Announcing(a);
    RunAppend(INITIAL, subscribed + first, second);
    Superseding(a, b);
    RunAppend(INITIAL, subscribed + first, [Receive(0)]);
    RunAppend(INITIAL, subscribed + first + second, [Receive(0)]);
    RunOne(s1, Receive(0));
    RunOne(s2, Receive(0));
  }

  lemma RunOne(s: State, e: Event)
    ensures Run(s, [e]) == Step(s, e)
  {
    assert [e][..0] == [];
  }

  lemma {:induction false} RunAppend(s: State, events: seq<Event>, more: seq<Event>)
    ensures Run(s, events + more) == Run(Run(s, events), more)
    decreases |more|
  {
    if more == [] {
      assert events + more == events;
    } else {
      var n := |more| - 1;
      assert (events + more)[..|events| + n] == events + more[..n];
      RunAppend(s, events, more[..n]);
    }
  }

  lemma RunCons(s: State, e: Event, rest: seq<Event>)
    ensures Run(s, [e] + rest) == Run(Step(s, e), rest)
  {
    RunAppend(s, [e], rest);
    RunOne(s, e);
  }

  lemma Subscribing()
    ensures Run(INITIAL, [Register(0), Load(0), SendCurrent(0)])
            == State(None, Idle, Free, map[0 := Sub(Live, None, [])], false)
  {
    var registered := State(None, Idle, BySubscriber(0), map[0 := Sub(Registered, None, [])], false);
    var loaded := State(None, Idle, BySubscriber(0), map[0 := Sub(Loaded(None), None, [])], false);
    assert [Register(0), Load(0), SendCurrent(0)] == [Register(0)] + ([Load(0)] + [SendCurrent(0)]);
    RunCons(INITIAL, Register(0), [Load(0)] + [SendCurrent(0)]);
    assert Step(INITIAL, Register(0)) == registered;
    RunCons(registered, Load(0), [SendCurrent(0)]);
    assert Step(registered, Load(0)) == loaded;
    RunOne(loaded, SendCurrent(0));
  }

  function OneSub(cur: Option<Snapshot>, phase: Phase, holder: Holder, buf: Option<Snapshot>): State {
    State(cur, phase, holder, map[0 := Sub(Live, buf, [])], false)
  }

  lemma Announcing(a: Snapshot)
    requires a.generation == 1
    ensures Run(OneSub(None, Idle, Free, None), [Publish(a), Lock, NextChannel(0), Select, Unlock])
            == OneSub(Some(a), Idle, Free, Some(a))
  {
    var s := OneSub(None, Idle, Free, None);
    var p := OneSub(Some(a), Pending(a), Free, None);
    var rest := [Lock] + ([NextChannel(0)] + ([Select] + [Unlock]));
    assert [Publish(a), Lock, NextChannel(0), Select, Unlock] == [Publish(a)] + rest;
    RunCons(s, Publish(a), rest);
    assert Step(s, Publish(a)) == p;
    Reaching(a, None);
    RunCons(p, Lock, [NextChannel(0)] + ([Select] + [Unlock]));
    var at := OneSub(Some(a), Notifying(a, {}, Some(0), SendFirst), ByPublisher, None);
    RunCons(Step(p, Lock), NextChannel(0), [Select] + [Unlock]);
    RunCons(at, Select, [Unlock]);
    assert Step(at, Select) == OneSub(Some(a), Notifying(a, {}, None, SendFirst), ByPublisher, Some(a));
    RunOne(Step(at, Select), Unlock);
  }

  /** The publisher takes the lock and turns to the one channel there is. */
  lemma Reaching(a: Snapshot, buf: Option<Snapshot>)
    ensures Step(Step(OneSub(Some(a), Pending(a), Free, buf), Lock), NextChannel(0))
            == OneSub(Some(a), Notifying(a, {}, Some(0), SendFirst), ByPublisher, buf)
  {
    var p := OneSub(Some(a), Pending(a), Free, buf);
    assert Table(p) == {0};
    var todo: set<nat> := {0};
    assert Step(p, Lock) == OneSub(Some(a), Notifying(a, todo, None, SendFirst), ByPublisher, buf);
    assert todo - {0} == {};
  }

  lemma Superseding(a: Snapshot, b: Snapshot)
    requires a.generation == 1 && b.generation == 2 && a.flags != b.flags
    ensures Run(OneSub(Some(a), Idle, Free, Some(a)),
                [Publish(b), Lock, NextChannel(0), Select, Select, Select, Unlock])
            == OneSub(Some(b), Idle, Free, Some(b))
  {
    var s := OneSub(Some(a), Idle, Free, Some(a));
    var p := OneSub(Some(b), Pending(b), Free, Some(a));
    var selects := [Select] + ([Select] + ([Select] + [Unlock]));
    assert [Publish(b), Lock, NextChannel(0), Select, Select, Select, Unlock]
           == [Publish(b)] + ([Lock] + ([NextChannel(0)] + selects));
    RunCons(s, Publish(b), [Lock] + ([NextChannel(0)] + selects));
    assert Step(s, Publish(b)) == p;
    RunCons(p, Lock, [NextChannel(0)] + selects);
    Reaching(b, Some(a));
    RunCons(Step(p, Lock), NextChannel(0), selects);
    Replacing(a, b);
  }

  /** The send finds the channel full, discards what is there, and sends again. */
  lemma Replacing(a: Snapshot, b: Snapshot)
    ensures Run(OneSub(Some(b), Notifying(b, {}, Some(0), SendFirst), ByPublisher, Some(a)),
                [Select] + ([Select] + ([Select] + [Unlock])))
            == OneSub(Some(b), Idle, Free, Some(b))
  {
    var full := OneSub(Some(b), Notifying(b, {}, Some(0), SendFirst), ByPublisher, Some(a));
    var drain := OneSub(Some(b), Notifying(b, {}, Some(0), Drain), ByPublisher, Some(a));
    var again := OneSub(Some(b), Notifying(b, {}, Some(0), SendAgain), ByPublisher, None);
    RunCons(full, Select, [Select] + ([Select] + [Unlock]));
    assert Step(full, Select) == drain;
    RunCons(drain, Select, [Select] + [Unlock]);
    assert Step(drain, Select) == again;
    SendingAgain(b);
  }

  lemma SendingAgain(b: Snapshot)
    ensures Run(OneSub(Some(b), Notifying(b, {}, Some(0), SendAgain), ByPublisher, None), [Select] + [Unlock])
            == OneSub(Some(b), Idle, Free, Some(b))
  {
    var again := OneSub(Some(b), Notifying(b, {}, Some(0), SendAgain), ByPublisher, None);
    var done := OneSub(Some(b), Notifying(b, {}, None, SendFirst), ByPublisher, Some(b));
    RunCons(again, Select, [Unlock]);
    assert Step(again, Select) == done;
    RunOne(done, Unlock);
  }
}
