// pkg/client/updater.go and state.go: the object behind Updater.dfy. Each method is one of
// its steps, written as the source writes it.
module ClientObject {
  import opened Core
  import opened Evaluator
  import opened Updater

  class Client {
    var l1: Option<Entry>
    var cur: ClientState
    var readyCloses: nat
    var changes: seq<(ClientState, ClientState)>
    var applied: seq<Entry>
    var heard: Option<Heartbeat>

    function View(): State
      reads this
    {
      State(l1, cur, readyCloses, changes, applied, heard)
    }

    constructor (disk: Option<SnapshotView>)
      ensures View() == Start(disk)
    {
      l1, cur, readyCloses, changes, applied, heard := None, Uninitialized, 0, [], [], None;
      new;
      if disk.Some? {
        l1 := Some(Entry(disk.value, disk.value.generation, "", true));
        var _ := SetState(DegradedStale);
      }
    }

    /** One transition: re-entering a state is no event, and nothing leaves CLOSED. */
    method SetState(to: ClientState) returns (changed: bool)
      modifies `cur, `readyCloses, `changes
      ensures View() == Set(old(View()), to) && changed == (View() != old(View()))
    {
      var from := cur;
      if from == Closed || from == to {
        return false;
      }
      cur := to;
      if to.Serving() && readyCloses == 0 {
        readyCloses := 1;
      }
      changes := changes + [(from, to)];
      assert changes != old(changes);
      return true;
    }

    method OnLiveConfirmation(heldGen: int, sourceGen: int)
      modifies `cur, `readyCloses, `changes
      ensures View() == Confirm(old(View()), heldGen, sourceGen)
    {
      if heldGen < sourceGen {
        return;
      }
      var _ := SetState(Healthy);
    }

    method Generation() returns (gen: int)
      ensures gen == HeldGeneration(l1)
    {
      if l1.Some? {
        return l1.value.gen;
      }
      return 0;
    }

    /** The single funnel for everything that can change L1. */
    method ApplyUpdate(up: Update)
      modifies this
      ensures View() == Step(old(View()), Apply(up))
    {
      if up.snapshot.None? {
        var held := Generation();
        OnLiveConfirmation(held, up.generation);
        return;
      }
      var gen := up.snapshot.value.generation;
      var instanceChanged :=
        l1.Some? && l1.value.instanceID != "" && up.instanceID != "" && l1.value.instanceID != up.instanceID;
      if l1.Some? && !instanceChanged && gen < l1.value.gen {
        OnLiveConfirmation(l1.value.gen, gen);
        return;
      }
      if l1.Some? && !instanceChanged && gen == l1.value.gen && !l1.value.fromDisk {
        OnLiveConfirmation(l1.value.gen, gen);
        return;
      }
      var e := Entry(up.snapshot.value, gen, up.instanceID, false);
      l1 := Some(e);
      applied := applied + [e];
      OnLiveConfirmation(gen, up.generation);
    }

    /** First half of a heartbeat: what is held. */
    method HearHeartbeat(up: Update)
      requires heard.None? && up.snapshot.None?
      modifies `heard
      ensures View() == Step(old(View()), LoadHeld(up))
    {
      var held := Generation();
      heard := Some(Heartbeat(up, held, None));
    }

    /** Second half: whose it is. */
    method HearInstance()
      requires heard.Some? && heard.value.changed.None?
      modifies `heard
      ensures View() == Step(old(View()), LoadInstance)
    {
      var up := heard.value.up;
      var changed :=
        l1.Some? && up.instanceID != "" && l1.value.instanceID != "" && l1.value.instanceID != up.instanceID;
      heard := Some(heard.value.(changed := Some(changed)));
    }

    /** A gap asks for a fetch; otherwise what is held has been confirmed. */
    method DecideHeartbeat() returns (fetch: bool)
      requires heard.Some? && heard.value.changed.Some?
      modifies `heard, `cur, `readyCloses, `changes
      ensures View() == Step(old(View()), Decide)
      ensures fetch <==> old(heard.value.changed.value || heard.value.up.generation > heard.value.held)
    {
      var h := heard.value;
      heard := None;
      if h.changed.value || h.up.generation > h.held {
        return true;
      }
      OnLiveConfirmation(h.held, h.up.generation);
      return false;
    }

    /** Nothing stale to serve means the state is still UNINITIALIZED. */
    method DegradeStream()
      requires heard.None?
      modifies `cur, `readyCloses, `changes
      ensures View() == Step(old(View()), Degrade)
    {
      if l1.None? {
        return;
      }
      var _ := SetState(DegradedStale);
    }

    method Shutdown()
      modifies `cur, `readyCloses, `changes
      ensures View() == Step(old(View()), Close)
    {
      var _ := SetState(Closed);
    }
  }
}
