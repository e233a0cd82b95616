// internal/config/store.go: the store object. Every method takes the step StoreRuns.dfy
// specifies, and never writes an object a published snapshot holds.
module Store {
  import opened Core
  import opened Layers
  import opened Validate
  import opened Validators
  import opened Build
  import opened Builder
  import opened Resolver
  import opened Snapshots
  import opened Orders
  import opened StoreRuns

  /** One environment's outcome. */
  datatype EnvResult = EnvResult(
    published: bool, contentChanged: bool, generation: int, previousGeneration: int,
    rejected: seq<Finding>, quarantined: seq<Finding>, warnings: seq<Finding>,
    quarantinedFlags: set<string>)

  datatype BuildReport = BuildReport(global: seq<Finding>, perEnv: map<string, EnvResult>)

  function GenerationOf(cur: Option<Snapshot>): int { if cur.Some? then cur.value.generation else 0 }

  /** The report says what happened between two states of a slot. */
  ghost predicate Describes(res: EnvResult, before: Slot, after: Slot) {
    && res.previousGeneration == GenerationOf(before.cur) && res.generation == GenerationOf(after.cur)
    && (res.published <==> after != before)
    && (res.published ==>
          && res.rejected == [] && after.cur.Some?
          && res.quarantinedFlags == after.cur.value.quarantined
          && Quarantines(res.quarantined, after.cur.value.quarantined))
    && (res.contentChanged <==> res.published && ContentChanged(before.cur, after.cur.value))
  }

  /** The environments a report on a write has a result for. */
  function Reported(layer: Layer, envs: set<string>): set<string> {
    match layer
    case Base(_) => envs
    case Overlay(l) => if l.environment == "" then {} else {l.environment}
    case Ops(l) => if l.environment == "" then {} else {l.environment}
    case UnknownLayer => {}
  }

  /** Writes that are refused whole. */
  ghost predicate IsRefused(layer: Layer) {
    match layer
    case Base(l) => l.Some? && !BaseAccepted(l.value)
    case Overlay(l) => l.environment == ""
    case Ops(l) => l.environment == ""
    case UnknownLayer => true
  }

  /** What a result tells about the two states of a slot, told key by key. */
  lemma ResultsTellTheTruth(res: EnvResult, before: Slot, after: Slot)
    requires Describes(res, before, after) && (before.cur.Some? && after.cur.None? ==> before == after)
    ensures res.published <==> after != before
    ensures res.generation == (if after.cur.Some? then after.cur.value.generation else 0)
    ensures res.previousGeneration == (if before.cur.Some? then before.cur.value.generation else 0)
    ensures res.published ==>
              && after.cur.Some? && res.quarantinedFlags == after.cur.value.quarantined
              && forall key :: key in after.cur.value.quarantined <==> exists f :: f in res.quarantined && f.flag == key
    ensures res.contentChanged <==>
              && res.published
              && (before.cur.None? || exists key ::
                    || !(key in after.cur.value.flags <==> key in before.cur.value.flags)
                    || (key in after.cur.value.flags && key in before.cur.value.flags
                        && after.cur.value.flags[key] != before.cur.value.flags[key])
                    || !(key in after.cur.value.quarantined <==> key in before.cur.value.quarantined))
  {
    if res.published {
      ChangesAreSeenKeyByKey(before.cur, after.cur.value);
      assert forall key :: key in FlagsOf(res.quarantined) <==> exists f :: f in res.quarantined && f.flag == key;
    }
  }

  class EnvState {
    var cur: SnapshotObject?
    var gen: int

    constructor ()
      ensures cur == null && gen == 0
    {
      cur, gen := null, 0;
    }

    ghost function View(): Slot
      reads this
    {
      Slot(ContentOf(cur), gen)
    }

    method Swap(snap: SnapshotObject)
      modifies this
      ensures cur == snap && gen == old(gen) + 1
    {
      gen := gen + 1;
      cur := snap;
    }
  }

  /** What a build relies on in the slot it starts from. */
  ghost predicate CurrentOk(slot: Slot) {
    KeysMatch(slot.cur) && (slot.cur.Some? ==> slot.cur.value.generation == slot.gen)
  }

  method Changed(prev: SnapshotObject?, snap: SnapshotObject) returns (changed: bool)
    requires snap.Frozen() && (prev != null ==> prev.Frozen())
    ensures changed == ContentChanged(ContentOf(prev), snap.content)
  {
    changed :=
      prev == null || prev.Fingerprint() != snap.Fingerprint() || prev.quarantined != snap.quarantined;
  }

  ghost function SlotAfter(prev: SnapshotObject?, gen: int, snap: SnapshotObject?): Slot {
    if snap == null then Slot(ContentOf(prev), gen) else Slot(Some(snap.content), gen + 1)
  }

  method Report(prev: SnapshotObject?, snap: SnapshotObject?, rejected: seq<Finding>, quarantined: seq<Finding>,
                warnings: seq<Finding>, ghost gen: int)
    returns (res: EnvResult)
    requires CurrentOk(Slot(ContentOf(prev), gen)) && (prev != null ==> prev.Frozen())
    requires snap != null ==>
               && snap.Frozen() && snap.content.generation == gen + 1
               && Quarantines(quarantined, snap.content.quarantined)
    requires snap != null <==> rejected == []
    ensures Describes(res, Slot(ContentOf(prev), gen), SlotAfter(prev, gen, snap))
    ensures (res.published <==> res.rejected == []) && (res.published <==> snap != null)
  {
    var prevGen := if prev != null then prev.generation else 0;
    if snap == null {
      return EnvResult(false, false, prevGen, prevGen, rejected, quarantined, warnings, {});
    }
    var changed := Changed(prev, snap);
    res := EnvResult(true, changed, snap.generation, prevGen, [], quarantined, warnings, snap.quarantined);
  }

  /** One build, up to publication: the snapshot to swap in, and the report. */
  method Attempt(env: string, base: Option<BaseLayer>, overlay: Option<OverlayLayer>, ops: Option<OpsLayer>,
                 now: int, prev: SnapshotObject?, gen: int)
    returns (snap: SnapshotObject?, res: EnvResult)
    requires (base.Some? ==> BaseAccepted(base.value)) && CurrentOk(Slot(ContentOf(prev), gen))
    requires prev != null ==> prev.Frozen()
    ensures SlotAfter(prev, gen, snap) == BuildEnv(env, Slot(ContentOf(prev), gen), base, overlay, ops, now)
    ensures snap != null ==> fresh(snap) && fresh(snap.repr) && snap.Frozen()
    ensures Describes(res, Slot(ContentOf(prev), gen), SlotAfter(prev, gen, snap))
    ensures (res.published <==> res.rejected == []) && (res.published <==> snap != null)
  {
    if base.None? {
      snap := null;
      res := Report(prev, null, [NO_BASE], [], [], gen);
    } else {
      var rejected, quarantined, warnings;
      snap, rejected, quarantined, warnings := BuildSnapshot(env, Input(base.value, overlay, ops, now), prev, gen);
      res := Report(prev, snap, rejected, quarantined, warnings, gen);
    }
  }

  ghost predicate HasRejections(findings: seq<Finding>) {
    exists f | f in findings :: f.severity.IsRejection()
  }

  lemma BaseRejections(l: Option<BaseLayer>, findings: seq<Finding>)
    requires l.None? ==> findings == []
    requires l.Some? ==> forall f :: f in findings <==> IsBaseFinding(l.value.flags, f)
    ensures HasRejections(findings) <==> l.Some? && !BaseAccepted(l.value)
  {
    if l.Some? && !BaseAccepted(l.value) {
      var i, id :| 0 <= i < |l.value.flags| && BaseBreaks(l.value.flags, i, id) && id != B13;
      assert Finding(id, l.value.flags[i].key, LayerBase, SeverityRejectGlobal) in findings;
    }
    if HasRejections(findings) {
      var f :| f in findings && f.severity.IsRejection();
      assert f.id != B13;
    }
  }

  const UNKNOWN_LAYER := Finding(E00, "", LayerNone, SeverityRejectGlobal)

  /** No two snapshots share an object: no list, no flag, no rollout. */
  ghost predicate Disjoint(published: set<SnapshotObject>) {
    forall s, t | s in published && t in published && s != t :: s.repr !! t.repr
  }

  ghost predicate AllFrozen(published: set<SnapshotObject>, frozen: set<object>)
    reads frozen
  {
    forall s | s in published :: s.repr <= frozen && s.Frozen()
  }

  lemma OneMoreFrozen(published: set<SnapshotObject>, frozen: set<object>, s: SnapshotObject)
    requires AllFrozen(published, frozen) && Disjoint(published) && s.Frozen() && s.repr !! frozen
    ensures AllFrozen(published + {s}, frozen + s.repr) && Disjoint(published + {s})
  {
  }

  /** Some of the slots moved on to `target`, the others still as they were. */
  ghost function Partly(s: State, target: map<string, Slot>, done: set<string>): State
    requires done <= target.Keys
  {
    s.(envs := map e | e in s.envs :: if e in done then target[e] else s.envs[e])
  }

  lemma PartlyMore(s: State, target: map<string, Slot>, done: set<string>, env: string, t: State)
    requires target.Keys == s.envs.Keys && done <= target.Keys && env in target && env !in done
    requires t == Partly(s, target, done).(envs := Partly(s, target, done).envs[env := target[env]])
    ensures t == Partly(s, target, done + {env})
  {
    assert forall e :: e in t.envs <==> e in s.envs;
  }

  lemma PartlyEnds(s: State, target: map<string, Slot>)
    requires target.Keys == s.envs.Keys
    ensures Partly(s, target, {}) == s && Partly(s, target, target.Keys) == s.(envs := target)
  {
  }

  /** One result per environment, each saying what happened to it. */
  ghost predicate DescribesAll(perEnv: map<string, EnvResult>, keys: set<string>, before: State, after: State) {
    && perEnv.Keys == keys
    && forall e | e in perEnv :: Describes(perEnv[e], SlotIn(before, e), SlotIn(after, e))
  }

  lemma DescribesMore(perEnv: map<string, EnvResult>, done: set<string>, s: State, t: State, u: State,
                      env: string, res: EnvResult)
    requires env !in done && DescribesAll(perEnv, done, s, t)
    requires forall e | e != env :: SlotIn(u, e) == SlotIn(t, e)
    requires Describes(res, SlotIn(s, env), SlotIn(u, env))
    ensures DescribesAll(perEnv[env := res], done + {env}, s, u)
  {
  }

  lemma SameSlots(perEnv: map<string, EnvResult>, keys: set<string>, s: State, t: State, u: State)
    requires DescribesAll(perEnv, keys, t, u) && s.envs == t.envs
    ensures DescribesAll(perEnv, keys, s, u)
  {
  }

  lemma EnsuringChangesNoSlot(perEnv: map<string, EnvResult>, keys: set<string>, s: State, env: string, u: State)
    requires DescribesAll(perEnv, keys, StoreRuns.EnsureEnv(s, env), u)
    ensures DescribesAll(perEnv, keys, s, u)
  {
  }

  lemma OneResult(env: string, now: int, s: State, after: Slot, res: EnvResult)
    requires env in s.envs && after == BuildOne(s, env, now) && Describes(res, s.envs[env], after)
    ensures BuildInto(s, env, now) == s.(envs := s.envs[env := after])
    ensures DescribesAll(map[env := res], {env}, s, BuildInto(s, env, now))
  {
  }

  lemma Advance(perEnv: map<string, EnvResult>, done: set<string>, s: State, target: map<string, Slot>,
                t: State, u: State, env: string, res: EnvResult)
    requires target.Keys == s.envs.Keys && done <= target.Keys && env in target && env !in done
    requires t == Partly(s, target, done) && u == t.(envs := t.envs[env := target[env]])
    requires DescribesAll(perEnv, done, s, t) && Describes(res, s.envs[env], target[env])
    ensures u == Partly(s, target, done + {env})
    ensures DescribesAll(perEnv[env := res], done + {env}, s, u)
  {
    PartlyMore(s, target, done, env, u);
    DescribesMore(perEnv, done, s, t, u, env, res);
  }

  /** Which slot object an environment has, and which snapshot object that slot serves. */
  type Pointers = map<string, (EnvState, SnapshotObject?)>

  /** An environment without a result, or whose build did not publish, keeps both. */
  ghost predicate PointersKept(before: Pointers, after: Pointers, perEnv: map<string, EnvResult>) {
    forall e | e in before && (e !in perEnv || !perEnv[e].published) :: e in after && after[e] == before[e]
  }

  /** One build may move one pointer, and only by publishing. */
  ghost predicate MovesOne(before: Pointers, after: Pointers, env: string, res: EnvResult) {
    && env in before && env in after && after == before[env := after[env]]
    && (!res.published ==> after[env] == before[env])
  }

  lemma KeptNext(start: Pointers, before: Pointers, after: Pointers, perEnv: map<string, EnvResult>,
                 env: string, res: EnvResult)
    requires PointersKept(start, before, perEnv) && MovesOne(before, after, env, res) && env !in perEnv
    ensures PointersKept(start, after, perEnv[env := res])
  {
  }

  /** Knowing one more environment moves nothing. */
  lemma KeptAfterMore(start: Pointers, before: Pointers, after: Pointers, perEnv: map<string, EnvResult>)
    requires PointersKept(before, after, perEnv) && forall e | e in start :: e in before && before[e] == start[e]
    ensures PointersKept(start, after, perEnv)
  {
  }

  /** The slots a rebuild of everything ends with. */
  ghost predicate IsTarget(s: State, target: map<string, Slot>, now: int) {
    target.Keys == s.envs.Keys && forall e | e in target :: target[e] == BuildOne(s, e, now)
  }

  lemma TargetIsReached(s: State, target: map<string, Slot>, done: set<string>, env: string, now: int)
    requires IsTarget(s, target, now) && done <= target.Keys && env in target && env !in done
    ensures BuildOne(Partly(s, target, done), env, now) == target[env]
    ensures Partly(s, target, done).envs[env] == s.envs[env]
  {
  }

  lemma HeldOverlayIsOk(s: State, l: OverlayLayer)
    requires StateOk(s) && l.environment != ""
    ensures StateOk(s.(overlays := s.overlays[l.environment := l]))
  {
  }

  lemma HeldOpsIsOk(s: State, l: OpsLayer)
    requires StateOk(s) && l.environment != ""
    ensures StateOk(s.(ops := s.ops[l.environment := l]))
  {
  }

  class Store {
    var base: Option<BaseLayer>
    var overlays: map<string, OverlayLayer>
    var ops: map<string, OpsLayer>
    var envs: map<string, EnvState>
    var lastRejected: map<string, Layer>
    ghost var published: set<SnapshotObject>
    ghost var frozen: set<object>

    /** The state the step function is about. */
    ghost function View(): State
      reads `base, `overlays, `ops, `envs, envs.Values
    {
      State(base, overlays, ops, Slots())
    }

    ghost function Slots(): map<string, Slot>
      reads `envs, envs.Values
    {
      map e | e in envs :: envs[e].View()
    }

    ghost function PointersNow(): Pointers
      reads `envs, envs.Values
    {
      map e | e in envs :: (envs[e], envs[e].cur)
    }

    /** No slot object is replaced, and no snapshot pointer moves except by a publication reported. */
    twostate predicate KeepsPointers(perEnv: map<string, EnvResult>)
      reads `envs, envs.Values
    {
      forall e | e in old(envs) && (e !in perEnv || !perEnv[e].published) ::
        e in envs && envs[e] == old(envs[e]) && envs[e].cur == old(envs[e].cur)
    }

    twostate lemma KeptMeansKept(perEnv: map<string, EnvResult>)
      requires PointersKept(old(PointersNow()), PointersNow(), perEnv)
      ensures KeepsPointers(perEnv)
    {
      forall e | e in old(envs) && (e !in perEnv || !perEnv[e].published)
        ensures e in envs && envs[e] == old(envs[e]) && envs[e].cur == old(envs[e].cur)
      {
        assert e in old(PointersNow());
      }
    }

    /** Slots are separate objects, and serve snapshots that have been published. */
    ghost predicate SlotsOk()
      reads this, envs.Values
    {
      && (forall a, b | a in envs && b in envs && a != b :: envs[a] != envs[b])
      && (forall e | e in envs :: envs[e] !in frozen && (envs[e].cur != null ==> envs[e].cur in published))
    }

    /** Everything published is intact, and shares nothing. */
    ghost predicate Intact()
      reads this, frozen
    {
      this !in frozen && Disjoint(published) && AllFrozen(published, frozen)
    }

    ghost predicate Valid()
      reads this, envs.Values, frozen
    {
      SlotsOk() && Intact() && StateOk(View())
    }

    constructor (names: seq<string>)
      ensures Valid() && View() == Initial((set e | e in names) - {""}) && published == {}
    {
      base, overlays, ops, lastRejected := None, map[], map[], map[];
      envs, published, frozen := map[], {}, {};
      new;
      for i := 0 to |names|
        invariant this !in frozen && SlotsOk() && published == {} && frozen == {}
        invariant base == None && overlays == map[] && ops == map[]
        invariant forall e | e in envs :: fresh(envs[e]) && envs[e].View() == EMPTY_SLOT
        invariant envs.Keys == (set e | e in names[..i]) - {""}
      {
        assert names[..i + 1] == names[..i] + [names[i]];
        if names[i] != "" {
          var st := new EnvState();
          envs := envs[names[i] := st];
        }
      }
      assert names[..|names|] == names;
    }

    method EnsureEnv(env: string)
      requires Valid()
      modifies `envs
      ensures Valid() && View() == StoreRuns.EnsureEnv(old(View()), env)
      ensures env in envs && (envs.Values == old(envs.Values) || fresh(envs.Values - old(envs.Values)))
      ensures forall e | e in old(PointersNow()) :: e in PointersNow() && PointersNow()[e] == old(PointersNow()[e])
    {
      if env !in envs {
        AddEnv(env);
        AddedKeepsSlots(env);
        AddedIsEmpty(env);
        assert StateOk(StoreRuns.EnsureEnv(old(View()), env));
      }
    }

    method AddEnv(env: string)
      requires SlotsOk() && Intact() && env !in envs
      modifies `envs
      ensures env in envs && envs == old(envs)[env := envs[env]]
      ensures fresh(envs[env]) && envs[env].View() == EMPTY_SLOT
    {
      var st := new EnvState();
      envs := envs[env := st];
    }

    twostate lemma AddedKeepsSlots(env: string)
      requires old(SlotsOk()) && old(Intact()) && env !in old(envs) && published == old(published)
      requires frozen == old(frozen)
      requires env in envs && envs == old(envs)[env := envs[env]] && fresh(envs[env]) && envs[env].View() == EMPTY_SLOT
      requires unchanged(old(envs.Values)) && unchanged(old(frozen))
      ensures SlotsOk() && Intact()
    {
    }

    twostate lemma AddedIsEmpty(env: string)
      requires env in envs && envs == old(envs)[env := envs[env]] && envs[env].View() == EMPTY_SLOT
      requires base == old(base) && overlays == old(overlays) && ops == old(ops) && unchanged(old(envs.Values))
      requires env !in old(envs) && fresh(envs[env])
      ensures View() == old(View()).(envs := old(View()).envs[env := EMPTY_SLOT])
    {
    }

    /** Resolves one environment end to end; the swap is the last thing that happens. */
    method BuildEnv(env: string, now: int) returns (res: EnvResult, ghost after: Slot)
      requires Valid() && env in envs
      modifies `published, `frozen, envs[env]
      ensures Valid() && old(published) <= published
      ensures after == BuildOne(old(View()), env, now)
      ensures View() == old(View()).(envs := old(View()).envs[env := after])
      ensures Describes(res, old(View()).envs[env], after) && (res.published <==> res.rejected == [])
      ensures MovesOne(old(PointersNow()), PointersNow(), env, res)
    {
      BuildIntoKeepsStateOk(View(), env, now);
      CurrentIsSound(env);
      res, after := BuildSlot(env, now);
    }

    lemma CurrentIsSound(env: string)
      requires StateOk(View()) && env in envs
      ensures CurrentOk(envs[env].View()) && (base.Some? ==> BaseAccepted(base.value))
    {
      assert SlotOk(env, View().envs[env]);
    }

    method BuildSlot(env: string, now: int) returns (res: EnvResult, ghost after: Slot)
      requires SlotsOk() && Intact() && env in envs
      requires CurrentOk(envs[env].View()) && (base.Some? ==> BaseAccepted(base.value))
      modifies `published, `frozen, envs[env]
      ensures SlotsOk() && Intact() && old(published) <= published
      ensures after == Build.BuildEnv(env, old(envs[env].View()), base, Lookup(overlays, env), Lookup(ops, env), now)
      ensures envs[env].View() == after
      ensures View() == old(View()).(envs := old(View()).envs[env := after])
      ensures Describes(res, old(envs[env].View()), after) && (res.published <==> res.rejected == [])
      ensures MovesOne(old(PointersNow()), PointersNow(), env, res)
    {
      var snap;
      snap, res := AttemptHere(env, now);
      after := SlotAfter(envs[env].cur, envs[env].gen, snap);
      InstallIfAny(env, snap, after);
    }

    method AttemptHere(env: string, now: int) returns (snap: SnapshotObject?, res: EnvResult)
      requires SlotsOk() && Intact() && env in envs
      requires CurrentOk(envs[env].View()) && (base.Some? ==> BaseAccepted(base.value))
      ensures SlotAfter(envs[env].cur, envs[env].gen, snap)
              == Build.BuildEnv(env, envs[env].View(), base, Lookup(overlays, env), Lookup(ops, env), now)
      ensures snap != null ==>
                snap.Frozen() && snap.repr !! frozen && snap.repr !! envs.Values && this !in snap.repr
      ensures Describes(res, envs[env].View(), SlotAfter(envs[env].cur, envs[env].gen, snap))
      ensures (res.published <==> res.rejected == []) && (res.published <==> snap != null)
      ensures SlotsOk() && Intact()
    {
      CurrentIsFrozen(env);
      snap, res := Attempt(env, base, Lookup(overlays, env), Lookup(ops, env), now, envs[env].cur, envs[env].gen);
    }

    /** A failed build simply never reaches the swap. */
    method InstallIfAny(env: string, snap: SnapshotObject?, ghost after: Slot)
      requires SlotsOk() && Intact() && env in envs
      requires after == SlotAfter(envs[env].cur, envs[env].gen, snap)
      requires snap != null ==>
                 snap.Frozen() && snap.repr !! frozen && snap.repr !! envs.Values && this !in snap.repr
      modifies `published, `frozen, envs[env]
      ensures SlotsOk() && Intact() && old(published) <= published && envs[env].View() == after
      ensures View() == old(View()).(envs := old(View()).envs[env := after])
      ensures snap == null ==> envs[env].cur == old(envs[env].cur)
      ensures PointersNow() == old(PointersNow())[env := (envs[env], envs[env].cur)]
    {
      if snap != null {
        Install(env, snap);
      }
    }

    lemma CurrentIsFrozen(env: string)
      requires SlotsOk() && Intact() && env in envs
      ensures envs[env].cur != null ==> envs[env].cur.Frozen()
    {
    }

    /** Publication: the pointer swap. */
    method Install(env: string, snap: SnapshotObject)
      requires SlotsOk() && Intact() && env in envs
      requires snap.Frozen() && snap.repr !! frozen && snap.repr !! envs.Values && this !in snap.repr
      modifies `published, `frozen, envs[env]
      ensures SlotsOk() && Intact()
      ensures published == old(published) + {snap} && frozen == old(frozen) + snap.repr
      ensures envs[env].View() == Slot(Some(snap.content), old(envs[env].gen) + 1)
      ensures View() == old(View()).(envs := old(View()).envs[env := envs[env].View()])
      ensures PointersNow() == old(PointersNow())[env := (envs[env], envs[env].cur)]
    {
      Record(snap);
      Publish(env, snap);
    }

    ghost method Record(snap: SnapshotObject)
      requires SlotsOk() && Intact()
      requires snap.Frozen() && snap.repr !! frozen && snap.repr !! envs.Values && this !in snap.repr
      modifies `published, `frozen
      ensures SlotsOk() && Intact()
      ensures published == old(published) + {snap} && frozen == old(frozen) + snap.repr
    {
      published, frozen := published + {snap}, frozen + snap.repr;
      RecordedKeepsSlots(snap);
      RecordedIsIntact(snap);
    }

    twostate lemma RecordedIsIntact(snap: SnapshotObject)
      requires old(Intact()) && snap.Frozen() && snap.repr !! old(frozen) && this !in snap.repr
      requires unchanged(old(frozen)) && published == old(published) + {snap} && frozen == old(frozen) + snap.repr
      ensures Intact()
    {
      OneMoreFrozen(old(published), old(frozen), snap);
    }

    twostate lemma RecordedKeepsSlots(snap: SnapshotObject)
      requires old(SlotsOk()) && envs == old(envs) && unchanged(old(envs.Values)) && snap.repr !! envs.Values
      requires published == old(published) + {snap} && frozen == old(frozen) + snap.repr
      ensures SlotsOk()
    {
    }

    method Publish(env: string, snap: SnapshotObject)
      requires SlotsOk() && Intact() && env in envs && snap in published
      modifies envs[env]
      ensures SlotsOk() && Intact()
      ensures envs[env].View() == Slot(Some(snap.content), old(envs[env].gen) + 1)
      ensures View() == old(View()).(envs := old(View()).envs[env := envs[env].View()])
      ensures PointersNow() == old(PointersNow())[env := (envs[env], envs[env].cur)]
    {
      envs[env].Swap(snap);
      SwappedMovesOne(env);
    }

    twostate lemma SwappedMovesOne(env: string)
      requires env in envs && envs == old(envs)
      requires forall e | e in envs && e != env ::
                 envs[e].View() == old(envs[e].View()) && envs[e].cur == old(envs[e].cur)
      ensures Slots() == old(Slots())[env := envs[env].View()]
      ensures PointersNow() == old(PointersNow())[env := (envs[env], envs[env].cur)]
    {
    }

    /** A rebuild of `start`, begun with the pointers `first`, that has done the environments `done`. */
    ghost predicate Rebuilt(start: State, target: map<string, Slot>, first: Pointers,
                            perEnv: map<string, EnvResult>, done: set<string>)
      reads this, envs.Values, frozen
    {
      && Valid() && done <= target.Keys && View() == Partly(start, target, done)
      && DescribesAll(perEnv, done, start, View()) && PointersKept(first, PointersNow(), perEnv)
    }

    /** One environment of a rebuild, on the way to `target`. */
    method BuildTo(env: string, now: int, ghost start: State, ghost target: map<string, Slot>, ghost done: set<string>)
      returns (res: EnvResult)
      requires Valid() && IsTarget(start, target, now) && done <= target.Keys
      requires env in envs && env in target && env !in done && View() == Partly(start, target, done)
      modifies `published, `frozen, envs[env]
      ensures Valid() && old(published) <= published
      ensures View() == old(View()).(envs := old(View()).envs[env := target[env]])
      ensures Describes(res, start.envs[env], target[env])
      ensures MovesOne(old(PointersNow()), PointersNow(), env, res)
    {
      TargetIsReached(start, target, done, env, now);
      ghost var after;
      res, after := BuildEnv(env, now);
    }

    method RebuildOne(env: string, now: int, before: map<string, EnvResult>,
                      ghost start: State, ghost target: map<string, Slot>, ghost done: set<string>,
                      ghost first: Pointers)
      returns (perEnv: map<string, EnvResult>)
      requires IsTarget(start, target, now) && Rebuilt(start, target, first, before, done)
      requires env in envs && env in target && env !in done
      modifies `published, `frozen, envs[env]
      ensures old(published) <= published && Rebuilt(start, target, first, perEnv, done + {env})
    {
      ghost var t, was := View(), PointersNow();
      var res := BuildTo(env, now, start, target, done);
      Advance(before, done, start, target, t, View(), env, res);
      KeptNext(first, was, PointersNow(), before, env, res);
      perEnv := before[env := res];
    }

    method RebuildNext(order: seq<string>, i: nat, now: int, before: map<string, EnvResult>,
                       ghost start: State, ghost target: map<string, Slot>, ghost first: Pointers)
      returns (perEnv: map<string, EnvResult>)
      requires IsTarget(start, target, now) && IsOrder(order, target.Keys) && i < |order|
      requires Rebuilt(start, target, first, before, KeySet(order[..i]))
      modifies `published, `frozen, envs.Values
      ensures old(published) <= published && Rebuilt(start, target, first, perEnv, KeySet(order[..i + 1]))
    {
      NextKey(order, i);
      assert order[i] in KeySet(order);
      perEnv := RebuildOne(order[i], now, before, start, target, KeySet(order[..i]), first);
    }

    method RebuildAll(now: int) returns (perEnv: map<string, EnvResult>)
      requires Valid()
      modifies `published, `frozen, envs.Values
      ensures Valid() && old(published) <= published && View() == BuildAll(old(View()), now)
      ensures DescribesAll(perEnv, envs.Keys, old(View()), View())
      ensures PointersKept(old(PointersNow()), PointersNow(), perEnv)
    {
      ghost var start := View();
      ghost var target := BuildAll(start, now).envs;
      PartlyEnds(start, target);
      perEnv := Rebuilding(now, start, target);
    }

    lemma NoneRebuilt(start: State, target: map<string, Slot>)
      requires Valid() && View() == start && target.Keys == start.envs.Keys
      ensures Rebuilt(start, target, PointersNow(), map[], {})
    {
      PartlyEnds(start, target);
    }

    method Rebuilding(now: int, ghost start: State, ghost target: map<string, Slot>)
      returns (perEnv: map<string, EnvResult>)
      requires Valid() && View() == start && IsTarget(start, target, now)
      modifies `published, `frozen, envs.Values
      ensures Valid() && old(published) <= published && View() == Partly(start, target, target.Keys)
      ensures DescribesAll(perEnv, target.Keys, start, View())
      ensures PointersKept(old(PointersNow()), PointersNow(), perEnv)
    {
      perEnv := map[];
      ghost var first := PointersNow();
      var order := Ordered(envs.Keys);
      NoneRebuilt(start, target);
      WholeOrder(order, target.Keys);
      for i := 0 to |order|
        invariant old(published) <= published && Rebuilt(start, target, first, perEnv, KeySet(order[..i]))
      {
        perEnv := RebuildNext(order, i, now, perEnv, start, target, first);
      }
    }

    // ---- The operations --------------------------------------------------------------

    method Rebuild(now: int) returns (report: BuildReport)
      requires Valid()
      modifies `published, `frozen, envs.Values
      ensures Valid() && old(published) <= published && View() == Step(old(View()), Op.Rebuild(now))
      ensures report.global == [] && DescribesAll(report.perEnv, envs.Keys, old(View()), View())
      ensures KeepsPointers(report.perEnv)
    {
      var perEnv := RebuildAll(now);
      KeptMeansKept(perEnv);
      report := BuildReport([], perEnv);
    }

    method HoldBase(l: Option<BaseLayer>)
      requires Valid() && (l.Some? ==> BaseAccepted(l.value))
      modifies `base
      ensures Valid() && View() == old(View()).(base := l)
    {
      base := l;
    }

    /** Everything found against a rejected base; the warnings about an accepted one. */
    method JudgeBase(l: Option<BaseLayer>) returns (global: seq<Finding>, rejected: bool)
      ensures rejected <==> HasRejections(global)
      ensures rejected <==> l.Some? && !BaseAccepted(l.value)
    {
      global := ValidateBase(l);
      var rejections := Rejections(global);
      BaseRejections(l, global);
      rejected := rejections != [];
      assert rejected ==> rejections[0] in global;
      if HasRejections(global) {
        var f :| f in global && f.severity.IsRejection();
        assert f in rejections;
      }
      if !rejected {
        global := Warns(global);
      }
    }

    /** Kept for forensics, and never merged into anything. */
    method Reject(key: string, layer: Layer)
      requires Valid()
      modifies `lastRejected
      ensures Valid() && View() == old(View()) && lastRejected == old(lastRejected)[key := layer]
    {
      lastRejected := lastRejected[key := layer];
    }

    method RejectBase(l: Option<BaseLayer>, findings: seq<Finding>) returns (perEnv: map<string, EnvResult>)
      requires Valid()
      modifies `lastRejected
      ensures Valid() && View() == old(View()) && DescribesAll(perEnv, envs.Keys, View(), View())
      ensures lastRejected == old(lastRejected)["base" := Base(l)]
    {
      Reject("base", Base(l));
      var warns := Warns(findings);
      perEnv := StatusAll(warns);
    }

    method AcceptBase(l: Option<BaseLayer>, now: int) returns (perEnv: map<string, EnvResult>)
      requires Valid() && (l.Some? ==> BaseAccepted(l.value))
      modifies `base, `published, `frozen, envs.Values
      ensures Valid() && old(published) <= published
      ensures View() == Step(old(View()), Op.Set(Base(l), now))
      ensures DescribesAll(perEnv, envs.Keys, old(View()), View()) && KeepsPointers(perEnv)
    {
      ghost var start := View();
      HoldBase(l);
      ghost var held := View();
      perEnv := RebuildAll(now);
      SameSlots(perEnv, envs.Keys, start, held, View());
      KeptMeansKept(perEnv);
    }

    /** A base write judges the base, then rebuilds every environment or none. */
    method SetBase(l: Option<BaseLayer>, now: int) returns (report: BuildReport)
      requires Valid()
      modifies `base, `lastRejected, `published, `frozen, envs.Values
      ensures Valid() && old(published) <= published && View() == Step(old(View()), Op.Set(Base(l), now))
      ensures DescribesAll(report.perEnv, envs.Keys, old(View()), View())
      ensures HasRejections(report.global) <==> l.Some? && !BaseAccepted(l.value)
      ensures lastRejected == if l.Some? && !BaseAccepted(l.value) then old(lastRejected)["base" := Base(l)]
                              else old(lastRejected)
      ensures KeepsPointers(if l.Some? && !BaseAccepted(l.value) then map[] else report.perEnv)
      ensures base == if l.Some? && !BaseAccepted(l.value) then old(base) else l
    {
      ghost var start := View();
      var global, rejected := JudgeBase(l);
      assert View() == start;
      var perEnv;
      if rejected {
        perEnv := RejectBase(l, global);
      } else {
        perEnv := AcceptBase(l, now);
      }
      report := BuildReport(global, perEnv);
    }

    method StatusOf(env: string, warns: seq<Finding>) returns (res: EnvResult)
      requires SlotsOk() && Intact() && env in envs
      ensures Describes(res, envs[env].View(), envs[env].View())
    {
      CurrentIsFrozen(env);
      var gen := if envs[env].cur != null then envs[env].cur.generation else 0;
      res := EnvResult(false, false, gen, gen, [], [], warns, {});
    }

    /** Every environment as it is, without rebuilding any. */
    method StatusAll(warns: seq<Finding>) returns (perEnv: map<string, EnvResult>)
      requires Valid()
      ensures DescribesAll(perEnv, envs.Keys, View(), View())
    {
      perEnv := map[];
      var todo := envs.Keys;
      while todo != {}
        invariant todo <= envs.Keys && DescribesAll(perEnv, envs.Keys - todo, View(), View())
        decreases |todo|
      {
        var env :| env in todo;
        var res := StatusOf(env, warns);
        DescribesMore(perEnv, envs.Keys - todo, View(), View(), View(), env, res);
        assert envs.Keys - todo + {env} == envs.Keys - (todo - {env});
        perEnv, todo := perEnv[env := res], todo - {env};
      }
    }

    method HoldOverlay(l: OverlayLayer)
      requires Valid() && l.environment != ""
      modifies `overlays
      ensures Valid() && View() == old(View()).(overlays := old(overlays)[l.environment := l])
    {
      HeldOverlayIsOk(View(), l);
      overlays := overlays[l.environment := l];
    }

    method HoldOps(l: OpsLayer)
      requires Valid() && l.environment != ""
      modifies `ops
      ensures Valid() && View() == old(View()).(ops := old(ops)[l.environment := l])
    {
      HeldOpsIsOk(View(), l);
      ops := ops[l.environment := l];
    }

    method BuildKnown(env: string, now: int) returns (report: BuildReport)
      requires Valid() && env in envs
      modifies `published, `frozen, envs[env]
      ensures Valid() && old(published) <= published && View() == BuildInto(old(View()), env, now)
      ensures report.global == [] && DescribesAll(report.perEnv, {env}, old(View()), View())
      ensures PointersKept(old(PointersNow()), PointersNow(), report.perEnv)
    {
      ghost var start, first := View(), PointersNow();
      var res;
      ghost var after;
      res, after := BuildEnv(env, now);
      OneResult(env, now, start, after, res);
      KeptNext(first, first, PointersNow(), map[], env, res);
      report := BuildReport([], map[env := res]);
    }

    /** Makes the environment known, then builds it and no other. */
    method BuildOnly(env: string, now: int) returns (report: BuildReport)
      requires Valid()
      modifies `envs, `published, `frozen, envs.Values
      ensures Valid() && old(published) <= published
      ensures View() == BuildInto(StoreRuns.EnsureEnv(old(View()), env), env, now)
      ensures report.global == [] && DescribesAll(report.perEnv, {env}, old(View()), View())
      ensures PointersKept(old(PointersNow()), PointersNow(), report.perEnv)
    {
      ghost var start, first := View(), PointersNow();
      EnsureEnv(env);
      ghost var known := PointersNow();
      report := BuildKnown(env, now);
      EnsuringChangesNoSlot(report.perEnv, {env}, start, env, View());
      KeptAfterMore(first, known, PointersNow(), report.perEnv);
    }

    method NamelessOverlay(l: OverlayLayer, now: int) returns (report: BuildReport)
      requires Valid() && l.environment == ""
      modifies `lastRejected
      ensures Valid() && View() == Step(old(View()), Op.Set(Overlay(l), now)) && HasRejections(report.global)
      ensures report.perEnv == map[] && KeepsPointers(map[])
      ensures lastRejected == old(lastRejected)["overlay:" := Overlay(l)]
    {
      var findings := ValidateOverlay(Some(l));
      var rejections := Rejections(findings);
      assert NAMELESS_OVERLAY in rejections;
      Reject("overlay:", Overlay(l));
      report := BuildReport(rejections, map[]);
    }

    method BuildOverlay(l: OverlayLayer, now: int) returns (report: BuildReport)
      requires Valid() && l.environment != ""
      modifies `overlays, `envs, `published, `frozen, envs.Values
      ensures Valid() && old(published) <= published
      ensures View() == Step(old(View()), Op.Set(Overlay(l), now)) && report.global == []
      ensures DescribesAll(report.perEnv, {l.environment}, old(View()), View())
      ensures overlays == old(overlays)[l.environment := l]
      ensures PointersKept(old(PointersNow()), PointersNow(), report.perEnv)
    {
      ghost var start := View();
      HoldOverlay(l);
      ghost var held := View();
      report := BuildOnly(l.environment, now);
      SameSlots(report.perEnv, {l.environment}, start, held, View());
    }

    method AcceptOverlay(l: OverlayLayer, now: int) returns (report: BuildReport)
      requires Valid() && l.environment != ""
      modifies `overlays, `envs, `published, `frozen, envs.Values
      ensures Valid() && old(published) <= published
      ensures View() == Step(old(View()), Op.Set(Overlay(l), now)) && report.global == []
      ensures DescribesAll(report.perEnv, {l.environment}, old(View()), View())
      ensures overlays == old(overlays)[l.environment := l]
      ensures KeepsPointers(report.perEnv)
    {
      report := BuildOverlay(l, now);
      KeptMeansKept(report.perEnv);
    }

    /** A sparse layer is stored before it is judged, and touches its own environment only. */
    method SetOverlay(l: OverlayLayer, now: int) returns (report: BuildReport)
      requires Valid()
      modifies `overlays, `lastRejected, `envs, `published, `frozen, envs.Values
      ensures Valid() && old(published) <= published && View() == Step(old(View()), Op.Set(Overlay(l), now))
      ensures DescribesAll(report.perEnv, if l.environment == "" then {} else {l.environment}, old(View()), View())
      ensures HasRejections(report.global) <==> l.environment == ""
      ensures l.environment == "" ==> lastRejected == old(lastRejected)["overlay:" := Overlay(l)]
                                      && overlays == old(overlays)
      ensures l.environment != "" ==> lastRejected == old(lastRejected) && overlays == old(overlays)[l.environment := l]
      ensures KeepsPointers(report.perEnv)
    {
      if l.environment == "" {
        report := NamelessOverlay(l, now);
      } else {
        report := AcceptOverlay(l, now);
      }
    }

    method NamelessOps(l: OpsLayer, now: int) returns (report: BuildReport)
      requires Valid() && l.environment == ""
      modifies `lastRejected
      ensures Valid() && View() == Step(old(View()), Op.Set(Ops(l), now)) && HasRejections(report.global)
      ensures report.perEnv == map[] && KeepsPointers(map[])
      ensures lastRejected == old(lastRejected)["ops:" := Ops(l)]
    {
      var findings := ValidateOps(Some(l), now);
      var rejections := Rejections(findings);
      assert NAMELESS_OPS in rejections;
      Reject("ops:", Ops(l));
      report := BuildReport(rejections, map[]);
    }

    method BuildOps(l: OpsLayer, now: int) returns (report: BuildReport)
      requires Valid() && l.environment != ""
      modifies `ops, `envs, `published, `frozen, envs.Values
      ensures Valid() && old(published) <= published
      ensures View() == Step(old(View()), Op.Set(Ops(l), now)) && report.global == []
      ensures DescribesAll(report.perEnv, {l.environment}, old(View()), View())
      ensures ops == old(ops)[l.environment := l]
      ensures PointersKept(old(PointersNow()), PointersNow(), report.perEnv)
    {
      ghost var start := View();
      HoldOps(l);
      ghost var held := View();
      report := BuildOnly(l.environment, now);
      SameSlots(report.perEnv, {l.environment}, start, held, View());
    }

    method AcceptOps(l: OpsLayer, now: int) returns (report: BuildReport)
      requires Valid() && l.environment != ""
      modifies `ops, `envs, `published, `frozen, envs.Values
      ensures Valid() && old(published) <= published
      ensures View() == Step(old(View()), Op.Set(Ops(l), now)) && report.global == []
      ensures DescribesAll(report.perEnv, {l.environment}, old(View()), View())
      ensures ops == old(ops)[l.environment := l]
      ensures KeepsPointers(report.perEnv)
    {
      report := BuildOps(l, now);
      KeptMeansKept(report.perEnv);
    }

    method SetOps(l: OpsLayer, now: int) returns (report: BuildReport)
      requires Valid()
      modifies `ops, `lastRejected, `envs, `published, `frozen, envs.Values
      ensures Valid() && old(published) <= published && View() == Step(old(View()), Op.Set(Ops(l), now))
      ensures DescribesAll(report.perEnv, if l.environment == "" then {} else {l.environment}, old(View()), View())
      ensures HasRejections(report.global) <==> l.environment == ""
      ensures l.environment == "" ==> lastRejected == old(lastRejected)["ops:" := Ops(l)] && ops == old(ops)
      ensures l.environment != "" ==> lastRejected == old(lastRejected) && ops == old(ops)[l.environment := l]
      ensures KeepsPointers(report.perEnv)
    {
      if l.environment == "" {
        report := NamelessOps(l, now);
      } else {
        report := AcceptOps(l, now);
      }
    }

    /**
     * Installs a layer. The new state is the step's, the report describes it, and every
     * snapshot published before is as it was, none of its objects shared with another's.
     */
    method Set(layer: Layer, now: int) returns (report: BuildReport)
      requires Valid()
      modifies this, envs.Values
      ensures Valid() && old(published) <= published && View() == Step(old(View()), Op.Set(layer, now))
      ensures DescribesAll(report.perEnv, Reported(layer, envs.Keys), old(View()), View())
      ensures HasRejections(report.global) <==> IsRefused(layer)
      ensures KeepsPointers(if IsRefused(layer) then map[] else report.perEnv)
      ensures base == if layer.Base? && !IsRefused(layer) then layer.l else old(base)
      ensures overlays == if layer.Overlay? && !IsRefused(layer)
                          then old(overlays)[layer.overlay.environment := layer.overlay] else old(overlays)
      ensures ops == if layer.Ops? && !IsRefused(layer) then old(ops)[layer.ops.environment := layer.ops] else old(ops)
      ensures (forall s | s in old(published) :: s.Frozen()) && Disjoint(published)
    {
      match layer
      case Base(l) => report := SetBase(l, now);
      case Overlay(l) => report := SetOverlay(l, now);
      case Ops(l) => report := SetOps(l, now);
      case UnknownLayer =>
        report := BuildReport([UNKNOWN_LAYER], map[]);
        assert UNKNOWN_LAYER in report.global;
    }

    /** A miss is an answer: nothing published, or no such key. */
    method Get(key: string, env: string) returns (f: FlagObject?)
      requires Valid()
      ensures f != null <==>
                env in envs && View().envs[env].cur.Some? && key in View().envs[env].cur.value.flags
      ensures f != null ==> f.View() == SlotIn(View(), env).cur.value.flags[key]
    {
      if env !in envs || envs[env].cur == null {
        return null;
      }
      var snap := envs[env].cur;
      assert snap.Frozen();
      if key !in snap.flags {
        return null;
      }
      assert HoldsFlag(snap.flags[key], snap.content.flags[key], snap.repr);
      f := snap.flags[key];
    }
  }
}
