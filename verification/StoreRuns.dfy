// internal/config/store.go: the configuration store as a state machine, and what holds
// over every run of it. Store.dfy holds the object whose methods take these steps.
module StoreRuns {
  import opened Core
  import opened Layers
  import opened Merge
  import opened Validate
  import opened Build
  import opened Evaluator
  import opened Bucket
  import opened Matcher

  /** What can be handed to Set; a base layer may be a nil pointer. */
  datatype Layer =
    | Base(l: Option<BaseLayer>)
    | Overlay(overlay: OverlayLayer)
    | Ops(ops: OpsLayer)
    | UnknownLayer

  /** The raw layers held, and one publication slot per known environment. */
  datatype State = State(
    base: Option<BaseLayer>, overlays: map<string, OverlayLayer>, ops: map<string, OpsLayer>,
    envs: map<string, Slot>)

  /** Every call is serialised by the store's lock; the clock is read once per call. */
  datatype Op =
    | Set(layer: Layer, now: int)
    | Rebuild(now: int)
    | Subscribe(env: string)

  function Lookup<T>(m: map<string, T>, key: string): Option<T> {
    if key in m then Some(m[key]) else None
  }

  function EnsureEnv(s: State, env: string): State {
    if env in s.envs then s else s.(envs := s.envs[env := EMPTY_SLOT])
  }

  ghost function BuildOne(s: State, env: string, now: int): Slot
    requires env in s.envs
  {
    BuildEnv(env, s.envs[env], s.base, Lookup(s.overlays, env), Lookup(s.ops, env), now)
  }

  ghost function BuildAll(s: State, now: int): State {
    s.(envs := map env | env in s.envs :: BuildOne(s, env, now))
  }

  ghost function BuildInto(s: State, env: string, now: int): State
    requires env in s.envs
  {
    s.(envs := s.envs[env := BuildOne(s, env, now)])
  }

  /** A rejected base changes nothing; a sparse layer is stored before it is judged. */
  ghost function Step(s: State, op: Op): State {
    match op
    case Set(Base(l), now) =>
      if l.Some? && !BaseAccepted(l.value) then s else BuildAll(s.(base := l), now)
    case Set(Overlay(l), now) =>
      if l.environment == "" then s
      else BuildInto(EnsureEnv(s.(overlays := s.overlays[l.environment := l]), l.environment), l.environment, now)
    case Set(Ops(l), now) =>
      if l.environment == "" then s
      else BuildInto(EnsureEnv(s.(ops := s.ops[l.environment := l]), l.environment), l.environment, now)
    case Set(UnknownLayer, _) => s
    case Rebuild(now) => BuildAll(s, now)
    case Subscribe(env) => EnsureEnv(s, env)
  }

  function Initial(envs: set<string>): State {
    State(None, map[], map[], map e | e in envs :: EMPTY_SLOT)
  }

  ghost function Run(s: State, ops: seq<Op>): State {
    if ops == [] then s else Step(Run(s, ops[..|ops| - 1]), ops[|ops| - 1])
  }

  // ---- The invariant ---------------------------------------------------------------

  ghost predicate StateOk(s: State) {
    && (s.base.Some? ==> BaseAccepted(s.base.value))
    && (forall env | env in s.overlays :: s.overlays[env].environment == env && env != "")
    && (forall env | env in s.ops :: s.ops[env].environment == env && env != "")
    && (forall env | env in s.envs :: SlotOk(env, s.envs[env]))
  }

  lemma BuildOneKeepsSlotOk(s: State, env: string, now: int)
    requires StateOk(s) && env in s.envs
    ensures SlotOk(env, BuildOne(s, env, now))
  {
    BuildKeepsSlotOk(env, s.envs[env], s.base, Lookup(s.overlays, env), Lookup(s.ops, env), now);
  }

  lemma BuildAllKeepsStateOk(s: State, now: int)
    requires StateOk(s)
    ensures StateOk(BuildAll(s, now))
  {
    forall env | env in s.envs ensures SlotOk(env, BuildOne(s, env, now)) {
      BuildOneKeepsSlotOk(s, env, now);
    }
  }

  lemma BuildIntoKeepsStateOk(s: State, env: string, now: int)
    requires StateOk(s)
    ensures StateOk(BuildInto(EnsureEnv(s, env), env, now))
  {
    assert StateOk(EnsureEnv(s, env));
    BuildOneKeepsSlotOk(EnsureEnv(s, env), env, now);
  }

  lemma StepKeepsStateOk(s: State, op: Op)
    requires StateOk(s)
    ensures StateOk(Step(s, op))
  {
    match op
    case Set(Base(l), now) =>
      if l.None? || BaseAccepted(l.value) {
        BuildAllKeepsStateOk(s.(base := l), now);
      }
    case Set(Overlay(l), now) =>
      if l.environment != "" {
        BuildIntoKeepsStateOk(s.(overlays := s.overlays[l.environment := l]), l.environment, now);
      }
    case Set(Ops(l), now) =>
      if l.environment != "" {
        BuildIntoKeepsStateOk(s.(ops := s.ops[l.environment := l]), l.environment, now);
      }
    case Set(UnknownLayer, _) =>
    case Rebuild(now) => BuildAllKeepsStateOk(s, now);
    case Subscribe(env) =>
  }

  /** After any run, every published flag is well formed and sits at its own key. */
  lemma {:induction false} EveryRunIsOk(envs: set<string>, ops: seq<Op>)
    ensures StateOk(Run(Initial(envs), ops))
  {
    if ops != [] {
      EveryRunIsOk(envs, ops[..|ops| - 1]);
      StepKeepsStateOk(Run(Initial(envs), ops[..|ops| - 1]), ops[|ops| - 1]);
    }
  }

  // ---- Generations and isolation ---------------------------------------------------

  /** The slot of an environment; one not known yet counts as empty. */
  function SlotIn(s: State, env: string): Slot {
    if env in s.envs then s.envs[env] else EMPTY_SLOT
  }

  /** What a build of an environment reads from the layers now held. */
  function InputOf(s: State, env: string, now: int): Input
    requires s.base.Some?
  {
    Input(s.base.value, Lookup(s.overlays, env), Lookup(s.ops, env), now)
  }

  /** The next generation, built from the layers `t` holds. */
  ghost predicate PublishesNext(before: Slot, t: State, env: string, now: int) {
    && t.base.Some?
    && Publishes(InputOf(t, env, now), before.cur)
    && SlotIn(t, env) == Slot(Some(Published(env, InputOf(t, env, now), before)), before.gen + 1)
  }

  ghost function ClockOf(op: Op): int { if op.Subscribe? then 0 else op.now }

  /** Whether an operation may touch an environment's slot at all. */
  ghost predicate Touches(op: Op, env: string) {
    match op
    case Set(Base(l), _) => l.None? || BaseAccepted(l.value)
    case Set(Overlay(l), _) => l.environment == env && env != ""
    case Set(Ops(l), _) => l.environment == env && env != ""
    case Set(UnknownLayer, _) => false
    case Rebuild(_) => true
    case Subscribe(_) => false
  }

  /** What a build from the layers `t` holds makes of one slot. */
  ghost function BuiltFrom(before: Slot, t: State, env: string, now: int): Slot {
    if t.base.Some? && Publishes(InputOf(t, env, now), before.cur) then
      Slot(Some(Published(env, InputOf(t, env, now), before)), before.gen + 1)
    else before
  }

  lemma BuildAllIsPerSlot(s: State, now: int, env: string)
    ensures SlotIn(BuildAll(s, now), env)
            == if env in s.envs then BuiltFrom(SlotIn(s, env), s, env, now) else SlotIn(s, env)
  {
  }

  lemma BuildIntoIsPerSlot(s: State, into: string, now: int, env: string)
    ensures SlotIn(BuildInto(EnsureEnv(s, into), into, now), env)
            == if env == into then BuiltFrom(SlotIn(s, env), s, env, now) else SlotIn(s, env)
  {
  }

  lemma OverlayIsIsolated(s: State, l: OverlayLayer, now: int, env: string)
    ensures var op := Set(Overlay(l), now); var t := Step(s, op);
            SlotIn(t, env)
            == if Touches(op, env) && env in t.envs then BuiltFrom(SlotIn(s, env), t, env, now) else SlotIn(s, env)
  {
    BuildIntoIsPerSlot(s.(overlays := s.overlays[l.environment := l]), l.environment, now, env);
  }

  lemma OpsIsIsolated(s: State, l: OpsLayer, now: int, env: string)
    ensures var op := Set(Ops(l), now); var t := Step(s, op);
            SlotIn(t, env)
            == if Touches(op, env) && env in t.envs then BuiltFrom(SlotIn(s, env), t, env, now) else SlotIn(s, env)
  {
    BuildIntoIsPerSlot(s.(ops := s.ops[l.environment := l]), l.environment, now, env);
  }

  /**
   * An operation builds a known environment from the layers held after it exactly where the
   * operation belongs; the build publishes exactly when nothing stops it. Every other slot
   * stays as it was.
   */
  lemma StepIsIsolated(s: State, op: Op, env: string)
    ensures var t := Step(s, op);
            SlotIn(t, env)
            == if Touches(op, env) && env in t.envs then BuiltFrom(SlotIn(s, env), t, env, ClockOf(op))
               else SlotIn(s, env)
  {
    match op
    case Set(Base(l), now) => BuildAllIsPerSlot(s.(base := l), now, env);
    case Set(Overlay(l), now) => OverlayIsIsolated(s, l, now, env);
    case Set(Ops(l), now) => OpsIsIsolated(s, l, now, env);
    case Set(UnknownLayer, _) =>
    case Rebuild(now) => BuildAllIsPerSlot(s, now, env);
    case Subscribe(e) =>
  }

  /**
   * The same, operation by operation: an accepted base and a rebuild build every known
   * environment, a named sparse layer its own, and nothing else builds any.
   */
  lemma WritesBuildWhereTheyBelong(s: State, op: Op, env: string)
    ensures var before, after := SlotIn(s, env), SlotIn(Step(s, op), env);
            var overlay, ops := Lookup(s.overlays, env), Lookup(s.ops, env);
            match op
            case Set(Base(l), now) =>
              after == if (l.Some? && !BaseAccepted(l.value)) || env !in s.envs then before
                       else BuildEnv(env, before, l, overlay, ops, now)
            case Set(Overlay(l), now) =>
              after == if l.environment == "" || env != l.environment then before
                       else BuildEnv(env, before, s.base, Some(l), ops, now)
            case Set(Ops(l), now) =>
              after == if l.environment == "" || env != l.environment then before
                       else BuildEnv(env, before, s.base, overlay, Some(l), now)
            case Set(UnknownLayer, _) => after == before
            case Rebuild(now) =>
              after == if env !in s.envs then before else BuildEnv(env, before, s.base, overlay, ops, now)
            case Subscribe(_) => after == before
  {
    StepHoldsTheLayer(s, op);
    StepIsIsolated(s, op, env);
  }

  /** A slot that moved published the next generation. */
  lemma MovedMeansPublished(s: State, op: Op, env: string)
    ensures var before, t := SlotIn(s, env), Step(s, op);
            SlotIn(t, env) == before || (Touches(op, env) && PublishesNext(before, t, env, ClockOf(op)))
  {
    StepIsIsolated(s, op, env);
  }

  /** The counter is the generation served, and moves by one exactly on publication. */
  lemma GenerationsCountPublications(s: State, op: Op, env: string)
    requires StateOk(s)
    ensures var before, after := SlotIn(s, env), SlotIn(Step(s, op), env);
            && after.gen == (if after.cur.Some? then after.cur.value.generation else 0)
            && (after == before || after.gen == before.gen + 1)
  {
    StepKeepsStateOk(s, op);
    MovedMeansPublished(s, op, env);
  }

  /** Over a whole run an environment no operation touches keeps its snapshot. */
  lemma {:induction false} UntouchedEnvironmentsKeepServing(s: State, ops: seq<Op>, env: string)
    requires forall op | op in ops :: !Touches(op, env)
    ensures SlotIn(Run(s, ops), env) == SlotIn(s, env)
  {
    if ops != [] {
      UntouchedEnvironmentsKeepServing(s, ops[..|ops| - 1], env);
      MovedMeansPublished(Run(s, ops[..|ops| - 1]), ops[|ops| - 1], env);
    }
  }

  // ---- Where served flags come from ------------------------------------------------

  /** The step from `s` published a snapshot of `env` in which `f` was merged anew. */
  ghost predicate MergedBy(s: State, op: Op, env: string, key: string, f: Flag) {
    var t := Step(s, op);
    && PublishesNext(SlotIn(s, env), t, env, ClockOf(op))
    && Resolve(InputOf(t, env, ClockOf(op)), key).Accept?
    && Resolve(InputOf(t, env, ClockOf(op)), key).flag == f
  }

  ghost predicate Serves(s: State, env: string, key: string) { Holds(SlotIn(s, env).cur, key) }

  /** Operation `i` of the run published the merge `f` of `key`. */
  ghost predicate MergedAt(envs: set<string>, ops: seq<Op>, i: nat, env: string, key: string, f: Flag)
    requires i < |ops|
  {
    MergedBy(Run(Initial(envs), ops[..i]), ops[i], env, key, f)
  }

  ghost predicate WasMerged(envs: set<string>, ops: seq<Op>, env: string, key: string, f: Flag) {
    exists i | 0 <= i < |ops| :: MergedAt(envs, ops, i, env, key, f)
  }

  lemma MergedAtBefore(envs: set<string>, ops: seq<Op>, n: nat, i: nat, env: string, key: string, f: Flag)
    requires i < n <= |ops|
    ensures MergedAt(envs, ops[..n], i, env, key, f) == MergedAt(envs, ops, i, env, key, f)
  {
    assert ops[..n][..i] == ops[..i];
  }

  lemma WasMergedBefore(envs: set<string>, ops: seq<Op>, n: nat, env: string, key: string, f: Flag)
    requires n <= |ops| && WasMerged(envs, ops[..n], env, key, f)
    ensures WasMerged(envs, ops, env, key, f)
  {
    var i :| 0 <= i < n && MergedAt(envs, ops[..n], i, env, key, f);
    MergedAtBefore(envs, ops, n, i, env, key, f);
  }

  /** A flag served after a step was served before it, or the step merged it. */
  lemma CarriedOrMerged(s: State, op: Op, env: string, key: string)
    requires Serves(Step(s, op), env, key)
    ensures var f := SlotIn(Step(s, op), env).cur.value.flags[key];
            || MergedBy(s, op, env, key, f)
            || (Serves(s, env, key) && SlotIn(s, env).cur.value.flags[key] == f)
  {
    MovedMeansPublished(s, op, env);
    if SlotIn(Step(s, op), env) != SlotIn(s, env) {
      PublishedContentsAreExact(env, InputOf(Step(s, op), env, ClockOf(op)), SlotIn(s, env), key);
    }
  }

  /** However long it has been carried, a served flag is the merge of some accepted build. */
  lemma {:induction false} EveryServedFlagWasMerged(envs: set<string>, ops: seq<Op>, env: string, key: string)
    requires Serves(Run(Initial(envs), ops), env, key)
    ensures WasMerged(envs, ops, env, key, SlotIn(Run(Initial(envs), ops), env).cur.value.flags[key])
  {
    if ops != [] {
      var n := |ops| - 1;
      var before := Run(Initial(envs), ops[..n]);
      var f := SlotIn(Run(Initial(envs), ops), env).cur.value.flags[key];
      CarriedOrMerged(before, ops[n], env, key);
      if !MergedBy(before, ops[n], env, key, f) {
        EveryServedFlagWasMerged(envs, ops[..n], env, key);
        WasMergedBefore(envs, ops, n, env, key, f);
      } else {
        assert MergedAt(envs, ops, n, env, key, f);
      }
    }
  }

  // ---- What the store holds --------------------------------------------------------

  /** The accepted base becomes the base held; nothing else moves it, or the sparse layers. */
  lemma StepHoldsTheLayer(s: State, op: Op)
    ensures var t := Step(s, op);
            match op
            case Set(Base(l), _) =>
              && t.base == (if l.Some? && !BaseAccepted(l.value) then s.base else l)
              && t.overlays == s.overlays && t.ops == s.ops && t.envs.Keys == s.envs.Keys
            case Set(Overlay(l), _) =>
              && t.base == s.base && t.ops == s.ops
              && t.overlays == (if l.environment == "" then s.overlays else s.overlays[l.environment := l])
              && t.envs.Keys == s.envs.Keys + (if l.environment == "" then {} else {l.environment})
            case Set(Ops(l), _) =>
              && t.base == s.base && t.overlays == s.overlays
              && t.ops == (if l.environment == "" then s.ops else s.ops[l.environment := l])
              && t.envs.Keys == s.envs.Keys + (if l.environment == "" then {} else {l.environment})
            case Set(UnknownLayer, _) => t == s
            case Rebuild(_) =>
              t.base == s.base && t.overlays == s.overlays && t.ops == s.ops && t.envs.Keys == s.envs.Keys
            case Subscribe(env) =>
              && t.base == s.base && t.overlays == s.overlays && t.ops == s.ops
              && t.envs.Keys == s.envs.Keys + {env} && SlotIn(t, env) == SlotIn(s, env)
  {
  }

  ghost predicate IsAcceptedBase(op: Op) {
    op.Set? && op.layer.Base? && (op.layer.l.Some? ==> BaseAccepted(op.layer.l.value))
  }

  predicate IsOverlayFor(env: string, op: Op) {
    op.Set? && op.layer.Overlay? && op.layer.overlay.environment == env
  }

  predicate IsOpsFor(env: string, op: Op) { op.Set? && op.layer.Ops? && op.layer.ops.environment == env }

  /** The layer an operation hands in. */
  function BaseOf(op: Op): Option<BaseLayer> { if op.Set? && op.layer.Base? then op.layer.l else None }

  function OverlayOf(op: Op): Option<OverlayLayer> {
    if op.Set? && op.layer.Overlay? then Some(op.layer.overlay) else None
  }

  function OpsOf(op: Op): Option<OpsLayer> { if op.Set? && op.layer.Ops? then Some(op.layer.ops) else None }

  /** Operation `i` is one of those in question, and no later one is. */
  ghost predicate IsLast(ops: seq<Op>, p: Op -> bool, i: int) {
    0 <= i < |ops| && p(ops[i]) && forall j | i < j < |ops| :: !p(ops[j])
  }

  /** `held` is what the last of the operations in question handed in, or nothing if there is none. */
  ghost predicate HoldsLast<T>(ops: seq<Op>, p: Op -> bool, layer: Op -> Option<T>, held: Option<T>) {
    && ((forall i | 0 <= i < |ops| :: !p(ops[i])) ==> held == None)
    && (forall i | IsLast(ops, p, i) :: held == layer(ops[i]))
  }

  lemma OneMoreHeld<T>(ops: seq<Op>, p: Op -> bool, layer: Op -> Option<T>, held: Option<T>, after: Option<T>)
    requires ops != [] && HoldsLast(ops[..|ops| - 1], p, layer, held)
    requires after == if p(ops[|ops| - 1]) then layer(ops[|ops| - 1]) else held
    ensures HoldsLast(ops, p, layer, after)
  {
    var fewer := ops[..|ops| - 1];
    forall i | IsLast(ops, p, i) && i < |fewer| ensures IsLast(fewer, p, i) {
      assert forall j | i < j < |fewer| :: !p(ops[j]);
    }
  }

  lemma StepHolds(s: State, op: Op, env: string)
    requires env != ""
    ensures var t := Step(s, op);
            && t.base == (if IsAcceptedBase(op) then BaseOf(op) else s.base)
            && Lookup(t.overlays, env) == (if IsOverlayFor(env, op) then OverlayOf(op) else Lookup(s.overlays, env))
            && Lookup(t.ops, env) == (if IsOpsFor(env, op) then OpsOf(op) else Lookup(s.ops, env))
  {
    StepHoldsTheLayer(s, op);
  }

  /**
   * Over any run the base held is the last accepted one handed in, and the sparse layers
   * held for an environment are the last ones handed in for it.
   */
  lemma {:induction false} TheLastLayersAreHeld(envs: set<string>, ops: seq<Op>, env: string)
    requires env != ""
    ensures var t := Run(Initial(envs), ops);
            && HoldsLast(ops, op => IsAcceptedBase(op), op => BaseOf(op), t.base)
            && HoldsLast(ops, op => IsOverlayFor(env, op), op => OverlayOf(op), Lookup(t.overlays, env))
            && HoldsLast(ops, op => IsOpsFor(env, op), op => OpsOf(op), Lookup(t.ops, env))
  {
    if ops != [] {
      var n := |ops| - 1;
      var before := Run(Initial(envs), ops[..n]);
      var t := Step(before, ops[n]);
      TheLastLayersAreHeld(envs, ops[..n], env);
      StepHolds(before, ops[n], env);
      OneMoreHeld(ops, op => IsAcceptedBase(op), op => BaseOf(op), before.base, t.base);
      OneMoreHeld(ops, op => IsOverlayFor(env, op), op => OverlayOf(op),
                  Lookup(before.overlays, env), Lookup(t.overlays, env));
      OneMoreHeld(ops, op => IsOpsFor(env, op), op => OpsOf(op), Lookup(before.ops, env), Lookup(t.ops, env));
    }
  }

  // ---- What a write makes served ---------------------------------------------------

  /** A layer that says nothing of a key: there is none, or none of its entries names it. */
  ghost predicate Silent(s: State, env: string, key: string) {
    && (env in s.overlays ==> forall f | f in s.overlays[env].flags :: f.key != key)
    && (env in s.ops ==> forall o | o in s.ops[env].overrides :: o.key != key)
  }

  /**
   * From a base write to what readers get: after an accepted base that holds `f`, a known
   * environment that publishes and whose sparse layers do not mention `f` serves the flag
   * its base entry alone describes, if that is well formed.
   */
  lemma AnAcceptedBaseIsServed(s: State, l: BaseLayer, now: int, env: string, f: BaseFlag)
    requires StateOk(s) && env in s.envs && BaseAccepted(l) && f in l.flags && Silent(s, env, f.key)
    requires WellFormed(Merged(f, None, None))
    ensures var t := Step(s, Set(Base(Some(l)), now));
            t.envs[env] != s.envs[env] ==>
              && t.envs[env].gen == s.envs[env].gen + 1 && t.envs[env].cur.Some?
              && f.key in t.envs[env].cur.value.flags && f.key !in t.envs[env].cur.value.quarantined
              && t.envs[env].cur.value.flags[f.key] == Merged(f, None, None)
  {
    var op := Set(Base(Some(l)), now);
    var t := Step(s, op);
    var i :| 0 <= i < |l.flags| && l.flags[i] == f;
    StepHoldsTheLayer(s, op);
    StepIsIsolated(s, op, env);
    var inp := InputOf(t, env, now);
    SilenceResolves(s, inp, env, i);
    PublishedContentsAreExact(env, inp, SlotIn(s, env), f.key);
  }

  /** Without sparse layers a sound base of at most 20000 flags is always published, whole. */
  lemma ASoundBaseIsPublished(s: State, l: BaseLayer, now: int, env: string)
    requires StateOk(s) && env in s.envs && env !in s.overlays && env !in s.ops
    requires BaseAccepted(l) && |l.flags| <= 20000 && forall f | f in l.flags :: WellFormed(Merged(f, None, None))
    ensures var t := Step(s, Set(Base(Some(l)), now));
            && t.envs[env].gen == s.envs[env].gen + 1 && t.envs[env].cur.Some?
            && t.envs[env].cur.value.generation == t.envs[env].gen
            && t.envs[env].cur.value.flags.Keys == (set f | f in l.flags :: f.key)
            && (forall f | f in l.flags :: t.envs[env].cur.value.flags[f.key] == Merged(f, None, None))
            && t.envs[env].cur.value.quarantined == {}
  {
    var op := Set(Base(Some(l)), now);
    var t := Step(s, op);
    var inp := Input(l, None, None, now);
    StepHoldsTheLayer(s, op);
    StepIsIsolated(s, op, env);
    assert InputOf(t, env, now) == inp;
    forall f | f in l.flags ensures Resolve(inp, f.key).Accept? {
      var i :| 0 <= i < |l.flags| && l.flags[i] == f;
      SilenceResolves(s, inp, env, i);
    }
    forall key | forall f | f in l.flags :: f.key != key ensures Resolve(inp, key).Unmentioned? {
      OrphansResolveExactly(inp, key, None, None);
    }
    CleanLayersPublish(env, inp, s.envs[env]);
    forall f | f in l.flags ensures t.envs[env].cur.value.flags[f.key] == Merged(f, None, None) {
      AnAcceptedBaseIsServed(s, l, now, env, f);
    }
  }

  lemma SilenceResolves(s: State, inp: Input, env: string, i: nat)
    requires BaseAccepted(inp.base) && i < |inp.base.flags| && Silent(s, env, inp.base.flags[i].key)
    requires inp.overlay == Lookup(s.overlays, env) && inp.ops == Lookup(s.ops, env)
    requires WellFormed(Merged(inp.base.flags[i], None, None))
    ensures var f := inp.base.flags[i];
            Resolve(inp, f.key).Accept? && Resolve(inp, f.key).flag == Merged(f, None, None)
  {
    var f := inp.base.flags[i];
    assert IsClean(inp, f.key);
    BaseFlagsResolveExactly(inp, i, None, None);
  }

  /**
   * An override handed in for an environment takes effect in it: if the environment then
   * publishes, a base flag the override switches, and no layer spoils, is served switched.
   */
  lemma AnOverrideIsServed(s: State, l: OpsLayer, now: int, i: nat, ov: Option<OverlayFlag>, o: OpsOverride)
    requires StateOk(s) && s.base.Some? && i < |s.base.value.flags| && l.environment != ""
    requires var key := s.base.value.flags[i].key;
             && IsOverlayEntry(Lookup(s.overlays, l.environment), key, ov) && IsOpsEntry(Some(l), now, key, Some(o))
             && IsClean(Input(s.base.value, Lookup(s.overlays, l.environment), Some(l), now), key)
    requires WellFormed(Merged(s.base.value.flags[i], ov, Some(o)))
    requires SetsBasisPoints(Some(o)) ==> Merged(s.base.value.flags[i], ov, Some(o)).rollout.Some?
    ensures var t, key := Step(s, Set(Ops(l), now)), s.base.value.flags[i].key;
            t.envs[l.environment] != SlotIn(s, l.environment) ==>
              && Serves(t, l.environment, key)
              && t.envs[l.environment].cur.value.flags[key] == Merged(s.base.value.flags[i], ov, Some(o))
              && (o.enabled.Given? ==> t.envs[l.environment].cur.value.flags[key].enabled == o.enabled.value)
  {
    var op, env := Set(Ops(l), now), l.environment;
    var t := Step(s, op);
    StepHoldsTheLayer(s, op);
    StepIsIsolated(s, op, env);
    var inp := InputOf(t, env, now);
    assert inp == Input(s.base.value, Lookup(s.overlays, env), Some(l), now);
    BaseFlagsResolveExactly(inp, i, ov, Some(o));
    PublishedContentsAreExact(env, inp, SlotIn(s, env), s.base.value.flags[i].key);
  }

  /** Rebuilding again at the same time changes nothing a client sees. */
  lemma RebuildingAgainChangesNothing(s: State, now: int, env: string)
    ensures var t := Step(s, Rebuild(now));
            var u := Step(t, Rebuild(now));
            && (SlotIn(t, env) == SlotIn(s, env) ==> SlotIn(u, env) == SlotIn(t, env))
            && (SlotIn(t, env) != SlotIn(s, env) ==>
                  SlotIn(u, env).gen == SlotIn(t, env).gen + 1
                  && !ContentChanged(SlotIn(t, env).cur, SlotIn(u, env).cur.value))
  {
    var t := Step(s, Rebuild(now));
    StepIsIsolated(s, Rebuild(now), env);
    StepIsIsolated(t, Rebuild(now), env);
    if SlotIn(t, env) != SlotIn(s, env) {
      BuildingAgainChangesNothing(env, InputOf(s, env, now), SlotIn(s, env));
    }
  }

  // ---- What evaluation sees --------------------------------------------------------

  /** The snapshot as the engine reads it. */
  function ViewOf(s: Snapshot): SnapshotView {
    SnapshotView(s.generation, map k | k in s.flags :: Some(s.flags[k]))
  }

  /**
   * Evaluating against any snapshot any run publishes never fails: the reason is never
   * ERROR, TYPE_MISMATCH means the caller asked for the wrong type, a fallback reason
   * returns the caller's default, and any other one a value an operator configured.
   */
  lemma PublishedSnapshotsEvaluate(envs: set<string>, ops: seq<Op>, env: string, hash: string -> Word64,
                                   key: string, ctx: EvalContext, want: ValueType, def: Value)
    requires SlotIn(Run(Initial(envs), ops), env).cur.Some?
    ensures var snap := SlotIn(Run(Initial(envs), ops), env).cur.value;
            var res := Outcome(DefaultEngine(hash), Some(ViewOf(snap)), key, ctx, want, def);
            && res.generation == snap.generation
            && !res.reason.ReasonError? && !res.reason.ReasonUnknown?
            && (res.reason == ReasonFlagNotFound <==> key !in snap.flags)
            && (res.reason == ReasonTypeMismatch <==>
                  key in snap.flags && want != TypeUnknown && want != snap.flags[key].typ)
            && (res.reason.IsFallback() ==> res.value == def)
            && (!res.reason.IsFallback() ==>
                  && res.value in ConfiguredValues(snap.flags[key])
                  && res.value.Type() == snap.flags[key].typ)
  {
    EveryRunIsOk(envs, ops);
    var snap := SlotIn(Run(Initial(envs), ops), env).cur.value;
    ValidatedFlagsEvaluate(hash, ViewOf(snap), key, ctx, want, def);
  }

  /** No condition of any flag any run publishes, consulted or not, is a bad operator. */
  lemma PublishedConditionsAreDecidable(envs: set<string>, ops: seq<Op>, env: string, key: string,
                                        r: Rule, c: Condition, ctx: EvalContext)
    requires Serves(Run(Initial(envs), ops), env, key)
    requires r in SlotIn(Run(Initial(envs), ops), env).cur.value.flags[key].rules && c in r.conditions
    ensures !DecideCondition(c, ctx).TriBadOp?
  {
    EveryRunIsOk(envs, ops);
    assert WellFormedRule(r, SlotIn(Run(Initial(envs), ops), env).cur.value.flags[key].typ);
    WellFormedNeverBadOp(c, ctx);
  }

  // ---- From a document to an answer ------------------------------------------------

  /** One flag on its own: its key, its two values, its switch, and at most a rule or two. */
  function PlainFlag(enabled: bool, rules: seq<WireRule>): BaseFlag {
    BaseFlag("f", "bool", "team", enabled, BoolValue(true), BoolValue(false), rules, None, "", [])
  }

  lemma PlainBaseIsAccepted(f: BaseFlag)
    requires f == PlainFlag(f.enabled, f.rules) && RuleListOk(f.rules)
    requires forall r | r in CoreRules(f.rules) :: WellFormedRule(r, TypeBool)
    requires DistinctRuleIDs(CoreRules(f.rules))
    ensures BaseAccepted(BaseLayer([f])) && WellFormed(Merged(f, None, None))
  {
    BaseAcceptanceIsExact(BaseLayer([f]));
  }

  lemma PlainBaseIsServed(s: State, env: string, now: int, f: BaseFlag)
    requires StateOk(s) && env in s.envs && s.envs[env].gen == 0 && env !in s.overlays && env !in s.ops
    requires f == PlainFlag(f.enabled, f.rules) && BaseAccepted(BaseLayer([f])) && WellFormed(Merged(f, None, None))
    ensures var t := Step(s, Set(Base(Some(BaseLayer([f]))), now));
            && env in t.envs && t.envs[env].cur.Some? && t.envs[env].cur.value.generation == 1
            && t.envs[env].cur.value.flags == map["f" := Merged(f, None, None)]
  {
    OneFlagIsPublished(s, env, now, BaseLayer([f]), f);
  }

  lemma OneFlagIsPublished(s: State, env: string, now: int, l: BaseLayer, f: BaseFlag)
    requires StateOk(s) && env in s.envs && s.envs[env].gen == 0 && env !in s.overlays && env !in s.ops
    requires BaseAccepted(l) && l.flags == [f] && WellFormed(Merged(f, None, None))
    ensures var t := Step(s, Set(Base(Some(l)), now));
            && env in t.envs && t.envs[env].cur.Some? && t.envs[env].cur.value.generation == 1
            && t.envs[env].cur.value.flags == map[f.key := Merged(f, None, None)]
  {
    ASoundBaseIsPublished(s, l, now, env);
    StepHoldsTheLayer(s, Set(Base(Some(l)), now));
    OnlyFlagOf(f, Step(s, Set(Base(Some(l)), now)).envs[env].cur.value.flags, Merged(f, None, None));
  }

  lemma NewStoreIsOk(env: string)
    ensures var s := Initial({env});
            StateOk(s) && env in s.envs && s.envs[env].gen == 0 && env !in s.overlays && env !in s.ops
  {
  }

  lemma OnlyFlagOf(f: BaseFlag, flags: map<string, Flag>, m: Flag)
    requires flags.Keys == (set x | x in [f] :: x.key) && forall x | x in [f] :: x.key in flags ==> flags[x.key] == m
    ensures flags == map[f.key := m]
  {
    assert f in [f];
  }

  lemma OneStep(s: State, op: Op)
    ensures Run(s, [op]) == Step(s, op)
  {
    assert [op][..0] == [];
  }

  /**
   * A new store is handed a base of one boolean flag: the environment serves it as generation
   * one, on when it is enabled and off when it is not.
   */
  lemma AFirstFlagIsServed(env: string, now: int, enabled: bool, hash: string -> Word64, ctx: EvalContext,
                           want: ValueType)
    requires want == TypeBool || want == TypeUnknown
    ensures var t := Run(Initial({env}), [Set(Base(Some(BaseLayer([PlainFlag(enabled, [])]))), now)]);
            && env in t.envs && t.envs[env].cur.Some?
            && Outcome(DefaultEngine(hash), Some(ViewOf(t.envs[env].cur.value)), "f", ctx, want, BoolValue(false))
               == if enabled then Result(BoolValue(true), ReasonFallthrough, "", -1, 1)
                  else Result(BoolValue(false), ReasonDisabled, "", -1, 1)
  {
    var f := PlainFlag(enabled, []);
    RuleListAcceptanceIsExact([]);
    PlainBaseIsAccepted(f);
    OneStep(Initial({env}), Set(Base(Some(BaseLayer([f]))), now));
    NewStoreIsOk(env);
    PlainBaseIsServed(Initial({env}), env, now, f);
    StagesAnswerExactly(DefaultEngine(hash), Merged(f, None, None), ctx, BoolValue(false), 1);
  }

  /** A rule of a document that asks for an attribute above a bound. */
  const ADULTS := WireRule("adults", [WireCondition("age", "gt", [IntValue(18)], false)], "", BoolValue(true))

  lemma AdultsIsAcceptable()
    ensures RuleListOk([ADULTS]) && WellFormedRule(CoreRule(ADULTS), TypeBool)
    ensures CoreRule(ADULTS).conditions == [Condition("age", OpGreaterThan, [IntValue(18)], false)]
  {
    OperatorNames("gt");
    assert WellFormedCondition(CoreCondition(ADULTS.conditions[0]));
    assert IsAcceptable(ADULTS);
    RuleListAcceptanceIsExact([ADULTS]);
    ValidatedListIsOk([ADULTS]);
    assert ADULTS in [ADULTS];
    ValidatedRuleIsWellFormed(ADULTS, TypeBool);
  }

  /** The flag with that rule, published by the same one write, answers by the rule exactly above the bound. */
  lemma AFirstRuleIsServed(env: string, now: int, hash: string -> Word64, age: int)
    ensures var t := Run(Initial({env}), [Set(Base(Some(BaseLayer([PlainFlag(true, [ADULTS])]))), now)]);
            var ctx := EvalContext("", "", map["age" := IntValue(age)]);
            && env in t.envs && t.envs[env].cur.Some?
            && var res := Outcome(DefaultEngine(hash), Some(ViewOf(t.envs[env].cur.value)), "f", ctx, TypeBool,
                                  BoolValue(false));
               res == if age > 18 then Result(BoolValue(true), ReasonRuleMatch, "adults", -1, 1)
                      else Result(BoolValue(true), ReasonFallthrough, "", -1, 1)
  {
    var f := PlainFlag(true, [ADULTS]);
    AdultsIsAcceptable();
    PlainBaseIsAccepted(f);
    OneStep(Initial({env}), Set(Base(Some(BaseLayer([f]))), now));
    NewStoreIsOk(env);
    PlainBaseIsServed(Initial({env}), env, now, f);
    AdultsMatches(age);
    AdultsAnswers(hash, age);
  }

  lemma AdultsMatches(age: int)
    ensures RuleMatches(CoreRule(ADULTS), EvalContext("", "", map["age" := IntValue(age)])) <==> age > 18
  {
    var c, ctx := CoreRule(ADULTS).conditions[0], EvalContext("", "", map["age" := IntValue(age)]);
    AdultsIsAcceptable();
    OrderingsMean(c, ctx, IntValue(age));
    NegationMeans(c, ctx);
    RuleMeans(CoreRule(ADULTS), ctx);
  }

  lemma AdultsAnswers(hash: string -> Word64, age: int)
    requires WellFormed(Merged(PlainFlag(true, [ADULTS]), None, None))
    ensures var ctx := EvalContext("", "", map["age" := IntValue(age)]);
            EvaluateFlag(DefaultEngine(hash), Merged(PlainFlag(true, [ADULTS]), None, None), ctx, BoolValue(false), 1)
            == if age > 18 then Result(BoolValue(true), ReasonRuleMatch, "adults", -1, 1)
               else Result(BoolValue(true), ReasonFallthrough, "", -1, 1)
  {
    var ctx, m := EvalContext("", "", map["age" := IntValue(age)]), Merged(PlainFlag(true, [ADULTS]), None, None);
    AdultsMatches(age);
    assert m.rules == [CoreRule(ADULTS)];
    StagesAnswerExactly(DefaultEngine(hash), m, ctx, BoolValue(false), 1);
    assert age > 18 ==> IsFirstMatch(m.rules, ctx, 0);
  }
}
