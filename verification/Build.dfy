// internal/config/store.go, buildEnvLocked: what one build of one environment produces,
// key by key. Builder.dfy holds the loops that build it.
module Build {
  import opened Core
  import opened Layers
  import opened Merge
  import opened Validate
  import opened Evaluator

  /** An immutable published view of one environment. */
  datatype Snapshot = Snapshot(
    env: string, generation: int, builtAt: int,
    flags: map<string, Flag>, provenance: map<string, Provenance>, quarantined: set<string>)

  /** One environment's publication slot. */
  datatype Slot = Slot(cur: Option<Snapshot>, gen: int)

  const EMPTY_SLOT := Slot(None, 0)

  /** Entry `i` is for `key`, and no later one is. */
  ghost predicate IsLastOverlay(flags: seq<OverlayFlag>, key: string, i: int) {
    0 <= i < |flags| && flags[i].key == key && forall j | i < j < |flags| :: flags[j].key != key
  }

  /** Entry `i` is in force for `key`, and no later one is. */
  ghost predicate IsLastOps(overrides: seq<OpsOverride>, now: int, key: string, i: int) {
    && 0 <= i < |overrides| && overrides[i].key == key && !OpsExpired(overrides[i], now)
    && forall j | i < j < |overrides| :: overrides[j].key != key || OpsExpired(overrides[j], now)
  }

  /** A later entry for the same key displaces an earlier one. */
  function LastOverlay(flags: seq<OverlayFlag>, key: string): (o: Option<OverlayFlag>)
    ensures o.Some? ==> exists i :: IsLastOverlay(flags, key, i) && flags[i] == o.value
    ensures o.None? ==> forall f | f in flags :: f.key != key
  {
    if flags == [] then None
    else
      var n := |flags| - 1;
      if flags[n].key == key then assert IsLastOverlay(flags, key, n); Some(flags[n])
      else
        var o := LastOverlay(flags[..n], key);
        assert o.Some? ==> exists i :: IsLastOverlay(flags, key, i) && flags[i] == o.value by {
          if o.Some? {
            var i :| IsLastOverlay(flags[..n], key, i) && flags[..n][i] == o.value;
            assert IsLastOverlay(flags, key, i) && flags[i] == o.value;
          }
        }
        assert flags == flags[..n] + [flags[n]];
        o
  }

  /** Expired overrides are dropped. */
  function LastOps(overrides: seq<OpsOverride>, now: int, key: string): (o: Option<OpsOverride>)
    ensures o.Some? ==> exists i :: IsLastOps(overrides, now, key, i) && overrides[i] == o.value
    ensures o.None? ==> forall f | f in overrides :: f.key == key ==> OpsExpired(f, now)
  {
    if overrides == [] then None
    else
      var n := |overrides| - 1;
      var last := overrides[n];
      if last.key == key && !OpsExpired(last, now) then assert IsLastOps(overrides, now, key, n); Some(last)
      else
        var o := LastOps(overrides[..n], now, key);
        assert o.Some? ==> exists i :: IsLastOps(overrides, now, key, i) && overrides[i] == o.value by {
          if o.Some? {
            var i :| IsLastOps(overrides[..n], now, key, i) && overrides[..n][i] == o.value;
            assert IsLastOps(overrides, now, key, i) && overrides[i] == o.value;
          }
        }
        assert overrides == overrides[..n] + [last];
        o
  }

  function FindBase(flags: seq<BaseFlag>, key: string): (i: nat)
    ensures i <= |flags|
    ensures i < |flags| ==> flags[i].key == key
    ensures i == |flags| ==> forall f | f in flags :: f.key != key
  {
    if flags == [] then 0
    else if flags[0].key == key then 0
    else
      assert flags == [flags[0]] + flags[1..];
      FindBase(flags[1..], key) + 1
  }

  /** Pass 1 rejects entry `i`. */
  ghost predicate EntryRejected(overrides: seq<OpsOverride>, i: int, now: int) {
    0 <= i < |overrides| && exists id :: OpsBreaks(overrides, i, now, id) && OpsSeverity(id).IsRejection()
  }

  ghost predicate RejectsOverride(overrides: seq<OpsOverride>, now: int, key: string) {
    exists i :: EntryRejected(overrides, i, now) && overrides[i].key == key
  }

  /** Everything one build reads, the previous snapshot aside. */
  datatype Input = Input(base: BaseLayer, overlay: Option<OverlayLayer>, ops: Option<OpsLayer>, now: int)
  {
    function OverlayFlags(): seq<OverlayFlag> { if overlay.Some? then overlay.value.flags else [] }

    function Overrides(): seq<OpsOverride> { if ops.Some? then ops.value.overrides else [] }

    function OverlayFor(key: string): Option<OverlayFlag> { LastOverlay(OverlayFlags(), key) }

    function OpsFor(key: string): Option<OpsOverride> { LastOps(Overrides(), now, key) }

    /** A layer without an environment name stops the whole build. */
    predicate Nameless() {
      (overlay.Some? && overlay.value.environment == "") || (ops.Some? && ops.value.environment == "")
    }

    ghost predicate OverlayRejects(key: string) {
      exists i, id | 0 <= i < |OverlayFlags()| ::
        OverlayFlags()[i].key == key && OverlayBreaks(OverlayFlags(), i, id)
    }

    ghost predicate OpsRejects(key: string) { RejectsOverride(Overrides(), now, key) }

    /** Pass 1 rejects something a sparse layer says of this flag. */
    ghost predicate PreRejected(key: string) { OverlayRejects(key) || OpsRejects(key) }

    function Keys(): set<string> {
      (set f | f in base.flags :: f.key) + (set f | f in OverlayFlags() :: f.key)
      + (set o | o in Overrides() :: o.key)
    }
  }

  /** A key is merged anew, quarantined, or not mentioned by anything in force. */
  datatype Resolution = Accept(flag: Flag, prov: Provenance) | Quarantine | Unmentioned

  ghost function Resolve(inp: Input, key: string): Resolution {
    var i := FindBase(inp.base.flags, key);
    var ov, ops := inp.OverlayFor(key), inp.OpsFor(key);
    if i < |inp.base.flags| then
      var b := inp.base.flags[i];
      if inp.PreRejected(key) || !ResolvedOk(b, ov, ops) then Quarantine
      else Accept(Merged(b, ov, ops), ProvenanceOf(b, ov, ops))
    else if ov.Some? || ops.Some? then Quarantine
    else Unmentioned
  }

  /** The resolution of every key that has one. */
  ghost function Resolutions(inp: Input): map<string, Resolution> {
    map k | k in inp.Keys() && Resolve(inp, k) != Unmentioned :: Resolve(inp, k)
  }

  predicate Holds(prev: Option<Snapshot>, key: string) { prev.Some? && key in prev.value.flags }

  function Quarantined(rs: map<string, Resolution>): set<string> {
    set k | k in rs && rs[k].Quarantine?
  }

  /** Accepted flags, and quarantined ones the previous snapshot can still supply. */
  predicate IsServed(rs: map<string, Resolution>, prev: Option<Snapshot>, key: string)
    requires key in rs
  {
    rs[key].Accept? || (rs[key].Quarantine? && Holds(prev, key))
  }

  function ServedFlags(rs: map<string, Resolution>, prev: Option<Snapshot>): map<string, Flag> {
    map k | k in rs && IsServed(rs, prev, k) ::
      if rs[k].Accept? then rs[k].flag else prev.value.flags[k]
  }

  /** A carried flag brings its record along. */
  function ServedProvenance(rs: map<string, Resolution>, prev: Option<Snapshot>): map<string, Provenance> {
    map k | k in rs && IsServed(rs, prev, k) ::
      if rs[k].Accept? then rs[k].prov
      else if k in prev.value.provenance then prev.value.provenance[k] else map[]
  }

  /** The environment-wide guards. */
  ghost predicate Publishes(inp: Input, prev: Option<Snapshot>) {
    && !inp.Nameless()
    && |ServedFlags(Resolutions(inp), prev)| <= MAX_FLAGS_PER_ENV
    && |Quarantined(Resolutions(inp))| <= QuarantineBudget(|inp.base.flags|)
  }

  ghost function Published(env: string, inp: Input, slot: Slot): Snapshot {
    var rs := Resolutions(inp);
    Snapshot(env, slot.gen + 1, inp.now, ServedFlags(rs, slot.cur), ServedProvenance(rs, slot.cur),
             Quarantined(rs))
  }

  /** One build: a new generation, or the slot untouched. */
  ghost function BuildEnv(env: string, slot: Slot, base: Option<BaseLayer>, overlay: Option<OverlayLayer>,
                          ops: Option<OpsLayer>, now: int): Slot
  {
    if base.None? then slot
    else
      var inp := Input(base.value, overlay, ops, now);
      if Publishes(inp, slot.cur) then Slot(Some(Published(env, inp, slot)), slot.gen + 1) else slot
  }

  /** Whether clients would see a difference; equal fingerprints are equal flag maps. */
  predicate ContentChanged(prev: Option<Snapshot>, snap: Snapshot) {
    prev.None? || prev.value.flags != snap.flags || prev.value.quarantined != snap.quarantined
  }

  // ---- What a build guarantees -----------------------------------------------------

  /** Every flag sits at its own key and may be evaluated. */
  ghost predicate SnapshotOk(s: Snapshot) {
    && (forall k | k in s.flags :: s.flags[k].key == k && KeyOk(k) && WellFormed(s.flags[k]))
    && s.provenance.Keys == s.flags.Keys
    && |s.flags| <= MAX_FLAGS_PER_ENV
  }

  ghost predicate SlotOk(env: string, slot: Slot) {
    if slot.cur.None? then slot.gen == 0
    else SnapshotOk(slot.cur.value) && slot.gen == slot.cur.value.generation && slot.cur.value.env == env
  }

  lemma OverlayEntryOk(inp: Input, key: string)
    requires !inp.PreRejected(key)
    ensures OverlayRulesOk(inp.OverlayFor(key))
  {
    var ov := inp.OverlayFor(key);
    if ov.Some? && ov.value.rules.Given? {
      var flags := inp.OverlayFlags();
      var i :| 0 <= i < |flags| && flags[i] == ov.value;
      forall id ensures !RuleListBreaks(ov.value.rules.value, id) {
        assert !OverlayBreaks(flags, i, id);
      }
    }
  }

  lemma AcceptedIsWellFormed(inp: Input, key: string)
    requires BaseAccepted(inp.base) && Resolve(inp, key).Accept?
    ensures var f := Resolve(inp, key).flag; WellFormed(f) && f.key == key && KeyOk(key)
  {
    var i := FindBase(inp.base.flags, key);
    assert inp.base == BaseLayer(inp.base.flags);
    OverlayEntryOk(inp, key);
    PassTwoIsExact(inp.base.flags, i, inp.OverlayFor(key), inp.OpsFor(key));
    assert !BaseBreaks(inp.base.flags, i, B01);
  }

  /** A build from an accepted base keeps the slot sound, carried flags included. */
  lemma BuildKeepsSlotOk(env: string, slot: Slot, base: Option<BaseLayer>, overlay: Option<OverlayLayer>,
                         ops: Option<OpsLayer>, now: int)
    requires SlotOk(env, slot) && (base.Some? ==> BaseAccepted(base.value))
    ensures SlotOk(env, BuildEnv(env, slot, base, overlay, ops, now))
  {
    if base.Some? {
      var inp := Input(base.value, overlay, ops, now);
      var served := ServedFlags(Resolutions(inp), slot.cur);
      forall k | k in served ensures served[k].key == k && KeyOk(k) && WellFormed(served[k]) {
        if Resolve(inp, k).Accept? {
          AcceptedIsWellFormed(inp, k);
        }
      }
    }
  }

  /**
   * The published contents are exact: accepted keys hold their merge, quarantined keys
   * exactly what the previous snapshot had for them, and nothing else is served; both
   * limits hold.
   */
  lemma PublishedContentsAreExact(env: string, inp: Input, slot: Slot, key: string)
    ensures var s := Published(env, inp, slot);
      && (key in s.quarantined <==> Resolve(inp, key).Quarantine?)
      && (match Resolve(inp, key)
          case Accept(f, p) => key in s.flags && s.flags[key] == f && s.provenance[key] == p
          case Quarantine =>
            && (key in s.flags <==> slot.cur.Some? && key in slot.cur.value.flags)
            && (key in s.flags ==> s.flags[key] == slot.cur.value.flags[key])
          case Unmentioned => key !in s.flags)
      && (key in s.flags ==>
            || FindBase(inp.base.flags, key) < |inp.base.flags|
            || inp.OverlayFor(key).Some? || inp.OpsFor(key).Some?)
      && (Publishes(inp, slot.cur) ==>
            |s.flags| <= 20000 && |s.quarantined| <= QuarantineBudget(|inp.base.flags|))
  {
    if Resolve(inp, key) != Unmentioned {
      MentionedIsAKey(inp, key);
    }
  }

  lemma MentionedIsAKey(inp: Input, key: string)
    requires Resolve(inp, key) != Unmentioned
    ensures key in inp.Keys()
  {
    var i := FindBase(inp.base.flags, key);
    if i < |inp.base.flags| {
      assert inp.base.flags[i] in inp.base.flags;
    }
  }

  // ---- Ops overrides are time-bounded ----------------------------------------------

  lemma ForceIsInWindow(inp: Input, key: string)
    requires !inp.PreRejected(key) && inp.OpsFor(key).Some?
    ensures var exp := inp.OpsFor(key).value.expiresAt;
            exp.Given? && inp.now < exp.value <= inp.now + MAX_OPS_OVERRIDE_TTL
  {
    var all := inp.Overrides();
    var i :| IsLastOps(all, inp.now, key, i) && all[i] == inp.OpsFor(key).value;
    assert !EntryRejected(all, i, inp.now);
    assert !OpsBreaks(all, i, inp.now, O08) && !OpsBreaks(all, i, inp.now, O09);
  }

  /** An override that takes part in a merge expires later, and within thirty days. */
  lemma MergedOverrideIsInWindow(inp: Input, key: string)
    requires Resolve(inp, key).Accept? && inp.OpsFor(key).Some?
    ensures var exp := inp.OpsFor(key).value.expiresAt;
            exp.Given? && inp.now < exp.value <= inp.now + MAX_OPS_OVERRIDE_TTL
  {
    ForceIsInWindow(inp, key);
  }

  function Without<T>(s: seq<T>, i: nat): seq<T>
    requires i < |s|
  {
    s[..i] + s[i + 1..]
  }

  /** Entry `i` is expired, and the only one for its key. */
  ghost predicate UniqueExpired(overrides: seq<OpsOverride>, i: nat, now: int)
    requires i < |overrides|
  {
    && OpsExpired(overrides[i], now)
    && (forall j | 0 <= j < |overrides| && j != i :: overrides[j].key != overrides[i].key)
  }

  /** It also breaks no rejecting rule. */
  ghost predicate CleanlyExpired(overrides: seq<OpsOverride>, i: nat, now: int)
    requires i < |overrides|
  {
    UniqueExpired(overrides, i, now) && !EntryRejected(overrides, i, now)
  }

  /** The same build without entry `i` of its ops layer. */
  function WithoutOverride(inp: Input, i: nat): Input
    requires inp.ops.Some? && i < |inp.Overrides()|
  {
    inp.(ops := Some(inp.ops.value.(overrides := Without(inp.Overrides(), i))))
  }

  lemma LastOpsSnoc(overrides: seq<OpsOverride>, last: OpsOverride, now: int, key: string)
    ensures LastOps(overrides + [last], now, key)
            == if last.key == key && !OpsExpired(last, now) then Some(last) else LastOps(overrides, now, key)
  {
    assert (overrides + [last])[..|overrides|] == overrides;
  }

  lemma WithoutSnoc<T>(s: seq<T>, i: nat)
    requires i < |s| - 1
    ensures Without(s, i) == Without(s[..|s| - 1], i) + [s[|s| - 1]]
  {
  }

  lemma {:induction false} ExpiredIsNeverPicked(overrides: seq<OpsOverride>, i: nat, now: int, key: string)
    requires i < |overrides| && OpsExpired(overrides[i], now)
    ensures LastOps(Without(overrides, i), now, key) == LastOps(overrides, now, key)
    decreases |overrides|
  {
    var n := |overrides| - 1;
    assert overrides == overrides[..n] + [overrides[n]];
    if i == n {
      assert Without(overrides, i) == overrides[..n];
      LastOpsSnoc(overrides[..n], overrides[n], now, key);
    } else {
      var last := overrides[n];
      WithoutSnoc(overrides, i);
      LastOpsSnoc(Without(overrides[..n], i), last, now, key);
      LastOpsSnoc(overrides[..n], last, now, key);
      ExpiredIsNeverPicked(overrides[..n], i, now, key);
    }
  }

  lemma OthersDuplicateTheSame(overrides: seq<OpsOverride>, i: nat, j: nat)
    requires i < |overrides| && j < |overrides| && j != i
    requires forall k | 0 <= k < |overrides| && k != i :: overrides[k].key != overrides[i].key
    ensures var rest, j' := Without(overrides, i), if j < i then j else j - 1;
            rest[j'] == overrides[j] && (DuplicateOps(rest, j') <==> DuplicateOps(overrides, j))
  {
    var rest, j' := Without(overrides, i), if j < i then j else j - 1;
    if DuplicateOps(overrides, j) {
      var k :| 0 <= k < j && overrides[k].key == overrides[j].key;
      assert rest[if k < i then k else k - 1] == overrides[k];
    }
    if DuplicateOps(rest, j') {
      var k :| 0 <= k < j' && rest[k].key == rest[j'].key;
      assert rest[k] == overrides[if k < i then k else k + 1];
    }
  }

  /** Dropping a uniquely named entry changes no judgement on the others. */
  lemma OthersBreakTheSame(overrides: seq<OpsOverride>, i: nat, now: int, j: nat, id: RuleId)
    requires i < |overrides| && j < |overrides| && j != i
    requires forall k | 0 <= k < |overrides| && k != i :: overrides[k].key != overrides[i].key
    ensures var rest, j' := Without(overrides, i), if j < i then j else j - 1;
            rest[j'] == overrides[j] && (OpsBreaks(rest, j', now, id) <==> OpsBreaks(overrides, j, now, id))
  {
    OthersDuplicateTheSame(overrides, i, j);
  }

  lemma OthersRejectedTheSame(overrides: seq<OpsOverride>, i: nat, now: int, j: nat)
    requires i < |overrides| && j < |overrides| && j != i
    requires forall k | 0 <= k < |overrides| && k != i :: overrides[k].key != overrides[i].key
    ensures var rest, j' := Without(overrides, i), if j < i then j else j - 1;
            rest[j'] == overrides[j] && (EntryRejected(rest, j', now) <==> EntryRejected(overrides, j, now))
  {
    forall id
      ensures var rest, j' := Without(overrides, i), if j < i then j else j - 1;
              OpsBreaks(rest, j', now, id) <==> OpsBreaks(overrides, j, now, id)
    {
      OthersBreakTheSame(overrides, i, now, j, id);
    }
  }

  /** Without a uniquely named entry, what is rejected is rejected by the others. */
  lemma RejectionsWithout(overrides: seq<OpsOverride>, i: nat, now: int, key: string)
    requires i < |overrides|
    requires forall k | 0 <= k < |overrides| && k != i :: overrides[k].key != overrides[i].key
    ensures RejectsOverride(overrides, now, key) <==>
            || RejectsOverride(Without(overrides, i), now, key)
            || (key == overrides[i].key && EntryRejected(overrides, i, now))
  {
    var rest := Without(overrides, i);
    if RejectsOverride(rest, now, key) {
      var j' :| EntryRejected(rest, j', now) && rest[j'].key == key;
      var j := if j' < i then j' else j' + 1;
      OthersRejectedTheSame(overrides, i, now, j);
      assert EntryRejected(overrides, j, now);
    }
    if RejectsOverride(overrides, now, key) {
      var j :| EntryRejected(overrides, j, now) && overrides[j].key == key;
      if j != i {
        OthersRejectedTheSame(overrides, i, now, j);
        assert EntryRejected(rest, if j < i then j else j - 1, now);
      }
    }
  }

  lemma OnlyItsKeyIsConcerned(inp: Input, i: nat, key: string)
    requires inp.ops.Some? && i < |inp.Overrides()| && UniqueExpired(inp.Overrides(), i, inp.now)
    ensures var without := WithoutOverride(inp, i);
      && without.OverlayFor(key) == inp.OverlayFor(key) && without.OpsFor(key) == inp.OpsFor(key)
      && (inp.PreRejected(key) <==>
            || without.PreRejected(key)
            || (key == inp.Overrides()[i].key && EntryRejected(inp.Overrides(), i, inp.now)))
  {
    var without := WithoutOverride(inp, i);
    assert without.OverlayFlags() == inp.OverlayFlags() && without.Overrides() == Without(inp.Overrides(), i);
    ExpiredIsNeverPicked(inp.Overrides(), i, inp.now, key);
    RejectionsWithout(inp.Overrides(), i, inp.now, key);
  }

  /** What a build makes of a key, with a uniquely named expired entry and without it. */
  lemma ExpiredEntryPerKey(inp: Input, i: nat, key: string)
    requires inp.ops.Some? && i < |inp.Overrides()| && UniqueExpired(inp.Overrides(), i, inp.now)
    ensures var without := WithoutOverride(inp, i);
      Resolve(inp, key)
      == if key == inp.Overrides()[i].key && EntryRejected(inp.Overrides(), i, inp.now)
            && Resolve(without, key).Accept?
         then Quarantine else Resolve(without, key)
  {
    OnlyItsKeyIsConcerned(inp, i, key);
  }

  /**
   * Exactly which expired overrides still act: the only entry for its key changes a build
   * if and only if it breaks a rejecting rule and the flag would be accepted without it.
   */
  lemma ExpiredEffectIsExact(inp: Input, i: nat)
    requires inp.ops.Some? && i < |inp.Overrides()| && UniqueExpired(inp.Overrides(), i, inp.now)
    ensures var without, key := WithoutOverride(inp, i), inp.Overrides()[i].key;
      Resolutions(without) != Resolutions(inp) <==>
      EntryRejected(inp.Overrides(), i, inp.now) && Resolve(without, key).Accept?
  {
    var without, key := WithoutOverride(inp, i), inp.Overrides()[i].key;
    ExpiredEntryPerKey(inp, i, key);
    if EntryRejected(inp.Overrides(), i, inp.now) && Resolve(without, key).Accept? {
      MentionedIsAKey(inp, key);
      MentionedIsAKey(without, key);
      assert Resolutions(inp)[key] != Resolutions(without)[key];
    } else {
      forall k ensures Resolve(without, k) == Resolve(inp, k) {
        ExpiredEntryPerKey(inp, i, k);
      }
      SameResolutions(without, inp);
    }
  }

  /** An expired override that is otherwise clean has no effect on any build. */
  lemma CleanlyExpiredHasNoEffect(env: string, inp: Input, slot: Slot, i: nat)
    requires inp.ops.Some? && i < |inp.Overrides()| && CleanlyExpired(inp.Overrides(), i, inp.now)
    ensures var without := WithoutOverride(inp, i);
      && Resolutions(without) == Resolutions(inp)
      && (Publishes(without, slot.cur) <==> Publishes(inp, slot.cur))
      && Published(env, without, slot) == Published(env, inp, slot)
  {
    ExpiredEffectIsExact(inp, i);
  }

  lemma SameResolutions(a: Input, b: Input)
    requires forall key :: Resolve(a, key) == Resolve(b, key)
    ensures Resolutions(a) == Resolutions(b)
  {
    forall key | Resolve(a, key) != Unmentioned ensures key in a.Keys() && key in b.Keys() {
      MentionedIsAKey(a, key);
      MentionedIsAKey(b, key);
    }
  }

  /** Any override pass 1 rejects quarantines its flag, a duplicated or an expired one too. */
  lemma RejectedOverridesQuarantine(inp: Input, i: nat)
    requires EntryRejected(inp.Overrides(), i, inp.now)
    requires FindBase(inp.base.flags, inp.Overrides()[i].key) < |inp.base.flags|
    ensures Resolve(inp, inp.Overrides()[i].key) == Quarantine
  {
    assert RejectsOverride(inp.Overrides(), inp.now, inp.Overrides()[i].key);
  }

  // ---- One build, from the layers --------------------------------------------------

  /** `ov` is the last entry an overlay layer has for a key, if there is one. */
  ghost predicate IsOverlayEntry(l: Option<OverlayLayer>, key: string, ov: Option<OverlayFlag>) {
    if ov.None? then l.Some? ==> forall f | f in l.value.flags :: f.key != key
    else l.Some? && exists j :: IsLastOverlay(l.value.flags, key, j) && l.value.flags[j] == ov.value
  }

  /** `ops` is the last unexpired entry an ops layer has for a key, if there is one. */
  ghost predicate IsOpsEntry(l: Option<OpsLayer>, now: int, key: string, ops: Option<OpsOverride>) {
    if ops.None? then l.Some? ==> forall o | o in l.value.overrides :: o.key == key ==> OpsExpired(o, now)
    else l.Some? && exists j :: IsLastOps(l.value.overrides, now, key, j) && l.value.overrides[j] == ops.value
  }

  /** Pass 1 has nothing against what the sparse layers say of a key. */
  ghost predicate IsClean(inp: Input, key: string) {
    && (inp.overlay.Some? ==>
          forall j, id | 0 <= j < |inp.overlay.value.flags| && inp.overlay.value.flags[j].key == key ::
            !OverlayBreaks(inp.overlay.value.flags, j, id))
    && (inp.ops.Some? ==>
          forall j | EntryRejected(inp.ops.value.overrides, j, inp.now) :: inp.ops.value.overrides[j].key != key)
  }

  lemma EntriesAreUnique(inp: Input, key: string, ov: Option<OverlayFlag>, ops: Option<OpsOverride>)
    requires IsOverlayEntry(inp.overlay, key, ov) && IsOpsEntry(inp.ops, inp.now, key, ops)
    ensures inp.OverlayFor(key) == ov && inp.OpsFor(key) == ops
  {
    if ov.Some? {
      var j :| IsLastOverlay(inp.overlay.value.flags, key, j) && inp.overlay.value.flags[j] == ov.value;
      assert inp.overlay.value.flags[j] in inp.OverlayFlags();
    }
    if ops.Some? {
      var j :| IsLastOps(inp.ops.value.overrides, inp.now, key, j) && inp.ops.value.overrides[j] == ops.value;
      assert inp.ops.value.overrides[j] in inp.Overrides();
    }
  }

  lemma CleanMeansNotRejected(inp: Input, key: string)
    ensures IsClean(inp, key) <==> !inp.PreRejected(key)
  {
    if inp.OverlayRejects(key) {
      var j, id :| 0 <= j < |inp.OverlayFlags()|
                   && inp.OverlayFlags()[j].key == key && OverlayBreaks(inp.OverlayFlags(), j, id);
      assert inp.overlay.value.flags[j].key == key && OverlayBreaks(inp.overlay.value.flags, j, id);
    }
    if inp.OpsRejects(key) {
      var j :| EntryRejected(inp.Overrides(), j, inp.now) && inp.Overrides()[j].key == key;
      assert inp.ops.value.overrides[j].key == key;
    }
    if !IsClean(inp, key) {
      UncleanIsRejected(inp, key);
    }
  }

  lemma UncleanIsRejected(inp: Input, key: string)
    requires !IsClean(inp, key)
    ensures inp.PreRejected(key)
  {
    if j, id :| inp.overlay.Some? && 0 <= j < |inp.overlay.value.flags| && inp.overlay.value.flags[j].key == key
                && OverlayBreaks(inp.overlay.value.flags, j, id) {
      assert inp.OverlayFlags()[j].key == key && OverlayBreaks(inp.OverlayFlags(), j, id);
    } else {
      var j :| EntryRejected(inp.ops.value.overrides, j, inp.now) && inp.ops.value.overrides[j].key == key;
      assert EntryRejected(inp.Overrides(), j, inp.now) && inp.Overrides()[j].key == key;
    }
  }

  lemma FoundAtItsIndex(inp: Input, i: nat)
    requires BaseAccepted(inp.base) && i < |inp.base.flags|
    ensures FindBase(inp.base.flags, inp.base.flags[i].key) == i
  {
    var j := FindBase(inp.base.flags, inp.base.flags[i].key);
    assert inp.base.flags[i] in inp.base.flags;
    assert inp.base == BaseLayer(inp.base.flags);
    BaseAcceptanceIsExact(inp.base);
  }

  /**
   * A base flag is published as the merge of itself, the last overlay entry and the last
   * unexpired override for its key, if pass 1 has nothing against either and the merge is
   * well formed with every throttle on a rollout; otherwise it is quarantined.
   */
  lemma BaseFlagsResolveExactly(inp: Input, i: nat, ov: Option<OverlayFlag>, ops: Option<OpsOverride>)
    requires BaseAccepted(inp.base) && i < |inp.base.flags|
    requires IsOverlayEntry(inp.overlay, inp.base.flags[i].key, ov)
    requires IsOpsEntry(inp.ops, inp.now, inp.base.flags[i].key, ops)
    ensures var b := inp.base.flags[i];
            var m := Merged(b, ov, ops);
            Resolve(inp, b.key)
            == if IsClean(inp, b.key) && WellFormed(m) && (SetsBasisPoints(ops) ==> m.rollout.Some?)
               then Accept(m, ProvenanceOf(b, ov, ops)) else Quarantine
  {
    var b := inp.base.flags[i];
    FoundAtItsIndex(inp, i);
    EntriesAreUnique(inp, b.key, ov, ops);
    CleanMeansNotRejected(inp, b.key);
    if IsClean(inp, b.key) {
      OverlayEntryOk(inp, b.key);
      assert inp.base == BaseLayer(inp.base.flags);
      PassTwoIsExact(inp.base.flags, i, ov, ops);
    }
  }

  /** A key the base does not have is quarantined if a sparse layer still names it, else unheard of. */
  lemma OrphansResolveExactly(inp: Input, key: string, ov: Option<OverlayFlag>, ops: Option<OpsOverride>)
    requires forall f | f in inp.base.flags :: f.key != key
    requires IsOverlayEntry(inp.overlay, key, ov) && IsOpsEntry(inp.ops, inp.now, key, ops)
    ensures Resolve(inp, key) == if ov.Some? || ops.Some? then Quarantine else Unmentioned
  {
    EntriesAreUnique(inp, key, ov, ops);
    assert forall i | 0 <= i < |inp.base.flags| :: inp.base.flags[i].key != key;
  }

  /** A build publishes exactly under named layers, a flag limit, and 20 or 5% quarantined. */
  lemma PublicationIsExact(env: string, inp: Input, slot: Slot)
    ensures var s := Published(env, inp, slot);
            Publishes(inp, slot.cur) <==>
              && (inp.overlay.Some? ==> inp.overlay.value.environment != "")
              && (inp.ops.Some? ==> inp.ops.value.environment != "")
              && |s.flags| <= 20000
              && (|s.quarantined| <= 20 || |s.quarantined| * 20 <= |inp.base.flags|)
  {
  }

  /** The header of what is published, and every record beside its flag. */
  lemma PublishedHeader(env: string, inp: Input, slot: Slot)
    requires slot.cur.Some? ==> slot.cur.value.provenance.Keys == slot.cur.value.flags.Keys
    ensures var s := Published(env, inp, slot);
            && s.env == env && s.generation == slot.gen + 1 && s.builtAt == inp.now
            && s.provenance.Keys == s.flags.Keys
            && forall k | k in s.flags :: k in s.quarantined ==>
                 slot.cur.Some? && k in slot.cur.value.flags && s.provenance[k] == slot.cur.value.provenance[k]
  {
  }

  lemma {:induction false} KeysAreNoMore(flags: seq<BaseFlag>)
    ensures |set f | f in flags :: f.key| <= |flags|
  {
    if flags != [] {
      var n := |flags| - 1;
      KeysAreNoMore(flags[..n]);
      assert flags == flags[..n] + [flags[n]];
      assert (set f | f in flags :: f.key) == (set f | f in flags[..n] :: f.key) + {flags[n].key};
    }
  }

  /** A base whose flags all merge cleanly, under layers that name no others, publishes all of them. */
  lemma CleanLayersPublish(env: string, inp: Input, slot: Slot)
    requires !inp.Nameless() && |inp.base.flags| <= 20000
    requires forall f | f in inp.base.flags :: Resolve(inp, f.key).Accept?
    requires forall key :: (forall f | f in inp.base.flags :: f.key != key) ==> Resolve(inp, key).Unmentioned?
    ensures Publishes(inp, slot.cur)
    ensures Published(env, inp, slot).flags.Keys == set f | f in inp.base.flags :: f.key
    ensures Published(env, inp, slot).quarantined == {}
  {
    CleanLayersResolve(inp);
    AllAcceptedIsAllServed(Resolutions(inp), slot.cur);
    KeysAreNoMore(inp.base.flags);
  }

  lemma CleanLayersResolve(inp: Input)
    requires forall f | f in inp.base.flags :: Resolve(inp, f.key).Accept?
    requires forall key :: (forall f | f in inp.base.flags :: f.key != key) ==> Resolve(inp, key).Unmentioned?
    ensures Resolutions(inp).Keys == set f | f in inp.base.flags :: f.key
    ensures forall k | k in Resolutions(inp) :: Resolutions(inp)[k].Accept?
  {
    forall k ensures k in Resolutions(inp) <==> exists f | f in inp.base.flags :: f.key == k {
      if Resolve(inp, k) != Unmentioned {
        MentionedIsAKey(inp, k);
      }
    }
  }

  lemma AllAcceptedIsAllServed(rs: map<string, Resolution>, prev: Option<Snapshot>)
    requires forall k | k in rs :: rs[k].Accept?
    ensures ServedFlags(rs, prev).Keys == rs.Keys && Quarantined(rs) == {}
  {
  }

  // ---- What counts as a change -----------------------------------------------------

  /** A client sees no difference exactly when every key serves the same and is as quarantined. */
  lemma ChangesAreSeenKeyByKey(prev: Option<Snapshot>, snap: Snapshot)
    ensures ContentChanged(prev, snap) <==>
              || prev.None?
              || exists key ::
                   || !(key in snap.flags <==> key in prev.value.flags)
                   || (key in snap.flags && key in prev.value.flags && snap.flags[key] != prev.value.flags[key])
                   || !(key in snap.quarantined <==> key in prev.value.quarantined)
  {
    if prev.Some? && prev.value.flags.Keys == snap.flags.Keys && prev.value.flags != snap.flags {
      var key :| key in snap.flags && snap.flags[key] != prev.value.flags[key];
    }
  }

  /** Building the same layers again at the same time is a publication, but no change. */
  lemma BuildingAgainChangesNothing(env: string, inp: Input, slot: Slot)
    requires Publishes(inp, slot.cur)
    ensures var once := Published(env, inp, slot);
            && Publishes(inp, Some(once))
            && !ContentChanged(Some(once), Published(env, inp, Slot(Some(once), slot.gen + 1)))
  {
    ServedAgain(Resolutions(inp), slot.cur, Published(env, inp, slot));
  }

  /** What a quarantined key had once, it is carried with again. */
  lemma ServedAgain(rs: map<string, Resolution>, prev: Option<Snapshot>, once: Snapshot)
    requires once.flags == ServedFlags(rs, prev)
    ensures ServedFlags(rs, Some(once)) == once.flags
  {
  }
}
