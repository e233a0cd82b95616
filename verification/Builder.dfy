// internal/config/store.go, buildEnvLocked: the loops that build one environment.
module Builder {
  import opened Core
  import opened Layers
  import opened Merge
  import opened Validate
  import opened Validators
  import opened Build
  import opened Resolver
  import opened Snapshots
  import opened Orders

  // ---- Findings --------------------------------------------------------------------

  /** What a filter keeps. */
  datatype Selector = Blocking | Warning | OfFlag(key: string) | StopsEnv
  {
    predicate Wants(f: Finding) {
      match this
      case Blocking => f.severity.IsRejection()
      case Warning => f.severity == SeverityWarn
      case OfFlag(key) => f.flag == key
      case StopsEnv => f.severity == SeverityRejectEnv || f.severity == SeverityRejectGlobal
    }
  }

  /** The findings kept, in their order, each as often as it occurs. */
  function Kept(findings: seq<Finding>, keep: Selector): (out: seq<Finding>)
    ensures forall f :: f in out <==> f in findings && keep.Wants(f)
  {
    if findings == [] then []
    else
      var last := findings[|findings| - 1];
      assert findings == findings[..|findings| - 1] + [last];
      Kept(findings[..|findings| - 1], keep) + if keep.Wants(last) then [last] else []
  }

  method Filter(findings: seq<Finding>, keep: Selector) returns (out: seq<Finding>)
    ensures out == Kept(findings, keep)
  {
    out := [];
    for i := 0 to |findings|
      invariant out == Kept(findings[..i], keep)
    {
      assert findings[..i + 1][..i] == findings[..i];
      if keep.Wants(findings[i]) {
        out := out + [findings[i]];
      }
    }
    assert findings[..|findings|] == findings;
  }

  method Rejections(findings: seq<Finding>) returns (out: seq<Finding>)
    ensures out == Kept(findings, Blocking)
  {
    out := Filter(findings, Blocking);
  }

  method Warns(findings: seq<Finding>) returns (out: seq<Finding>)
    ensures out == Kept(findings, Warning)
  {
    out := Filter(findings, Warning);
  }

  method ForFlag(findings: seq<Finding>, key: string) returns (out: seq<Finding>)
    ensures out == Kept(findings, OfFlag(key))
  {
    out := Filter(findings, OfFlag(key));
  }

  // ---- Indexes ---------------------------------------------------------------------

  function Find<T>(m: map<string, T>, key: string): Option<T> {
    if key in m then Some(m[key]) else None
  }

  /** A later entry for the same key displaces an earlier one. */
  method IndexOverlay(flags: seq<OverlayFlag>) returns (byKey: map<string, OverlayFlag>)
    ensures forall k :: Find(byKey, k) == LastOverlay(flags, k)
  {
    byKey := map[];
    for i := 0 to |flags|
      invariant forall k :: Find(byKey, k) == LastOverlay(flags[..i], k)
    {
      assert flags[..i + 1][..i] == flags[..i];
      byKey := byKey[flags[i].key := flags[i]];
    }
    assert flags[..|flags|] == flags;
  }

  /** Expired entries are dropped. */
  method IndexOps(overrides: seq<OpsOverride>, now: int) returns (byKey: map<string, OpsOverride>)
    ensures forall k :: Find(byKey, k) == LastOps(overrides, now, k)
  {
    byKey := map[];
    for i := 0 to |overrides|
      invariant forall k :: Find(byKey, k) == LastOps(overrides[..i], now, k)
    {
      assert overrides[..i + 1][..i] == overrides[..i];
      if !OpsExpired(overrides[i], now) {
        byKey := byKey[overrides[i].key := overrides[i]];
      }
    }
    assert overrides[..|overrides|] == overrides;
  }

  // ---- One key at a time -----------------------------------------------------------

  lemma AcceptFlagStep(rs: map<string, Resolution>, prev: Option<Snapshot>, key: string, f: Flag, p: Provenance)
    requires key !in rs
    ensures ServedFlags(rs[key := Accept(f, p)], prev) == ServedFlags(rs, prev)[key := f]
  {
  }

  lemma AcceptProvenanceStep(rs: map<string, Resolution>, prev: Option<Snapshot>, key: string, f: Flag,
                             p: Provenance)
    requires key !in rs
    ensures ServedProvenance(rs[key := Accept(f, p)], prev) == ServedProvenance(rs, prev)[key := p]
  {
  }

  lemma AcceptStep(rs: map<string, Resolution>, prev: Option<Snapshot>, key: string, f: Flag, p: Provenance)
    requires key !in rs
    ensures var more := rs[key := Accept(f, p)];
      && ServedFlags(more, prev) == ServedFlags(rs, prev)[key := f]
      && ServedProvenance(more, prev) == ServedProvenance(rs, prev)[key := p]
      && Quarantined(more) == Quarantined(rs)
  {
    AcceptFlagStep(rs, prev, key, f, p);
    AcceptProvenanceStep(rs, prev, key, f, p);
    assert forall k :: k in Quarantined(rs[key := Accept(f, p)]) <==> k in Quarantined(rs);
  }

  lemma QuarantineStep(rs: map<string, Resolution>, prev: Option<Snapshot>, key: string)
    requires key !in rs
    ensures var more := rs[key := Quarantine];
      && ServedFlags(more, prev)
         == (if Holds(prev, key) then ServedFlags(rs, prev)[key := prev.value.flags[key]] else ServedFlags(rs, prev))
      && Quarantined(more) == Quarantined(rs) + {key}
  {
  }

  lemma QuarantineProvenanceStep(rs: map<string, Resolution>, prev: Option<Snapshot>, key: string)
    requires key !in rs
    ensures ServedProvenance(rs[key := Quarantine], prev)
            == if Holds(prev, key) then
                 ServedProvenance(rs, prev)[key := if key in prev.value.provenance
                                                   then prev.value.provenance[key] else map[]]
               else ServedProvenance(rs, prev)
  {
  }

  /** The builder holds exactly what the resolutions so far call for. */
  ghost predicate Reflects(b: SnapshotBuilder, rs: map<string, Resolution>, prev: Option<Snapshot>)
    reads b, b.repr
  {
    && b.Valid()
    && b.views == ServedFlags(rs, prev)
    && b.provenance == ServedProvenance(rs, prev)
    && b.quarantined == Quarantined(rs)
  }

  /** What the store's invariant says of the snapshot a build starts from. */
  ghost predicate KeysMatch(prev: Option<Snapshot>) {
    prev.Some? ==> forall k | k in prev.value.flags :: prev.value.flags[k].key == k
  }

  /** The previous snapshot is intact, and the builder is none of its objects. */
  ghost predicate PrevOk(prev: SnapshotObject?, b: SnapshotBuilder)
    reads if prev == null then {} else prev.repr
  {
    KeysMatch(ContentOf(prev)) && (prev != null ==> prev.Frozen() && b !in prev.repr)
  }

  /** A quarantined flag keeps its last good version, deep-copied; without one it is absent. */
  method Carry(b: SnapshotBuilder, prev: SnapshotObject?, key: string, ghost rs: map<string, Resolution>)
    requires PrevOk(prev, b) && Reflects(b, rs, ContentOf(prev)) && key !in rs
    modifies b
    ensures Reflects(b, rs[key := Quarantine], ContentOf(prev)) && fresh(b.repr - old(b.repr))
  {
    QuarantineStep(rs, ContentOf(prev), key);
    QuarantineProvenanceStep(rs, ContentOf(prev), key);
    if prev != null && key in prev.flags {
      ghost var view := prev.content.flags[key];
      assert HoldsFlag(prev.flags[key], view, prev.repr);
      var f := CloneFlag(prev.flags[key]);
      var prov := if key in prev.provenance then prev.provenance[key] else map[];
      b.AddQuarantined(f, prov, view, f.Repr());
      return;
    }
    b.MarkQuarantined(key);
  }

  // ---- One base flag ---------------------------------------------------------------

  ghost predicate ReportsOverlay(inp: Input, out: seq<Finding>) {
    forall f :: f in out <==> inp.overlay.Some? && IsOverlayFinding(inp.overlay.value, f)
  }

  ghost predicate ReportsOps(inp: Input, out: seq<Finding>) {
    forall f :: f in out <==> inp.ops.Some? && IsOpsFinding(inp.ops.value, inp.now, f)
  }

  ghost predicate RejectsFlag(findings: seq<Finding>, key: string) {
    exists f :: f in findings && f.flag == key && f.severity.IsRejection()
  }

  lemma OverlayRejections(inp: Input, out: seq<Finding>, key: string)
    requires ReportsOverlay(inp, out) && !inp.Nameless()
    ensures RejectsFlag(out, key) <==> inp.OverlayRejects(key)
  {
    var flags := inp.OverlayFlags();
    forall i, id | 0 <= i < |flags| && flags[i].key == key && OverlayBreaks(flags, i, id)
      ensures RejectsFlag(out, key)
    {
      assert Finding(id, key, LayerOverlay, SeverityRejectFlag) in out;
    }
  }

  lemma OpsRejections(inp: Input, out: seq<Finding>, key: string)
    requires ReportsOps(inp, out) && !inp.Nameless()
    ensures RejectsFlag(out, key) <==> inp.OpsRejects(key)
  {
    var all := inp.Overrides();
    if inp.OpsRejects(key) {
      var i :| EntryRejected(all, i, inp.now) && all[i].key == key;
      var id :| OpsBreaks(all, i, inp.now, id) && OpsSeverity(id).IsRejection();
      assert Finding(id, key, LayerOps, OpsSeverity(id)) in out;
    }
    if RejectsFlag(out, key) {
      var f :| f in out && f.flag == key && f.severity.IsRejection();
      var i :| 0 <= i < |all| && all[i].key == key && OpsBreaks(all, i, inp.now, f.id);
      assert EntryRejected(all, i, inp.now);
    }
  }

  function FlagsOf(findings: seq<Finding>): set<string> { set f | f in findings :: f.flag }

  /** Findings that quarantine exactly the flags in `keys`. */
  ghost predicate Quarantines(findings: seq<Finding>, keys: set<string>) {
    (forall f | f in findings :: f.severity.IsRejection()) && FlagsOf(findings) == keys
  }

  /** findings.ForFlag(key).Rejections() */
  method RejectionsFor(findings: seq<Finding>, key: string) returns (out: seq<Finding>)
    ensures out != [] <==> RejectsFlag(findings, key)
    ensures forall f | f in out :: f.flag == key && f.severity.IsRejection()
  {
    var own := ForFlag(findings, key);
    out := Rejections(own);
    assert out != [] ==> out[0] in out;
    if RejectsFlag(findings, key) {
      var f :| f in findings && f.flag == key && f.severity.IsRejection();
      assert f in out;
    }
  }

  /** What pass 1 holds against one flag. */
  method PreFindings(inp: Input, ovFindings: seq<Finding>, opsFindings: seq<Finding>, key: string)
    returns (pre: seq<Finding>)
    requires ReportsOverlay(inp, ovFindings) && ReportsOps(inp, opsFindings) && !inp.Nameless()
    ensures pre != [] <==> inp.PreRejected(key)
    ensures Quarantines(pre, if pre != [] then {key} else {})
  {
    OverlayRejections(inp, ovFindings, key);
    OpsRejections(inp, opsFindings, key);
    var ov := RejectionsFor(ovFindings, key);
    var ops := RejectionsFor(opsFindings, key);
    pre := ov + ops;
    assert pre != [] ==> pre[0] in pre;
  }

  /** What pass 2 holds against one merged flag. */
  method PostFindings(flag: Flag, base: BaseFlag, ov: Option<OverlayFlag>, ops: Option<OpsOverride>,
                      prov: Provenance)
    returns (post: seq<Finding>)
    requires flag == Merged(base, ov, ops) && prov == ProvenanceOf(base, ov, ops)
    ensures post != [] <==> !ResolvedOk(base, ov, ops)
    ensures Quarantines(post, if post != [] then {base.key} else {})
  {
    var found := ValidateResolved(flag, base, ov, ops, prov);
    post := Rejections(found);
    assert post != [] ==> post[0] in post;
    if !ResolvedOk(base, ov, ops) {
      var id, layer :| ResolvedBreaks(flag, base, ov, ops, prov, id, layer);
      assert Finding(id, flag.key, layer, SeverityRejectFlag) in post;
    }
  }

  lemma BaseKeysAreDistinct(flags: seq<BaseFlag>, i: nat)
    requires BaseAccepted(BaseLayer(flags)) && i < |flags|
    ensures FindBase(flags, flags[i].key) == i
  {
    var j := FindBase(flags, flags[i].key);
    if j < i {
      assert BaseBreaks(flags, i, B12);
    } else if i < j {
      assert j < |flags| ==> BaseBreaks(flags, j, B12);
    }
  }

  /** Merges a base flag, or says why it must not be merged. */
  method Judge(inp: Input, i: nat, ovFindings: seq<Finding>, opsFindings: seq<Finding>,
               ov: Option<OverlayFlag>, ops: Option<OpsOverride>)
    returns (flag: FlagObject?, prov: Provenance, found: seq<Finding>)
    requires ReportsOverlay(inp, ovFindings) && ReportsOps(inp, opsFindings) && !inp.Nameless()
    requires BaseAccepted(inp.base) && i < |inp.base.flags|
    requires ov == inp.OverlayFor(inp.base.flags[i].key) && ops == inp.OpsFor(inp.base.flags[i].key)
    ensures var key := inp.base.flags[i].key;
            Resolve(inp, key) == (if flag == null then Quarantine else Accept(flag.View(), prov))
            && Quarantines(found, if flag == null then {key} else {})
    ensures flag != null ==> fresh(flag.Repr()) && flag.View().key == inp.base.flags[i].key
  {
    var bf := inp.base.flags[i];
    assert inp.base == BaseLayer(inp.base.flags);
    BaseKeysAreDistinct(inp.base.flags, i);
    found := PreFindings(inp, ovFindings, opsFindings, bf.key);
    if found != [] {
      return null, map[], found;
    }
    flag, prov := MergeFlag(bf, ov, ops);
    found := PostFindings(flag.View(), bf, ov, ops, prov);
    if found != [] {
      return null, prov, found;
    }
  }

  method BuildFlag(b: SnapshotBuilder, inp: Input, i: nat, ovFindings: seq<Finding>, opsFindings: seq<Finding>,
                   ov: Option<OverlayFlag>, ops: Option<OpsOverride>, prev: SnapshotObject?,
                   ghost rs: map<string, Resolution>)
    returns (found: seq<Finding>)
    requires ReportsOverlay(inp, ovFindings) && ReportsOps(inp, opsFindings) && !inp.Nameless()
    requires BaseAccepted(inp.base) && i < |inp.base.flags| && inp.base.flags[i].key !in rs
    requires ov == inp.OverlayFor(inp.base.flags[i].key) && ops == inp.OpsFor(inp.base.flags[i].key)
    requires PrevOk(prev, b) && Reflects(b, rs, ContentOf(prev))
    modifies b
    ensures fresh(b.repr - old(b.repr)) && PrevOk(prev, b)
    ensures var key := inp.base.flags[i].key; var r := Resolve(inp, key);
      && r != Unmentioned
      && Reflects(b, rs[key := r], ContentOf(prev))
      && Quarantines(found, if r.Quarantine? then {key} else {})
  {
    var flag, prov;
    flag, prov, found := Judge(inp, i, ovFindings, opsFindings, ov, ops);
    Settle(b, prev, inp.base.flags[i].key, flag, prov, rs);
  }

  ghost function ReprOf(flag: FlagObject?): set<object>
    reads flag
  {
    if flag == null then {} else flag.Repr()
  }

  ghost function Verdict(flag: FlagObject?, prov: Provenance): Resolution
    reads flag, if flag == null then null else flag.rollout
  {
    if flag == null then Quarantine else Accept(flag.View(), prov)
  }

  /** Adds a merged flag, or carries the key. */
  method Settle(b: SnapshotBuilder, prev: SnapshotObject?, key: string, flag: FlagObject?, prov: Provenance,
                ghost rs: map<string, Resolution>)
    requires PrevOk(prev, b) && Reflects(b, rs, ContentOf(prev)) && key !in rs
    requires b !in ReprOf(flag) && (flag != null ==> flag.key == key)
    modifies b
    ensures fresh(b.repr - old(b.repr) - old(ReprOf(flag))) && PrevOk(prev, b)
    ensures Reflects(b, rs[key := old(Verdict(flag, prov))], ContentOf(prev))
  {
    if flag == null {
      Carry(b, prev, key, rs);
    } else {
      Keep(b, flag, prov, rs, ContentOf(prev));
    }
    StaysFrozen(prev);
  }

  method Keep(b: SnapshotBuilder, flag: FlagObject, prov: Provenance, ghost rs: map<string, Resolution>,
              ghost prev: Option<Snapshot>)
    requires Reflects(b, rs, prev) && flag.key !in rs && b !in flag.Repr()
    modifies b
    ensures b.repr == old(b.repr + flag.Repr())
    ensures Reflects(b, rs[old(flag.key) := Accept(old(flag.View()), prov)], prev)
  {
    ghost var view, own := flag.View(), flag.Repr();
    AcceptStep(rs, prev, view.key, view, prov);
    b.Add(flag, prov, view, own);
  }

  // ---- All flags -------------------------------------------------------------------

  function BaseKeys(flags: seq<BaseFlag>): set<string> { set f | f in flags :: f.key }

  /** The resolutions of some of the keys. */
  ghost function ResolutionsOf(inp: Input, keys: set<string>): map<string, Resolution> {
    map k | k in keys :: Resolve(inp, k)
  }

  lemma OneMore(inp: Input, keys: set<string>, key: string, before: seq<Finding>, found: seq<Finding>)
    requires key !in keys && Quarantines(before, Quarantined(ResolutionsOf(inp, keys)))
    requires Quarantines(found, if Resolve(inp, key).Quarantine? then {key} else {})
    ensures ResolutionsOf(inp, keys + {key}) == ResolutionsOf(inp, keys)[key := Resolve(inp, key)]
    ensures Quarantines(before + found, Quarantined(ResolutionsOf(inp, keys + {key})))
  {
    assert FlagsOf(before + found) == FlagsOf(before) + FlagsOf(found);
  }

  lemma NextBaseKey(base: BaseLayer, i: nat)
    requires BaseAccepted(base) && i < |base.flags|
    ensures base.flags[i].key !in BaseKeys(base.flags[..i])
    ensures BaseKeys(base.flags[..i + 1]) == BaseKeys(base.flags[..i]) + {base.flags[i].key}
  {
    assert base == BaseLayer(base.flags);
    assert base.flags[..i + 1] == base.flags[..i] + [base.flags[i]];
    if base.flags[i].key in BaseKeys(base.flags[..i]) {
      var j :| 0 <= j < i && base.flags[j].key == base.flags[i].key;
      assert BaseBreaks(base.flags, i, B12);
    }
  }

  lemma NoneYet(inp: Input, keys: set<string>)
    requires keys == {}
    ensures ResolutionsOf(inp, keys) == map[]
  {
  }

  ghost predicate Indexed(inp: Input, ovByKey: map<string, OverlayFlag>, opsByKey: map<string, OpsOverride>) {
    forall k :: Find(ovByKey, k) == inp.OverlayFor(k) && Find(opsByKey, k) == inp.OpsFor(k)
  }

  method BuildNext(b: SnapshotBuilder, inp: Input, i: nat, ovFindings: seq<Finding>, opsFindings: seq<Finding>,
                   ovByKey: map<string, OverlayFlag>, opsByKey: map<string, OpsOverride>,
                   prev: SnapshotObject?, before: seq<Finding>)
    returns (quarantined: seq<Finding>)
    requires ReportsOverlay(inp, ovFindings) && ReportsOps(inp, opsFindings) && !inp.Nameless()
    requires BaseAccepted(inp.base) && i < |inp.base.flags| && Indexed(inp, ovByKey, opsByKey)
    requires PrevOk(prev, b) && Reflects(b, ResolutionsOf(inp, BaseKeys(inp.base.flags[..i])), ContentOf(prev))
    requires Quarantines(before, Quarantined(ResolutionsOf(inp, BaseKeys(inp.base.flags[..i]))))
    modifies b
    ensures fresh(b.repr - old(b.repr)) && PrevOk(prev, b)
    ensures Reflects(b, ResolutionsOf(inp, BaseKeys(inp.base.flags[..i + 1])), ContentOf(prev))
    ensures Quarantines(quarantined, Quarantined(ResolutionsOf(inp, BaseKeys(inp.base.flags[..i + 1]))))
  {
    NextBaseKey(inp.base, i);
    var key := inp.base.flags[i].key;
    ghost var keys := BaseKeys(inp.base.flags[..i]);
    var found := BuildFlag(b, inp, i, ovFindings, opsFindings, Find(ovByKey, key), Find(opsByKey, key), prev,
                           ResolutionsOf(inp, keys));
    OneMore(inp, keys, key, before, found);
    quarantined := before + found;
  }

  method BuildFlags(b: SnapshotBuilder, inp: Input, ovFindings: seq<Finding>, opsFindings: seq<Finding>,
                    ovByKey: map<string, OverlayFlag>, opsByKey: map<string, OpsOverride>,
                    prev: SnapshotObject?)
    returns (quarantined: seq<Finding>)
    requires ReportsOverlay(inp, ovFindings) && ReportsOps(inp, opsFindings) && !inp.Nameless()
    requires BaseAccepted(inp.base) && Indexed(inp, ovByKey, opsByKey)
    requires PrevOk(prev, b) && Reflects(b, map[], ContentOf(prev))
    modifies b
    ensures fresh(b.repr - old(b.repr)) && PrevOk(prev, b)
    ensures Reflects(b, ResolutionsOf(inp, BaseKeys(inp.base.flags)), ContentOf(prev))
    ensures Quarantines(quarantined, Quarantined(ResolutionsOf(inp, BaseKeys(inp.base.flags))))
  {
    quarantined := [];
    var flags := inp.base.flags;
    NoneYet(inp, BaseKeys(flags[..0]));
    for i := 0 to |flags|
      invariant fresh(b.repr - old(b.repr)) && PrevOk(prev, b)
      invariant Reflects(b, ResolutionsOf(inp, BaseKeys(flags[..i])), ContentOf(prev))
      invariant Quarantines(quarantined, Quarantined(ResolutionsOf(inp, BaseKeys(flags[..i]))))
    {
      quarantined := BuildNext(b, inp, i, ovFindings, opsFindings, ovByKey, opsByKey, prev, quarantined);
    }
    assert flags[..|flags|] == flags;
  }

  // ---- Orphans ---------------------------------------------------------------------

  method AddOrphans(before: map<string, LayerId>, keys: set<string>, base: set<string>, layer: LayerId)
    returns (orphans: map<string, LayerId>)
    ensures forall k :: Find(orphans, k) ==
              if k in before then Some(before[k]) else if k in keys && k !in base then Some(layer) else None
  {
    orphans := before;
    var todo := keys;
    while todo != {}
      invariant todo <= keys
      invariant forall k :: Find(orphans, k) ==
                  if k in before then Some(before[k])
                  else if k in keys && k !in todo && k !in base then Some(layer) else None
      decreases |todo|
    {
      var k :| k in todo;
      todo := todo - {k};
      if k !in base && k !in orphans {
        orphans := orphans[k := layer];
      }
    }
  }

  /** Keys a sparse layer names and the base does not, with the layer charged. */
  method Orphans(base: set<string>, ovByKey: map<string, OverlayFlag>, opsByKey: map<string, OpsOverride>)
    returns (orphans: map<string, LayerId>)
    ensures forall k :: Find(orphans, k) ==
              if k in base then None
              else if k in ovByKey then Some(LayerOverlay)
              else if k in opsByKey then Some(LayerOps) else None
  {
    orphans := AddOrphans(map[], ovByKey.Keys, base, LayerOverlay);
    orphans := AddOrphans(orphans, opsByKey.Keys, base, LayerOps);
  }

  function Orphaned(rs: map<string, Resolution>, keys: set<string>): map<string, Resolution> {
    rs + map k | k in keys :: Quarantine
  }

  /** An entry without a base flag cannot be served: carried if it ever was, else absent. */
  method BuildOrphan(b: SnapshotBuilder, k: string, layer: LayerId, prev: SnapshotObject?,
                     before: seq<Finding>, ghost rs: map<string, Resolution>, ghost keys: set<string>)
    returns (quarantined: seq<Finding>)
    requires PrevOk(prev, b) && Reflects(b, Orphaned(rs, keys), ContentOf(prev))
    requires k !in rs && k !in keys && Quarantines(before, Quarantined(Orphaned(rs, keys)))
    modifies b
    ensures fresh(b.repr - old(b.repr))
    ensures Reflects(b, Orphaned(rs, keys + {k}), ContentOf(prev))
    ensures Quarantines(quarantined, Quarantined(Orphaned(rs, keys + {k})))
  {
    var found := [Finding(M02, k, layer, SeverityRejectFlag)];
    OrphanedMore(rs, keys, k);
    QuarantinedMore(Orphaned(rs, keys), k, before, found);
    quarantined := before + found;
    Carry(b, prev, k, Orphaned(rs, keys));
  }

  lemma OrphanedMore(rs: map<string, Resolution>, keys: set<string>, k: string)
    requires k !in rs && k !in keys
    ensures Orphaned(rs, keys + {k}) == Orphaned(rs, keys)[k := Quarantine]
  {
  }

  lemma QuarantinedMore(rs: map<string, Resolution>, k: string, before: seq<Finding>, found: seq<Finding>)
    requires k !in rs && Quarantines(before, Quarantined(rs)) && Quarantines(found, {k})
    ensures Quarantines(before + found, Quarantined(rs[k := Quarantine]))
  {
    assert FlagsOf(before + found) == FlagsOf(before) + FlagsOf(found);
    assert Quarantined(rs[k := Quarantine]) == Quarantined(rs) + {k};
  }

  lemma OrphanedNone(rs: map<string, Resolution>, keys: set<string>)
    requires keys == {}
    ensures Orphaned(rs, keys) == rs
  {
  }

  method BuildNextOrphan(b: SnapshotBuilder, order: seq<string>, i: nat, orphans: map<string, LayerId>,
                         prev: SnapshotObject?, before: seq<Finding>, ghost rs: map<string, Resolution>)
    returns (quarantined: seq<Finding>)
    requires orphans.Keys !! rs.Keys && IsOrder(order, orphans.Keys) && i < |order|
    requires PrevOk(prev, b) && Reflects(b, Orphaned(rs, KeySet(order[..i])), ContentOf(prev))
    requires Quarantines(before, Quarantined(Orphaned(rs, KeySet(order[..i]))))
    modifies b
    ensures fresh(b.repr - old(b.repr)) && PrevOk(prev, b)
    ensures Reflects(b, Orphaned(rs, KeySet(order[..i + 1])), ContentOf(prev))
    ensures Quarantines(quarantined, Quarantined(Orphaned(rs, KeySet(order[..i + 1]))))
  {
    NextKey(order, i);
    assert order[i] in KeySet(order);
    quarantined := BuildOrphan(b, order[i], orphans[order[i]], prev, before, rs, KeySet(order[..i]));
    StaysFrozen(prev);
  }

  method BuildOrphans(b: SnapshotBuilder, orphans: map<string, LayerId>, prev: SnapshotObject?,
                      before: seq<Finding>, ghost rs: map<string, Resolution>)
    returns (quarantined: seq<Finding>)
    requires PrevOk(prev, b) && Reflects(b, rs, ContentOf(prev))
    requires orphans.Keys !! rs.Keys && Quarantines(before, Quarantined(rs))
    modifies b
    ensures fresh(b.repr - old(b.repr))
    ensures Reflects(b, Orphaned(rs, orphans.Keys), ContentOf(prev))
    ensures Quarantines(quarantined, Quarantined(Orphaned(rs, orphans.Keys)))
  {
    quarantined := before;
    var order := Ordered(orphans.Keys);
    WholeOrder(order, orphans.Keys);
    OrphanedNone(rs, KeySet(order[..0]));
    for i := 0 to |order|
      invariant fresh(b.repr - old(b.repr)) && PrevOk(prev, b)
      invariant Reflects(b, Orphaned(rs, KeySet(order[..i])), ContentOf(prev))
      invariant Quarantines(quarantined, Quarantined(Orphaned(rs, KeySet(order[..i]))))
    {
      quarantined := BuildNextOrphan(b, order, i, orphans, prev, quarantined, rs);
    }
  }

  lemma OrphansComplete(inp: Input, orphans: map<string, LayerId>)
    requires forall k :: k in orphans <==>
               k !in BaseKeys(inp.base.flags) && (inp.OverlayFor(k).Some? || inp.OpsFor(k).Some?)
    ensures orphans.Keys !! BaseKeys(inp.base.flags)
    ensures Orphaned(ResolutionsOf(inp, BaseKeys(inp.base.flags)), orphans.Keys) == Resolutions(inp)
  {
    var all := Orphaned(ResolutionsOf(inp, BaseKeys(inp.base.flags)), orphans.Keys);
    forall k ensures Find(all, k) == Find(Resolutions(inp), k) {
      OrphanOrBase(inp, orphans, k);
    }
    SameMaps(all, Resolutions(inp));
  }

  lemma SameMaps<T>(a: map<string, T>, b: map<string, T>)
    requires forall k :: Find(a, k) == Find(b, k)
    ensures a == b
  {
    forall k ensures k in a <==> k in b {
      assert Find(a, k) == Find(b, k);
    }
    forall k | k in a ensures a[k] == b[k] {
      assert Find(a, k) == Find(b, k);
    }
  }

  lemma OrphanOrBase(inp: Input, orphans: map<string, LayerId>, k: string)
    requires k in orphans <==>
               k !in BaseKeys(inp.base.flags) && (inp.OverlayFor(k).Some? || inp.OpsFor(k).Some?)
    ensures Find(Orphaned(ResolutionsOf(inp, BaseKeys(inp.base.flags)), orphans.Keys), k)
            == Find(Resolutions(inp), k)
  {
    var i := FindBase(inp.base.flags, k);
    assert k in BaseKeys(inp.base.flags) <==> i < |inp.base.flags|;
    if Resolve(inp, k) != Unmentioned {
      MentionedIsAKey(inp, k);
    }
  }

  method OrphansOf(inp: Input, ovByKey: map<string, OverlayFlag>, opsByKey: map<string, OpsOverride>)
    returns (orphans: map<string, LayerId>)
    requires Indexed(inp, ovByKey, opsByKey)
    ensures orphans.Keys !! BaseKeys(inp.base.flags)
    ensures Orphaned(ResolutionsOf(inp, BaseKeys(inp.base.flags)), orphans.Keys) == Resolutions(inp)
  {
    orphans := Orphans(BaseKeys(inp.base.flags), ovByKey, opsByKey);
    assert forall k :: k in orphans <==> Find(orphans, k).Some?;
    OrphansComplete(inp, orphans);
  }

  /**
   * Every flag of one environment, resolved against its layers: the builder ends up holding
   * exactly what the resolution of each key calls for, in objects allocated by this call.
   */
  method Assemble(env: string, inp: Input, ovFindings: seq<Finding>, opsFindings: seq<Finding>,
                  prev: SnapshotObject?)
    returns (b: SnapshotBuilder, quarantined: seq<Finding>)
    requires ReportsOverlay(inp, ovFindings) && ReportsOps(inp, opsFindings) && !inp.Nameless()
    requires BaseAccepted(inp.base) && KeysMatch(ContentOf(prev)) && (prev != null ==> prev.Frozen())
    ensures fresh(b) && fresh(b.repr) && b.env == env
    ensures Reflects(b, Resolutions(inp), ContentOf(prev))
    ensures Quarantines(quarantined, Quarantined(Resolutions(inp)))
  {
    var ovByKey := IndexOverlay(inp.OverlayFlags());
    var opsByKey := IndexOps(inp.Overrides(), inp.now);
    b := NewBuilder(env, ContentOf(prev));
    quarantined := BuildFlags(b, inp, ovFindings, opsFindings, ovByKey, opsByKey, prev);
    var orphans := OrphansOf(inp, ovByKey, opsByKey);
    quarantined := BuildOrphans(b, orphans, prev, quarantined,
                                ResolutionsOf(inp, BaseKeys(inp.base.flags)));
  }

  method NewBuilder(env: string, ghost prev: Option<Snapshot>) returns (b: SnapshotBuilder)
    ensures fresh(b) && b.repr == {} && b.env == env && Reflects(b, map[], prev)
  {
    b := new SnapshotBuilder(env);
  }

  // ---- The environment-wide guards -------------------------------------------------

  const NO_BASE := Finding(E01, "", LayerBase, SeverityRejectEnv)
  const TOO_MANY_FLAGS := Finding(M13, "", LayerBase, SeverityRejectEnv)
  const TOO_MANY_QUARANTINED := Finding(M15, "", LayerNone, SeverityRejectEnv)

  ghost predicate IsNamelessRejection(inp: Input, f: Finding) {
    || (f == NAMELESS_OVERLAY && inp.overlay.Some? && inp.overlay.value.environment == "")
    || (f == NAMELESS_OPS && inp.ops.Some? && inp.ops.value.environment == "")
  }

  predicate IsSizeRejection(flagCount: nat, quarantineCount: nat, totalFlags: nat, f: Finding) {
    || (f == TOO_MANY_FLAGS && flagCount > MAX_FLAGS_PER_ENV)
    || (f == TOO_MANY_QUARANTINED && quarantineCount > QuarantineBudget(totalFlags))
  }

  /** Findings that stop the whole environment. */
  ghost predicate IsEnvRejection(inp: Input, prev: Option<Snapshot>, f: Finding) {
    if inp.Nameless() then IsNamelessRejection(inp, f)
    else
      IsSizeRejection(|ServedFlags(Resolutions(inp), prev)|, |Quarantined(Resolutions(inp))|,
                      |inp.base.flags|, f)
  }

  lemma OverlayStops(inp: Input, findings: seq<Finding>, f: Finding)
    requires ReportsOverlay(inp, findings)
    ensures f in findings && StopsEnv.Wants(f) <==>
            f == NAMELESS_OVERLAY && inp.overlay.Some? && inp.overlay.value.environment == ""
  {
  }

  lemma OpsStops(inp: Input, findings: seq<Finding>, f: Finding)
    requires ReportsOps(inp, findings)
    ensures f in findings && StopsEnv.Wants(f) <==>
            f == NAMELESS_OPS && inp.ops.Some? && inp.ops.value.environment == ""
  {
  }

  lemma NamelessIsRejected(inp: Input, rejected: seq<Finding>)
    requires forall f :: f in rejected <==> IsNamelessRejection(inp, f)
    ensures rejected == [] <==> !inp.Nameless()
  {
    assert rejected != [] ==> rejected[0] in rejected;
    assert IsNamelessRejection(inp, NAMELESS_OVERLAY) ==> NAMELESS_OVERLAY in rejected;
    assert IsNamelessRejection(inp, NAMELESS_OPS) ==> NAMELESS_OPS in rejected;
  }

  method NamelessRejections(inp: Input, ovFindings: seq<Finding>, opsFindings: seq<Finding>)
    returns (rejected: seq<Finding>)
    requires ReportsOverlay(inp, ovFindings) && ReportsOps(inp, opsFindings)
    ensures rejected == [] <==> !inp.Nameless()
    ensures forall f :: f in rejected <==> IsNamelessRejection(inp, f)
  {
    var ov := Filter(ovFindings, StopsEnv);
    var ops := Filter(opsFindings, StopsEnv);
    rejected := ov + ops;
    forall f ensures f in rejected <==> IsNamelessRejection(inp, f) {
      OverlayStops(inp, ovFindings, f);
      OpsStops(inp, opsFindings, f);
    }
    NamelessIsRejected(inp, rejected);
  }

  method Guards(flagCount: nat, quarantineCount: nat, totalFlags: nat) returns (rejected: seq<Finding>)
    ensures forall f :: f in rejected <==> IsSizeRejection(flagCount, quarantineCount, totalFlags, f)
    ensures rejected == [] <==> flagCount <= 20000 && quarantineCount <= QuarantineBudget(totalFlags)
  {
    rejected := [];
    if flagCount > MAX_FLAGS_PER_ENV {
      rejected := rejected + [TOO_MANY_FLAGS];
    }
    if quarantineCount > QuarantineBudget(totalFlags) {
      rejected := rejected + [TOO_MANY_QUARANTINED];
    }
  }

  method Sizes(b: SnapshotBuilder) returns (flagCount: nat, quarantineCount: nat)
    requires b.Valid()
    ensures flagCount == |b.views| && quarantineCount == |b.quarantined|
  {
    assert |b.flags.Keys| == |b.views.Keys|;
    return |b.flags|, |b.quarantined|;
  }

  /** The guards, judged on the finished build. */
  method Finish(b: SnapshotBuilder, totalFlags: nat, gen: int, now: int, ghost rs: map<string, Resolution>,
                ghost prev: Option<Snapshot>)
    returns (snap: SnapshotObject?, rejected: seq<Finding>)
    requires Reflects(b, rs, prev)
    ensures snap != null ==>
              && fresh(snap) && snap.repr == b.repr && snap.Frozen()
              && snap.content == Snapshot(b.env, gen + 1, now, ServedFlags(rs, prev), ServedProvenance(rs, prev),
                                          Quarantined(rs))
    ensures snap != null <==> rejected == []
    ensures snap != null <==>
              |ServedFlags(rs, prev)| <= 20000 && |Quarantined(rs)| <= QuarantineBudget(totalFlags)
    ensures forall f :: f in rejected <==>
              IsSizeRejection(|ServedFlags(rs, prev)|, |Quarantined(rs)|, totalFlags, f)
  {
    snap := null;
    var flagCount, quarantineCount := Sizes(b);
    rejected := Guards(flagCount, quarantineCount, totalFlags);
    if rejected == [] {
      snap := b.Freeze(gen + 1, now);
    }
  }

  method BuildNamed(env: string, inp: Input, ovFindings: seq<Finding>, opsFindings: seq<Finding>,
                    prev: SnapshotObject?, gen: int)
    returns (snap: SnapshotObject?, rejected: seq<Finding>, quarantined: seq<Finding>)
    requires ReportsOverlay(inp, ovFindings) && ReportsOps(inp, opsFindings) && !inp.Nameless()
    requires BaseAccepted(inp.base) && KeysMatch(ContentOf(prev)) && (prev != null ==> prev.Frozen())
    ensures snap != null ==>
              && fresh(snap) && fresh(snap.repr) && snap.Frozen()
              && snap.content == Published(env, inp, Slot(ContentOf(prev), gen))
    ensures snap != null <==> rejected == []
    ensures snap != null <==> Publishes(inp, ContentOf(prev))
    ensures forall f :: f in rejected <==> IsEnvRejection(inp, ContentOf(prev), f)
    ensures Quarantines(quarantined, Quarantined(Resolutions(inp)))
  {
    var b;
    b, quarantined := Assemble(env, inp, ovFindings, opsFindings, prev);
    snap, rejected := Finish(b, |inp.base.flags|, gen, inp.now, Resolutions(inp), ContentOf(prev));
  }

  /**
   * One build from accepted layers: a fresh snapshot exactly when nothing stops the
   * environment, and then exactly the one specified; otherwise exactly the reasons.
   */
  method BuildSnapshot(env: string, inp: Input, prev: SnapshotObject?, gen: int)
    returns (snap: SnapshotObject?, rejected: seq<Finding>, quarantined: seq<Finding>, warnings: seq<Finding>)
    requires BaseAccepted(inp.base) && KeysMatch(ContentOf(prev)) && (prev != null ==> prev.Frozen())
    ensures snap != null <==> Publishes(inp, ContentOf(prev))
    ensures snap != null ==>
              && fresh(snap) && fresh(snap.repr) && snap.Frozen()
              && snap.content == Published(env, inp, Slot(ContentOf(prev), gen))
    ensures snap != null <==> rejected == []
    ensures forall f :: f in rejected <==> IsEnvRejection(inp, ContentOf(prev), f)
    ensures !inp.Nameless() ==> Quarantines(quarantined, Quarantined(Resolutions(inp)))
    ensures !inp.Nameless() ==>
              forall f :: f in warnings <==>
                f.severity == SeverityWarn && inp.ops.Some? && IsOpsFinding(inp.ops.value, inp.now, f)
    ensures inp.Nameless() ==> quarantined == [] && warnings == []
  {
    snap, quarantined, warnings := null, [], [];
    var ovFindings := ValidateOverlay(inp.overlay);
    var opsFindings := ValidateOps(inp.ops, inp.now);
    rejected := NamelessRejections(inp, ovFindings, opsFindings);
    if rejected != [] {
      return;
    }
    var ovWarns := Warns(ovFindings);
    var opsWarns := Warns(opsFindings);
    warnings := ovWarns + opsWarns;
    snap, rejected, quarantined := BuildNamed(env, inp, ovFindings, opsFindings, prev, gen);
  }
}
