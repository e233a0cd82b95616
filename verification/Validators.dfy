// internal/config/validate.go: the validators themselves, as loops that append findings.
// Each is proved to report exactly the broken rules that Validate.dfy defines.
//
// Within one flag only the rule id of a finding varies, so the checks on one flag append
// rule ids and the enclosing loop stamps them with flag, layer and severity.
module Validators {
  import opened Core
  import opened Layers
  import opened Merge
  import opened Validate

  function Stamp(ids: seq<RuleId>, flag: string, layer: LayerId): (out: seq<Finding>)
    ensures forall f :: f in out <==>
              f.flag == flag && f.layer == layer && f.severity == SeverityOf(layer, f.id) && f.id in ids
  {
    if ids == [] then []
    else
      assert ids == [ids[0]] + ids[1..];
      [Finding(ids[0], flag, layer, SeverityOf(layer, ids[0]))] + Stamp(ids[1..], flag, layer)
  }

  // ---- Rule lists ------------------------------------------------------------------

  method CheckCondition(c: WireCondition) returns (ids: seq<RuleId>)
    ensures forall id :: id in ids <==> ConditionBreaks(c, id)
  {
    ids := [];
    if c.attribute == "" {
      ids := ids + [B07];
    }
    var op := ParseOperator(c.op);
    if op.None? {
      return ids + [B06];
    }
    if !ArityOk(op.value, |c.values|) {
      ids := ids + [B07];
    }
    for k := 0 to |c.values|
      invariant forall id :: id in ids <==>
                  id == B07 && (c.attribute == "" || !ArityOk(op.value, |c.values|) || HasNull(c.values[..k]))
    {
      assert c.values[..k + 1] == c.values[..k] + [c.values[k]];
      if c.values[k].IsUnknown() {
        ids := ids + [B07];
      }
    }
    assert c.values[..|c.values|] == c.values;
  }

  method CheckConditions(conditions: seq<WireCondition>) returns (ids: seq<RuleId>)
    ensures forall id :: id in ids <==> exists c | c in conditions :: ConditionBreaks(c, id)
  {
    ids := [];
    for j := 0 to |conditions|
      invariant forall id :: id in ids <==> exists c | c in conditions[..j] :: ConditionBreaks(c, id)
    {
      assert conditions[..j + 1] == conditions[..j] + [conditions[j]];
      var found := CheckCondition(conditions[j]);
      ids := ids + found;
    }
    assert conditions[..|conditions|] == conditions;
  }

  method CheckRule(rules: seq<WireRule>, i: nat, dup: bool) returns (ids: seq<RuleId>)
    requires i < |rules| && dup == exists j | 0 <= j < i :: rules[j].id == rules[i].id
    ensures forall id :: id in ids <==> RuleBreaks(rules, i, id)
  {
    var r := rules[i];
    ids := [];
    if r.id == "" {
      ids := ids + [B05];
    } else if dup {
      ids := ids + [B05];
    }
    if ParseLogicOp(r.combiner).None? {
      ids := ids + [B17];
    }
    if |r.conditions| == 0 {
      ids := ids + [B07];
    }
    var found := CheckConditions(r.conditions);
    ids := ids + found;
  }

  method ValidateRuleList(rules: seq<WireRule>) returns (ids: seq<RuleId>)
    ensures forall id :: id in ids <==> RuleListBreaks(rules, id)
  {
    ids := [];
    var seen: set<string> := {};
    for i := 0 to |rules|
      invariant forall id :: id in seen <==> exists j | 0 <= j < i :: rules[j].id == id
      invariant forall id :: id in ids <==> exists j | 0 <= j < i :: RuleBreaks(rules, j, id)
    {
      var found := CheckRule(rules, i, rules[i].id in seen);
      seen := seen + {rules[i].id};
      ids := ids + found;
    }
  }

  // ---- L1 --------------------------------------------------------------------------

  method CheckBaseIdentity(flags: seq<BaseFlag>, i: nat, dup: bool) returns (ids: seq<RuleId>)
    requires i < |flags| && dup == DuplicateBase(flags, i)
    ensures forall id :: id in ids <==> id in {B00, B01, B12, B02, B03, B04} && BaseBreaks(flags, i, id)
  {
    var b := flags[i];
    ids := [];
    for k := 0 to |b.missing|
      invariant forall id :: id in ids <==> id == B00 && k > 0
    {
      ids := ids + [B00];
    }
    if !KeyOk(b.key) {
      ids := ids + [B01];
    }
    if dup {
      ids := ids + [B12];
    }
    var typ := ParseValueType(b.typ);
    if typ.None? {
      ids := ids + [B02];
    } else {
      if b.defaultValue.Type() != typ.value {
        ids := ids + [B03];
      }
      if !b.offValue.IsUnknown() && b.offValue.Type() != typ.value {
        ids := ids + [B04];
      }
    }
  }

  method CheckBaseTargeting(flags: seq<BaseFlag>, i: nat) returns (ids: seq<RuleId>)
    requires i < |flags|
    ensures forall id :: id in ids <==> id in {B18, B13, B05, B06, B07, B17, B08} && BaseBreaks(flags, i, id)
  {
    var b := flags[i];
    ids := [];
    if ParseEvaluationOrder(b.evaluationOrder).None? {
      ids := ids + [B18];
    }
    if b.owner == "" {
      ids := ids + [B13];
    }
    var rules := ValidateRuleList(b.rules);
    ids := ids + rules;
    if b.rollout.Some? && !BasisPointsOk(b.rollout.value.basisPoints) {
      ids := ids + [B08];
    }
  }

  method CheckBaseFlag(flags: seq<BaseFlag>, i: nat, dup: bool) returns (ids: seq<RuleId>)
    requires i < |flags| && dup == DuplicateBase(flags, i)
    ensures forall id :: id in ids <==> BaseBreaks(flags, i, id)
  {
    var identity := CheckBaseIdentity(flags, i, dup);
    var targeting := CheckBaseTargeting(flags, i);
    ids := identity + targeting;
  }

  method ValidateBase(l: Option<BaseLayer>) returns (out: seq<Finding>)
    ensures l.None? ==> out == []
    ensures l.Some? ==> forall f :: f in out <==> IsBaseFinding(l.value.flags, f)
  {
    out := [];
    if l.None? {
      return;
    }
    var flags := l.value.flags;
    var seen: set<string> := {};
    for i := 0 to |flags|
      invariant forall k :: k in seen <==> exists j | 0 <= j < i :: flags[j].key == k
      invariant forall f :: f in out <==>
                  && f.layer == LayerBase && f.severity == BaseSeverity(f.id)
                  && exists j | 0 <= j < i :: flags[j].key == f.flag && BaseBreaks(flags, j, f.id)
    {
      var ids := CheckBaseFlag(flags, i, flags[i].key in seen);
      seen := seen + {flags[i].key};
      out := out + Stamp(ids, flags[i].key, LayerBase);
    }
  }

  // ---- L2 --------------------------------------------------------------------------

  method CheckOverlayScalars(flags: seq<OverlayFlag>, i: nat, dup: bool) returns (ids: seq<RuleId>)
    requires i < |flags| && dup == DuplicateOverlay(flags, i)
    ensures forall id :: id in ids <==>
              (id in {O01, O11, O02} && OverlayBreaks(flags, i, id)) || (id == O04 && ScalarNull(flags[i]))
  {
    var o := flags[i];
    ids := [];
    if !KeyOk(o.key) {
      ids := ids + [O01];
    }
    if dup {
      ids := ids + [O11];
    }
    if !o.typ.Absent? {
      ids := ids + [O02];
    }
    var nulls := [o.enabled.Null?, o.defaultValue.Null?, o.offValue.Null?, o.evaluationOrder.Null?,
                  o.rulesMode.Null?];
    ids := CheckNulls(nulls, ids);
  }

  method CheckNulls(nulls: seq<bool>, before: seq<RuleId>) returns (ids: seq<RuleId>)
    ensures forall id :: id in ids <==> id in before || (id == O04 && true in nulls)
  {
    ids := before;
    for k := 0 to |nulls|
      invariant forall id :: id in ids <==> id in before || (id == O04 && true in nulls[..k])
    {
      if nulls[k] {
        ids := ids + [O04];
      }
    }
    assert nulls[..|nulls|] == nulls;
  }

  method CheckOverlayRules(flags: seq<OverlayFlag>, i: nat) returns (ids: seq<RuleId>)
    requires i < |flags|
    ensures forall id :: id in ids <==> id in {O03, B05, B06, B07, B17} && OverlayBreaks(flags, i, id)
  {
    var o := flags[i];
    ids := [];
    if !o.rules.Absent? {
      if !o.rulesMode.Given? {
        ids := ids + [O03];
      } else if o.rulesMode.value != RULE_MODE_REPLACE && o.rulesMode.value != RULE_MODE_APPEND {
        ids := ids + [O03];
      } else if o.rules.Null? && o.rulesMode.value == RULE_MODE_APPEND {
        ids := ids + [O03];
      }
      if o.rules.Given? {
        var rules := ValidateRuleList(o.rules.value);
        ids := ids + rules;
      }
    } else if !o.rulesMode.Absent? {
      ids := ids + [O03];
    }
  }

  method CheckOverlayRollout(flags: seq<OverlayFlag>, i: nat) returns (ids: seq<RuleId>)
    requires i < |flags|
    ensures forall id :: id in ids <==>
              || (id in {O12, O05} && OverlayBreaks(flags, i, id))
              || (id == O04 && flags[i].rollout.Given? && RolloutNull(flags[i].rollout.value))
  {
    var o := flags[i];
    ids := [];
    if o.evaluationOrder.Given? && ParseEvaluationOrder(o.evaluationOrder.value).None? {
      ids := ids + [O12];
    }
    if o.rollout.Given? {
      var r := o.rollout.value;
      var nulls := [r.basisPoints.Null?, r.bucketNamespace.Null?, r.bucketBy.Null?, r.onValue.Null?,
                    r.offValue.Null?];
      ids := CheckNulls(nulls, ids);
      if r.basisPoints.Given? && !BasisPointsOk(r.basisPoints.value) {
        ids := ids + [O05];
      }
    }
  }

  method CheckOverlayFlag(flags: seq<OverlayFlag>, i: nat, dup: bool) returns (ids: seq<RuleId>)
    requires i < |flags| && dup == DuplicateOverlay(flags, i)
    ensures forall id :: id in ids <==> OverlayBreaks(flags, i, id)
  {
    var scalars := CheckOverlayScalars(flags, i, dup);
    var rules := CheckOverlayRules(flags, i);
    var rollout := CheckOverlayRollout(flags, i);
    ids := scalars + rules + rollout;
  }

  method ValidateOverlay(l: Option<OverlayLayer>) returns (out: seq<Finding>)
    ensures l.None? ==> out == []
    ensures l.Some? ==> forall f :: f in out <==> IsOverlayFinding(l.value, f)
  {
    out := [];
    if l.None? {
      return;
    }
    var flags := l.value.flags;
    if l.value.environment == "" {
      out := [NAMELESS_OVERLAY];
    }
    var seen: set<string> := {};
    for i := 0 to |flags|
      invariant forall k :: k in seen <==> exists j | 0 <= j < i :: flags[j].key == k
      invariant forall f :: f in out <==>
                  || (f == NAMELESS_OVERLAY && l.value.environment == "")
                  || (&& f.layer == LayerOverlay && f.severity == SeverityRejectFlag
                      && exists j | 0 <= j < i :: flags[j].key == f.flag && OverlayBreaks(flags, j, f.id))
    {
      var ids := CheckOverlayFlag(flags, i, flags[i].key in seen);
      seen := seen + {flags[i].key};
      out := out + Stamp(ids, flags[i].key, LayerOverlay);
    }
  }

  // ---- L3 --------------------------------------------------------------------------

  method CheckOpsIdentity(overrides: seq<OpsOverride>, i: nat, now: int, dup: bool) returns (ids: seq<RuleId>)
    requires i < |overrides| && dup == DuplicateOps(overrides, i)
    ensures forall id :: id in ids <==> id in {O01, O14, O07, O08} && OpsBreaks(overrides, i, now, id)
  {
    var o := overrides[i];
    ids := [];
    if !KeyOk(o.key) {
      ids := ids + [O01];
    }
    if dup {
      ids := ids + [O14];
    }
    for k := 0 to |o.disallowed|
      invariant forall id :: id in ids <==>
                  (id in {O01, O14} && OpsBreaks(overrides, i, now, id)) || (id == O07 && k > 0)
    {
      ids := ids + [O07];
    }
    if !o.expiresAt.Given? {
      ids := ids + [O08];
    }
    if o.reason == "" {
      ids := ids + [O08];
    }
    if o.owner == "" {
      ids := ids + [O08];
    }
  }

  method CheckOpsEffect(overrides: seq<OpsOverride>, i: nat, now: int) returns (ids: seq<RuleId>)
    requires i < |overrides|
    ensures forall id :: id in ids <==> id in {O09, O10, M11, O05, O15} && OpsBreaks(overrides, i, now, id)
  {
    var o := overrides[i];
    ids := [];
    if o.expiresAt.Given? {
      var ttl := o.expiresAt.value - now;
      if ttl > MAX_OPS_OVERRIDE_TTL {
        ids := ids + [O09];
      } else if ttl > OPS_OVERRIDE_TTL_WARN {
        ids := ids + [O10];
      } else if ttl <= 0 {
        ids := ids + [M11];
      }
    }
    if o.basisPoints.Given? && !BasisPointsOk(o.basisPoints.value) {
      ids := ids + [O05];
    }
    if !o.enabled.Given? && !o.basisPoints.Given? {
      ids := ids + [O15];
    }
  }

  method CheckOverride(overrides: seq<OpsOverride>, i: nat, now: int, dup: bool) returns (ids: seq<RuleId>)
    requires i < |overrides| && dup == DuplicateOps(overrides, i)
    ensures forall id :: id in ids <==> OpsBreaks(overrides, i, now, id)
  {
    var identity := CheckOpsIdentity(overrides, i, now, dup);
    var effect := CheckOpsEffect(overrides, i, now);
    ids := identity + effect;
  }

  method ValidateOps(l: Option<OpsLayer>, now: int) returns (out: seq<Finding>)
    ensures l.None? ==> out == []
    ensures l.Some? ==> forall f :: f in out <==> IsOpsFinding(l.value, now, f)
  {
    out := [];
    if l.None? {
      return;
    }
    var overrides := l.value.overrides;
    if l.value.environment == "" {
      out := [NAMELESS_OPS];
    }
    var seen: set<string> := {};
    for i := 0 to |overrides|
      invariant forall k :: k in seen <==> exists j | 0 <= j < i :: overrides[j].key == k
      invariant forall f :: f in out <==>
                  || (f == NAMELESS_OPS && l.value.environment == "")
                  || (&& f.layer == LayerOps && f.severity == OpsSeverity(f.id)
                      && exists j | 0 <= j < i ::
                           overrides[j].key == f.flag && OpsBreaks(overrides, j, now, f.id))
    {
      var ids := CheckOverride(overrides, i, now, overrides[i].key in seen);
      seen := seen + {overrides[i].key};
      out := out + Stamp(ids, overrides[i].key, LayerOps);
    }
  }

  // ---- Post-merge ------------------------------------------------------------------

  method CheckCollision(base: BaseFlag, ov: Option<OverlayFlag>) returns (collides: bool)
    ensures collides == CollidesWithBase(base, ov)
  {
    collides := false;
    if ov.Some? && ov.value.rules.Given? && Appends(ov.value) {
      var baseIDs := set r | r in base.rules :: r.id;
      var own := ov.value.rules.value;
      for i := 0 to |own|
        invariant collides <==> exists r, b | r in own[..i] && b in base.rules :: r.id == b.id
      {
        assert own[..i + 1] == own[..i] + [own[i]];
        if own[i].id in baseIDs {
          collides := true;
        }
      }
      assert own[..|own|] == own;
    }
  }

  method CheckResolvedRules(f: Flag) returns (repeats: bool, mistyped: bool)
    ensures repeats == RepeatsRuleID(f.rules)
    ensures mistyped == exists r | r in f.rules :: r.value.Type() != f.typ
  {
    repeats, mistyped := false, false;
    var seen: set<string> := {};
    for i := 0 to |f.rules|
      invariant forall id :: id in seen <==> exists j | 0 <= j < i :: f.rules[j].id == id
      invariant repeats <==> exists j | 0 <= j < i :: exists k | 0 <= k < j :: f.rules[k].id == f.rules[j].id
      invariant mistyped <==> exists j | 0 <= j < i :: f.rules[j].value.Type() != f.typ
    {
      if f.rules[i].id in seen {
        repeats := true;
      }
      seen := seen + {f.rules[i].id};
      if f.rules[i].value.Type() != f.typ {
        mistyped := true;
      }
    }
  }

  /** A broken post-merge rule and the layer its field came from. */
  type Charge = (RuleId, LayerId)

  method CheckResolvedValues(f: Flag, base: BaseFlag, ov: Option<OverlayFlag>, ops: Option<OpsOverride>,
                             prov: Provenance)
    returns (out: seq<Charge>)
    requires f.typ != TypeUnknown
    ensures forall c: Charge :: c in out <==> c.0 == M01 && ResolvedBreaks(f, base, ov, ops, prov, c.0, c.1)
  {
    out := [];
    if f.defaultValue.Type() != f.typ {
      out := out + [(M01, LayerOf(prov, FieldDefaultValue))];
    }
    if f.offValue.Type() != f.typ {
      out := out + [(M01, LayerOf(prov, FieldOffValue))];
    }
  }

  method CheckResolvedList(f: Flag, base: BaseFlag, ov: Option<OverlayFlag>, ops: Option<OpsOverride>,
                           prov: Provenance)
    returns (out: seq<Charge>)
    requires f.typ != TypeUnknown
    ensures forall c: Charge :: c in out <==> c.0 in {M03, M04, M06} && ResolvedBreaks(f, base, ov, ops, prov, c.0, c.1)
  {
    out := [];
    var collides := CheckCollision(base, ov);
    if collides {
      out := out + [(M03, LayerOverlay)];
    }
    var repeats, mistyped := CheckResolvedRules(f);
    if repeats {
      out := out + [(M04, LayerOf(prov, FieldRules))];
    }
    if mistyped {
      out := out + [(M06, LayerOf(prov, FieldRules))];
    }
  }

  method CheckRolloutPresence(f: Flag, base: BaseFlag, ov: Option<OverlayFlag>, ops: Option<OpsOverride>,
                              prov: Provenance)
    returns (out: seq<Charge>)
    requires f.typ != TypeUnknown
    ensures forall c: Charge :: c in out <==> c.0 in {M05, M17} && ResolvedBreaks(f, base, ov, ops, prov, c.0, c.1)
  {
    out := [];
    if f.rollout.None? {
      return;
    }
    var r := f.rollout.value;
    if !BasisPointsOk(r.basisPoints) {
      out := out + [(M05, LayerOf(prov, FieldBasisPoints))];
    }
    if r.onValue.IsUnknown() {
      out := out + [(M17, LayerOf(prov, FieldOnValue))];
    }
    if r.offValue.IsUnknown() {
      out := out + [(M17, LayerOf(prov, FieldRolloutOffValue))];
    }
  }

  method CheckRolloutTypes(f: Flag, base: BaseFlag, ov: Option<OverlayFlag>, ops: Option<OpsOverride>,
                           prov: Provenance)
    returns (out: seq<Charge>)
    requires f.typ != TypeUnknown
    ensures forall c: Charge :: c in out <==> c.0 == M18 && ResolvedBreaks(f, base, ov, ops, prov, c.0, c.1)
  {
    out := [];
    if f.rollout.None? {
      return;
    }
    var r := f.rollout.value;
    if !r.onValue.IsUnknown() && r.onValue.Type() != f.typ {
      out := out + [(M18, LayerOf(prov, FieldOnValue))];
    }
    if !r.offValue.IsUnknown() && r.offValue.Type() != f.typ {
      out := out + [(M18, LayerOf(prov, FieldRolloutOffValue))];
    }
  }

  method CheckResolvedShape(f: Flag, base: BaseFlag, ov: Option<OverlayFlag>, ops: Option<OpsOverride>,
                            prov: Provenance)
    returns (out: seq<Charge>)
    requires f.typ != TypeUnknown
    ensures forall c: Charge :: c in out <==> c.0 in {M19, M09} && ResolvedBreaks(f, base, ov, ops, prov, c.0, c.1)
  {
    out := [];
    if f.rollout.None? && ops.Some? && ops.value.basisPoints.Given? {
      out := out + [(M19, LayerOps)];
    }
    if |f.rules| > 0 && f.rollout.Some? && f.evaluationOrder == OrderUnspecified {
      out := out + [(M09, LayerOf(prov, FieldEvaluationOrder))];
    }
  }

  function StampCharges(charges: seq<Charge>, flag: string): (out: seq<Finding>)
    ensures forall f :: f in out <==>
              f.flag == flag && f.severity == SeverityRejectFlag && (f.id, f.layer) in charges
  {
    if charges == [] then []
    else
      assert charges == [charges[0]] + charges[1..];
      [Finding(charges[0].0, flag, charges[0].1, SeverityRejectFlag)] + StampCharges(charges[1..], flag)
  }

  method ValidateResolved(f: Flag, base: BaseFlag, ov: Option<OverlayFlag>, ops: Option<OpsOverride>,
                          prov: Provenance)
    returns (out: seq<Finding>)
    ensures forall fd :: fd in out <==> IsResolvedFinding(f, base, ov, ops, prov, fd)
  {
    if f.typ == TypeUnknown {
      return [Finding(M20, f.key, LayerOf(prov, FieldType), SeverityRejectFlag)];
    }
    var values := CheckResolvedValues(f, base, ov, ops, prov);
    var list := CheckResolvedList(f, base, ov, ops, prov);
    var presence := CheckRolloutPresence(f, base, ov, ops, prov);
    var types := CheckRolloutTypes(f, base, ov, ops, prov);
    var shape := CheckResolvedShape(f, base, ov, ops, prov);
    var all := values + list + presence + types + shape;
    assert forall c: Charge :: c in all <==> ResolvedBreaks(f, base, ov, ops, prov, c.0, c.1);
    return StampCharges(all, f.key);
  }
}
