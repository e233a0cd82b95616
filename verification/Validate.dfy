// internal/config/validate.go: both validation passes.
//
// A finding is kept as its rule id, flag, layer and severity. What each rule means is
// stated as a predicate; each validator is proved to report exactly the broken rules.
module Validate {
  import opened Core
  import opened Layers
  import opened Merge

  datatype Severity = SeverityWarn | SeverityRejectFlag | SeverityRejectEnv | SeverityRejectGlobal
  {
    predicate IsRejection() { !SeverityWarn? }
  }

  datatype RuleId =
    | B00 | B01 | B02 | B03 | B04 | B05 | B06 | B07 | B08 | B12 | B13 | B17 | B18
    | O00 | O01 | O02 | O03 | O04 | O05 | O07 | O08 | O09 | O10 | O11 | O12 | O14 | O15
    | M01 | M02 | M03 | M04 | M05 | M06 | M09 | M11 | M13 | M15 | M17 | M18 | M19 | M20
    | E00 | E01

  datatype Finding = Finding(id: RuleId, flag: string, layer: LayerId, severity: Severity)

  const QUARANTINE_FLOOR := 20
  const MAX_FLAGS_PER_ENV := 20000

  /** max(20, 5%), the fraction truncated. */
  function QuarantineBudget(totalFlags: nat): int {
    if totalFlags / 20 < QUARANTINE_FLOOR then QUARANTINE_FLOOR else totalFlags / 20
  }

  /** Twenty up to 419 flags, and from 400 on the whole part of five percent. */
  lemma BudgetIsFivePercentOrTwenty(n: nat)
    ensures n < 420 ==> QuarantineBudget(n) == 20
    ensures n >= 400 ==> QuarantineBudget(n) * 100 <= n * 5 < (QuarantineBudget(n) + 1) * 100
  {
  }

  predicate KeyStart(c: char) { 'a' <= c <= 'z' || '0' <= c <= '9' }

  predicate KeyChar(c: char) { KeyStart(c) || c == '.' || c == '_' || c == '-' }

  /** ^[a-z0-9][a-z0-9._-]{0,127}$ */
  predicate KeyOk(s: string) {
    1 <= |s| <= 128 && KeyStart(s[0]) && forall i | 0 <= i < |s| :: KeyChar(s[i])
  }

  predicate BasisPointsOk(bp: int) { 0 <= bp <= BUCKET_SPACE }

  // ---- Rule lists ------------------------------------------------------------------

  predicate ArityOk(op: Operator, n: nat) {
    match op
    case OpExists => n == 0
    case OpIn => n > 0
    case _ => n == 1
  }

  predicate HasNull(values: seq<Value>) { exists v | v in values :: v.IsUnknown() }

  predicate ConditionBreaks(c: WireCondition, id: RuleId) {
    match id
    case B06 => ParseOperator(c.op).None?
    case B07 =>
      || c.attribute == ""
      || (ParseOperator(c.op).Some? &&
           (!ArityOk(ParseOperator(c.op).value, |c.values|) || HasNull(c.values)))
    case _ => false
  }

  /** Rule `i` is at fault; a repeated id is charged to its later use. */
  predicate RuleBreaks(rules: seq<WireRule>, i: nat, id: RuleId)
    requires i < |rules|
  {
    match id
    case B05 => rules[i].id == "" || exists j | 0 <= j < i :: rules[j].id == rules[i].id
    case B17 => ParseLogicOp(rules[i].combiner).None?
    case B06 => exists c | c in rules[i].conditions :: ConditionBreaks(c, B06)
    case B07 =>
      rules[i].conditions == [] || exists c | c in rules[i].conditions :: ConditionBreaks(c, B07)
    case _ => false
  }

  predicate RuleListBreaks(rules: seq<WireRule>, id: RuleId) {
    exists i | 0 <= i < |rules| :: RuleBreaks(rules, i, id)
  }

  /** Pass 1 has nothing against a rule list. */
  ghost predicate RuleListOk(rules: seq<WireRule>) { forall id :: !RuleListBreaks(rules, id) }

  // ---- L1 --------------------------------------------------------------------------

  predicate DuplicateBase(flags: seq<BaseFlag>, i: nat)
    requires i < |flags|
  {
    exists j | 0 <= j < i :: flags[j].key == flags[i].key
  }

  predicate BaseBreaks(flags: seq<BaseFlag>, i: nat, id: RuleId)
    requires i < |flags|
  {
    var f := flags[i];
    var typ := ParseValueType(f.typ);
    match id
    case B00 => f.missing != []
    case B01 => !KeyOk(f.key)
    case B12 => DuplicateBase(flags, i)
    case B02 => typ.None?
    case B03 => typ.Some? && f.defaultValue.Type() != typ.value
    case B04 => typ.Some? && !f.offValue.IsUnknown() && f.offValue.Type() != typ.value
    case B18 => ParseEvaluationOrder(f.evaluationOrder).None?
    case B13 => f.owner == ""
    case B05 | B06 | B07 | B17 => RuleListBreaks(f.rules, id)
    case B08 => f.rollout.Some? && !BasisPointsOk(f.rollout.value.basisPoints)
    case _ => false
  }

  /** The base is shared by every environment; only a missing owner is forgiven. */
  function BaseSeverity(id: RuleId): Severity {
    if id == B13 then SeverityWarn else SeverityRejectGlobal
  }

  ghost predicate IsBaseFinding(flags: seq<BaseFlag>, f: Finding) {
    && f.layer == LayerBase && f.severity == BaseSeverity(f.id)
    && exists i | 0 <= i < |flags| :: flags[i].key == f.flag && BaseBreaks(flags, i, f.id)
  }

  /** No rejecting finding. */
  ghost predicate BaseAccepted(l: BaseLayer) {
    forall i, id | 0 <= i < |l.flags| && BaseBreaks(l.flags, i, id) :: id == B13
  }

  // ---- L2 --------------------------------------------------------------------------

  predicate DuplicateOverlay(flags: seq<OverlayFlag>, i: nat)
    requires i < |flags|
  {
    exists j | 0 <= j < i :: flags[j].key == flags[i].key
  }

  predicate RulesModeBreaks(f: OverlayFlag) {
    if f.rules.Absent? then !f.rulesMode.Absent?
    else
      || !f.rulesMode.Given?
      || (f.rulesMode.value != RULE_MODE_REPLACE && f.rulesMode.value != RULE_MODE_APPEND)
      || (f.rules.Null? && f.rulesMode.value == RULE_MODE_APPEND)
  }

  predicate ScalarNull(f: OverlayFlag) {
    || f.enabled.Null? || f.defaultValue.Null? || f.offValue.Null?
    || f.evaluationOrder.Null? || f.rulesMode.Null?
  }

  predicate RolloutNull(r: OverlayRollout) {
    || r.basisPoints.Null? || r.bucketNamespace.Null? || r.bucketBy.Null?
    || r.onValue.Null? || r.offValue.Null?
  }

  predicate OverlayBreaks(flags: seq<OverlayFlag>, i: nat, id: RuleId)
    requires i < |flags|
  {
    var f := flags[i];
    match id
    case O01 => !KeyOk(f.key)
    case O11 => DuplicateOverlay(flags, i)
    case O02 => !f.typ.Absent?
    case O04 => ScalarNull(f) || (f.rollout.Given? && RolloutNull(f.rollout.value))
    case O03 => RulesModeBreaks(f)
    case B05 | B06 | B07 | B17 => f.rules.Given? && RuleListBreaks(f.rules.value, id)
    case O12 => f.evaluationOrder.Given? && ParseEvaluationOrder(f.evaluationOrder.value).None?
    case O05 =>
      && f.rollout.Given? && f.rollout.value.basisPoints.Given?
      && !BasisPointsOk(f.rollout.value.basisPoints.value)
    case _ => false
  }

  const NAMELESS_OVERLAY := Finding(O00, "", LayerOverlay, SeverityRejectEnv)

  ghost predicate IsOverlayFinding(l: OverlayLayer, f: Finding) {
    || (f == NAMELESS_OVERLAY && l.environment == "")
    || (&& f.layer == LayerOverlay && f.severity == SeverityRejectFlag
        && exists i | 0 <= i < |l.flags| :: l.flags[i].key == f.flag && OverlayBreaks(l.flags, i, f.id))
  }

  // ---- L3 --------------------------------------------------------------------------

  predicate DuplicateOps(overrides: seq<OpsOverride>, i: nat)
    requires i < |overrides|
  {
    exists j | 0 <= j < i :: overrides[j].key == overrides[i].key
  }

  predicate OpsBreaks(overrides: seq<OpsOverride>, i: nat, now: int, id: RuleId)
    requires i < |overrides|
  {
    var o := overrides[i];
    match id
    case O01 => !KeyOk(o.key)
    case O14 => DuplicateOps(overrides, i)
    case O07 => o.disallowed != []
    case O08 => !o.expiresAt.Given? || o.reason == "" || o.owner == ""
    case O09 => o.expiresAt.Given? && o.expiresAt.value - now > MAX_OPS_OVERRIDE_TTL
    case O10 =>
      o.expiresAt.Given? && OPS_OVERRIDE_TTL_WARN < o.expiresAt.value - now <= MAX_OPS_OVERRIDE_TTL
    case M11 => o.expiresAt.Given? && o.expiresAt.value - now <= 0
    case O05 => o.basisPoints.Given? && !BasisPointsOk(o.basisPoints.value)
    case O15 => !o.enabled.Given? && !o.basisPoints.Given?
    case _ => false
  }

  function OpsSeverity(id: RuleId): Severity {
    if id == O10 || id == M11 || id == O15 then SeverityWarn else SeverityRejectFlag
  }

  const NAMELESS_OPS := Finding(O00, "", LayerOps, SeverityRejectEnv)

  ghost predicate IsOpsFinding(l: OpsLayer, now: int, f: Finding) {
    || (f == NAMELESS_OPS && l.environment == "")
    || (&& f.layer == LayerOps && f.severity == OpsSeverity(f.id)
        && exists i | 0 <= i < |l.overrides| ::
             l.overrides[i].key == f.flag && OpsBreaks(l.overrides, i, now, f.id))
  }

  /** The severity a pass 1 rule has in a layer. */
  function SeverityOf(layer: LayerId, id: RuleId): Severity {
    match layer
    case LayerBase => BaseSeverity(id)
    case LayerOps => OpsSeverity(id)
    case _ => SeverityRejectFlag
  }

  /** A missing expiry is a rejection, not an expiry. */
  predicate OpsExpired(o: OpsOverride, now: int) {
    o.expiresAt.Given? && o.expiresAt.value <= now
  }

  // ---- Post-merge ------------------------------------------------------------------

  predicate CollidesWithBase(base: BaseFlag, ov: Option<OverlayFlag>) {
    && ov.Some? && ov.value.rules.Given? && Appends(ov.value)
    && exists r, b | r in ov.value.rules.value && b in base.rules :: r.id == b.id
  }

  predicate RepeatsRuleID(rules: seq<Rule>) {
    exists j | 0 <= j < |rules| :: exists i | 0 <= i < j :: rules[i].id == rules[j].id
  }

  /** A resolved flag breaks rule `id`, and the offending field came from `layer`. */
  predicate ResolvedBreaks(f: Flag, base: BaseFlag, ov: Option<OverlayFlag>, ops: Option<OpsOverride>,
                           prov: Provenance, id: RuleId, layer: LayerId)
  {
    if f.typ == TypeUnknown then id == M20 && layer == LayerOf(prov, FieldType)
    else
      match id
      case M01 =>
        || (f.defaultValue.Type() != f.typ && layer == LayerOf(prov, FieldDefaultValue))
        || (f.offValue.Type() != f.typ && layer == LayerOf(prov, FieldOffValue))
      case M03 => CollidesWithBase(base, ov) && layer == LayerOverlay
      case M04 => RepeatsRuleID(f.rules) && layer == LayerOf(prov, FieldRules)
      case M06 =>
        (exists r | r in f.rules :: r.value.Type() != f.typ) && layer == LayerOf(prov, FieldRules)
      case M05 =>
        && f.rollout.Some? && !BasisPointsOk(f.rollout.value.basisPoints)
        && layer == LayerOf(prov, FieldBasisPoints)
      case M17 =>
        && f.rollout.Some?
        && ((f.rollout.value.onValue.IsUnknown() && layer == LayerOf(prov, FieldOnValue))
            || (f.rollout.value.offValue.IsUnknown() && layer == LayerOf(prov, FieldRolloutOffValue)))
      case M18 =>
        && f.rollout.Some?
        && ((!f.rollout.value.onValue.IsUnknown() && f.rollout.value.onValue.Type() != f.typ
             && layer == LayerOf(prov, FieldOnValue))
            || (!f.rollout.value.offValue.IsUnknown() && f.rollout.value.offValue.Type() != f.typ
                && layer == LayerOf(prov, FieldRolloutOffValue)))
      case M19 => f.rollout.None? && SetsBasisPoints(ops) && layer == LayerOps
      case M09 =>
        && f.rules != [] && f.rollout.Some? && f.evaluationOrder == OrderUnspecified
        && layer == LayerOf(prov, FieldEvaluationOrder)
      case _ => false
  }

  ghost predicate IsResolvedFinding(f: Flag, base: BaseFlag, ov: Option<OverlayFlag>,
                                    ops: Option<OpsOverride>, prov: Provenance, fd: Finding)
  {
    && fd.flag == f.key && fd.severity == SeverityRejectFlag
    && ResolvedBreaks(f, base, ov, ops, prov, fd.id, fd.layer)
  }

  /** The resolved flag passes every post-merge rule. */
  ghost predicate ResolvedOk(base: BaseFlag, ov: Option<OverlayFlag>, ops: Option<OpsOverride>) {
    var f, prov := Merged(base, ov, ops), ProvenanceOf(base, ov, ops);
    forall id, layer :: !ResolvedBreaks(f, base, ov, ops, prov, id, layer)
  }

  // ---- Validated layers merge into servable flags ----------------------------------

  /** What pass 1 establishes for one wire rule. */
  ghost predicate WireRuleOk(r: WireRule) {
    && r.id != "" && r.conditions != []
    && forall c | c in r.conditions :: !ConditionBreaks(c, B06) && !ConditionBreaks(c, B07)
  }

  lemma ValidatedRuleIsWellFormed(r: WireRule, typ: ValueType)
    requires WireRuleOk(r) && r.value.Type() == typ
    ensures WellFormedRule(CoreRule(r), typ)
  {
    var cs := CoreConditions(r.conditions);
    forall c | c in cs ensures WellFormedCondition(c) {
      var i :| 0 <= i < |cs| && cs[i] == c;
      var w := r.conditions[i];
      assert w in r.conditions;
      assert c == CoreCondition(w);
      assert forall v | v in w.values :: !v.IsUnknown();
    }
    assert cs != [];
  }

  lemma ValidatedListIsOk(rules: seq<WireRule>)
    requires RuleListOk(rules)
    ensures forall r | r in rules :: WireRuleOk(r)
  {
    assert !RuleListBreaks(rules, B05) && !RuleListBreaks(rules, B06) && !RuleListBreaks(rules, B07);
    forall r | r in rules ensures WireRuleOk(r) {
      var i :| 0 <= i < |rules| && rules[i] == r;
      assert !RuleBreaks(rules, i, B05) && !RuleBreaks(rules, i, B06) && !RuleBreaks(rules, i, B07);
    }
  }

  lemma MergedRulesAreOk(base: seq<BaseFlag>, i: nat, ov: Option<OverlayFlag>)
    requires i < |base| && BaseAccepted(BaseLayer(base))
    requires OverlayRulesOk(ov)
    ensures forall r | r in RulesOf(base[i], ov) :: WireRuleOk(r)
  {
    forall id ensures !RuleListBreaks(base[i].rules, id) {
      assert !BaseBreaks(base, i, id) || id == B13;
    }
    ValidatedListIsOk(base[i].rules);
    if ov.Some? && ov.value.rules.Given? {
      ValidatedListIsOk(ov.value.rules.value);
    }
  }

  /** Pass 1 has nothing against the overlay's rules. */
  ghost predicate OverlayRulesOk(ov: Option<OverlayFlag>) {
    ov.Some? && ov.value.rules.Given? ==> RuleListOk(ov.value.rules.value)
  }

  /**
   * Both passes together are exact: an accepted base flag, under an overlay entry whose
   * rules pass 1 accepts and any ops override, passes pass 2 exactly when it merges into
   * a well-formed flag and no ops throttle is left without a rollout to act on.
   */
  lemma PassTwoIsExact(base: seq<BaseFlag>, i: nat, ov: Option<OverlayFlag>, ops: Option<OpsOverride>)
    requires i < |base| && BaseAccepted(BaseLayer(base)) && OverlayRulesOk(ov)
    ensures var m := Merged(base[i], ov, ops);
            ResolvedOk(base[i], ov, ops) <==>
            WellFormed(m) && (SetsBasisPoints(ops) ==> m.rollout.Some?)
  {
    if ResolvedOk(base[i], ov, ops) {
      MergedRulesAreOk(base, i, ov);
      ResolvedIsWellFormed(base[i], ov, ops);
    }
    if WellFormed(Merged(base[i], ov, ops)) && (SetsBasisPoints(ops) ==> RolloutOf(base[i], ov, ops).Some?) {
      WellFormedBreaksNothing(base[i], ov, ops);
    }
  }

  lemma ResolvedIsWellFormed(base: BaseFlag, ov: Option<OverlayFlag>, ops: Option<OpsOverride>)
    requires forall r | r in RulesOf(base, ov) :: WireRuleOk(r)
    requires ResolvedOk(base, ov, ops)
    ensures WellFormed(Merged(base, ov, ops))
    ensures SetsBasisPoints(ops) ==> RolloutOf(base, ov, ops).Some?
  {
    var f, prov := Merged(base, ov, ops), ProvenanceOf(base, ov, ops);
    assert !ResolvedBreaks(f, base, ov, ops, prov, M20, LayerOf(prov, FieldType));
    assert !ResolvedBreaks(f, base, ov, ops, prov, M19, LayerOps);
    ResolvedScalarsAreTyped(f, base, ov, ops, prov);
    ResolvedRulesAreTyped(f, base, ov, ops, prov);
    ResolvedRolloutIsTyped(f, base, ov, ops, prov);
    MergedRulesAreWellFormed(base, ov, f.typ);
  }

  lemma MergedRulesAreWellFormed(base: BaseFlag, ov: Option<OverlayFlag>, typ: ValueType)
    requires forall r | r in RulesOf(base, ov) :: WireRuleOk(r)
    requires forall r | r in CoreRules(RulesOf(base, ov)) :: r.value.Type() == typ
    ensures forall r | r in CoreRules(RulesOf(base, ov)) :: WellFormedRule(r, typ)
  {
    var wire, rules := RulesOf(base, ov), CoreRules(RulesOf(base, ov));
    forall r | r in rules ensures WellFormedRule(r, typ) {
      var j :| 0 <= j < |rules| && rules[j] == r;
      assert wire[j] in wire && r == CoreRule(wire[j]);
      ValidatedRuleIsWellFormed(wire[j], typ);
    }
  }

  /** A colliding append is also a repeated id in the resolved list. */
  lemma CollisionRepeats(base: BaseFlag, ov: Option<OverlayFlag>)
    requires CollidesWithBase(base, ov)
    ensures !DistinctRuleIDs(CoreRules(RulesOf(base, ov)))
  {
    var own := ov.value.rules.value;
    var r, b :| r in own && b in base.rules && r.id == b.id;
    var i :| 0 <= i < |base.rules| && base.rules[i] == b;
    var j :| 0 <= j < |own| && own[j] == r;
    var rules := CoreRules(RulesOf(base, ov));
    assert rules[i].id == rules[|base.rules| + j].id;
  }

  lemma WellFormedBreaksNothing(base: BaseFlag, ov: Option<OverlayFlag>, ops: Option<OpsOverride>)
    requires WellFormed(Merged(base, ov, ops))
    requires SetsBasisPoints(ops) ==> RolloutOf(base, ov, ops).Some?
    ensures ResolvedOk(base, ov, ops)
  {
    if CollidesWithBase(base, ov) {
      CollisionRepeats(base, ov);
    }
  }

  lemma ResolvedScalarsAreTyped(f: Flag, base: BaseFlag, ov: Option<OverlayFlag>,
                                ops: Option<OpsOverride>, prov: Provenance)
    requires f.typ != TypeUnknown
    requires forall id, layer :: !ResolvedBreaks(f, base, ov, ops, prov, id, layer)
    ensures f.defaultValue.Type() == f.typ && f.offValue.Type() == f.typ
    ensures f.rules != [] && f.rollout.Some? ==> f.evaluationOrder == OrderRulesFirst
  {
    assert !ResolvedBreaks(f, base, ov, ops, prov, M01, LayerOf(prov, FieldDefaultValue));
    assert !ResolvedBreaks(f, base, ov, ops, prov, M01, LayerOf(prov, FieldOffValue));
    assert !ResolvedBreaks(f, base, ov, ops, prov, M09, LayerOf(prov, FieldEvaluationOrder));
  }

  lemma ResolvedRulesAreTyped(f: Flag, base: BaseFlag, ov: Option<OverlayFlag>,
                              ops: Option<OpsOverride>, prov: Provenance)
    requires f.typ != TypeUnknown
    requires forall id, layer :: !ResolvedBreaks(f, base, ov, ops, prov, id, layer)
    ensures forall r | r in f.rules :: r.value.Type() == f.typ
    ensures DistinctRuleIDs(f.rules)
  {
    assert !ResolvedBreaks(f, base, ov, ops, prov, M04, LayerOf(prov, FieldRules));
    assert !ResolvedBreaks(f, base, ov, ops, prov, M06, LayerOf(prov, FieldRules));
  }

  lemma ResolvedRolloutIsTyped(f: Flag, base: BaseFlag, ov: Option<OverlayFlag>,
                               ops: Option<OpsOverride>, prov: Provenance)
    requires f.typ != TypeUnknown
    requires forall id, layer :: !ResolvedBreaks(f, base, ov, ops, prov, id, layer)
    ensures f.rollout.Some? ==> WellFormedRollout(f.rollout.value, f.typ)
  {
    assert !ResolvedBreaks(f, base, ov, ops, prov, M05, LayerOf(prov, FieldBasisPoints));
    assert !ResolvedBreaks(f, base, ov, ops, prov, M17, LayerOf(prov, FieldOnValue));
    assert !ResolvedBreaks(f, base, ov, ops, prov, M17, LayerOf(prov, FieldRolloutOffValue));
    assert !ResolvedBreaks(f, base, ov, ops, prov, M18, LayerOf(prov, FieldOnValue));
    assert !ResolvedBreaks(f, base, ov, ops, prov, M18, LayerOf(prov, FieldRolloutOffValue));
  }

  // ---- What pass 1 accepts ---------------------------------------------------------

  /**
   * Pass 1 accepts a rule list exactly when its ids are there and distinct, its combiners
   * known, and every rule has conditions, each of which converts to a well-formed one.
   */
  lemma RuleListAcceptanceIsExact(rules: seq<WireRule>)
    ensures RuleListOk(rules) <==>
              && (forall i, j | 0 <= i < j < |rules| :: rules[i].id != rules[j].id)
              && (forall r | r in rules :: IsAcceptable(r))
  {
    if RuleListOk(rules) {
      forall i | 0 <= i < |rules| ensures IsAcceptable(rules[i]) && forall j | 0 <= j < i :: rules[j].id != rules[i].id {
        AcceptedRuleIsAcceptable(rules, i);
      }
    }
    if (forall i, j | 0 <= i < j < |rules| :: rules[i].id != rules[j].id) && forall r | r in rules :: IsAcceptable(r) {
      forall id, i | 0 <= i < |rules| ensures !RuleBreaks(rules, i, id) {
        AcceptableRuleBreaksNothing(rules, i, id);
      }
    }
  }

  predicate IsAcceptable(r: WireRule) {
    && r.id != "" && (r.combiner == "" || r.combiner == "and" || r.combiner == "or") && r.conditions != []
    && forall c | c in r.conditions :: WellFormedCondition(CoreCondition(c))
  }

  /** One condition passes exactly when it converts to a well-formed one. */
  lemma ConditionAcceptanceIsExact(c: WireCondition)
    ensures !ConditionBreaks(c, B06) && !ConditionBreaks(c, B07) <==> WellFormedCondition(CoreCondition(c))
  {
    OperatorNames(c.op);
  }

  lemma AcceptedRuleIsAcceptable(rules: seq<WireRule>, i: nat)
    requires i < |rules| && RuleListOk(rules)
    ensures IsAcceptable(rules[i]) && forall j | 0 <= j < i :: rules[j].id != rules[i].id
  {
    assert !RuleListBreaks(rules, B05) && !RuleListBreaks(rules, B06);
    assert !RuleListBreaks(rules, B07) && !RuleListBreaks(rules, B17);
    assert !RuleBreaks(rules, i, B05) && !RuleBreaks(rules, i, B06);
    assert !RuleBreaks(rules, i, B07) && !RuleBreaks(rules, i, B17);
    forall c | c in rules[i].conditions ensures WellFormedCondition(CoreCondition(c)) {
      ConditionAcceptanceIsExact(c);
    }
  }

  lemma AcceptableRuleBreaksNothing(rules: seq<WireRule>, i: nat, id: RuleId)
    requires i < |rules| && IsAcceptable(rules[i]) && forall j | 0 <= j < i :: rules[j].id != rules[i].id
    ensures !RuleBreaks(rules, i, id)
  {
    forall c | c in rules[i].conditions ensures !ConditionBreaks(c, B06) && !ConditionBreaks(c, B07) {
      ConditionAcceptanceIsExact(c);
    }
  }

  /** Exactly which base layers are accepted; an owner may be missing. */
  lemma BaseAcceptanceIsExact(l: BaseLayer)
    ensures BaseAccepted(l) <==>
              && (forall i, j | 0 <= i < j < |l.flags| :: l.flags[i].key != l.flags[j].key)
              && (forall f | f in l.flags :: IsAcceptableBase(f))
  {
    if BaseAccepted(l) {
      forall i | 0 <= i < |l.flags|
        ensures IsAcceptableBase(l.flags[i]) && forall j | 0 <= j < i :: l.flags[j].key != l.flags[i].key
      {
        AcceptedBaseIsAcceptable(l.flags, i);
      }
    }
    if (forall i, j | 0 <= i < j < |l.flags| :: l.flags[i].key != l.flags[j].key)
       && forall f | f in l.flags :: IsAcceptableBase(f) {
      forall i, id | 0 <= i < |l.flags| && BaseBreaks(l.flags, i, id) ensures id == B13 {
        assert l.flags[i] in l.flags;
      }
    }
  }

  /** A complete record: legal key, known type and order, values of the type, sound rules. */
  ghost predicate IsAcceptableBase(f: BaseFlag) {
    && f.missing == [] && KeyOk(f.key) && ParseEvaluationOrder(f.evaluationOrder).Some? && RuleListOk(f.rules)
    && ParseValueType(f.typ) == Some(f.defaultValue.Type())
    && (f.offValue == Unset || f.offValue.Type() == f.defaultValue.Type())
    && (f.rollout.Some? ==> 0 <= f.rollout.value.basisPoints <= 10000)
  }

  lemma AcceptedBaseIsAcceptable(flags: seq<BaseFlag>, i: nat)
    requires i < |flags| && forall id | BaseBreaks(flags, i, id) :: id == B13
    ensures IsAcceptableBase(flags[i]) && forall j | 0 <= j < i :: flags[j].key != flags[i].key
  {
    assert !BaseBreaks(flags, i, B00) && !BaseBreaks(flags, i, B01) && !BaseBreaks(flags, i, B12);
    assert !BaseBreaks(flags, i, B02) && !BaseBreaks(flags, i, B03) && !BaseBreaks(flags, i, B04);
    assert !BaseBreaks(flags, i, B18) && !BaseBreaks(flags, i, B08);
    forall id ensures !RuleListBreaks(flags[i].rules, id) {
      assert !BaseBreaks(flags, i, id) || id == B13;
    }
  }

  /** Exactly which overlay entries pass 1 lets through. */
  lemma OverlayAcceptanceIsExact(flags: seq<OverlayFlag>, i: nat)
    requires i < |flags|
    ensures (forall id :: !OverlayBreaks(flags, i, id)) <==>
              var f := flags[i];
              && KeyOk(f.key) && (forall j | 0 <= j < i :: flags[j].key != f.key) && f.typ.Absent?
              && !f.enabled.Null? && !f.defaultValue.Null? && !f.offValue.Null?
              && (f.evaluationOrder.Absent?
                  || (f.evaluationOrder.Given? && ParseEvaluationOrder(f.evaluationOrder.value).Some?))
              && (match f.rules
                  case Absent => f.rulesMode.Absent?
                  case Null => f.rulesMode == Given("replace")
                  case Given(rules) =>
                    (f.rulesMode == Given("replace") || f.rulesMode == Given("append")) && RuleListOk(rules))
              && (f.rollout.Given? ==>
                    var r := f.rollout.value;
                    && !r.bucketNamespace.Null? && !r.bucketBy.Null? && !r.onValue.Null? && !r.offValue.Null?
                    && (r.basisPoints.Absent? || (r.basisPoints.Given? && 0 <= r.basisPoints.value <= 10000)))
  {
    var f := flags[i];
    if forall id :: !OverlayBreaks(flags, i, id) {
      assert !OverlayBreaks(flags, i, O01) && !OverlayBreaks(flags, i, O11) && !OverlayBreaks(flags, i, O02);
      assert !OverlayBreaks(flags, i, O04) && !OverlayBreaks(flags, i, O03) && !OverlayBreaks(flags, i, O12);
      assert !OverlayBreaks(flags, i, O05);
      if f.rules.Given? {
        forall id ensures !RuleListBreaks(f.rules.value, id) {
          assert !OverlayBreaks(flags, i, id);
        }
      }
    }
  }

  /** Exactly which override entries are refused, and which are only warned about. */
  lemma OpsJudgementIsExact(overrides: seq<OpsOverride>, i: nat, now: int)
    requires i < |overrides|
    ensures (exists id :: OpsBreaks(overrides, i, now, id) && OpsSeverity(id) == SeverityRejectFlag) <==>
              var o := overrides[i];
              || !KeyOk(o.key) || (exists j | 0 <= j < i :: overrides[j].key == o.key) || o.disallowed != []
              || !o.expiresAt.Given? || o.reason == "" || o.owner == ""
              || o.expiresAt.value > now + 30 * 24 * 3_600_000_000_000
              || (o.basisPoints.Given? && !(0 <= o.basisPoints.value <= 10000))
    ensures (exists id :: OpsBreaks(overrides, i, now, id) && OpsSeverity(id) == SeverityWarn) <==>
              var o := overrides[i];
              || (o.expiresAt.Given? && o.expiresAt.value <= now)
              || (o.expiresAt.Given?
                  && now + 72 * 3_600_000_000_000 < o.expiresAt.value <= now + 30 * 24 * 3_600_000_000_000)
              || (!o.enabled.Given? && !o.basisPoints.Given?)
  {
    OpsRejectionsAreExact(overrides, i, now);
    OpsWarningsAreExact(overrides, i, now);
  }

  lemma OpsRejectionsAreExact(overrides: seq<OpsOverride>, i: nat, now: int)
    requires i < |overrides|
    ensures (exists id :: OpsBreaks(overrides, i, now, id) && OpsSeverity(id) == SeverityRejectFlag) <==>
              var o := overrides[i];
              || !KeyOk(o.key) || (exists j | 0 <= j < i :: overrides[j].key == o.key) || o.disallowed != []
              || !o.expiresAt.Given? || o.reason == "" || o.owner == ""
              || o.expiresAt.value > now + 30 * 24 * 3_600_000_000_000
              || (o.basisPoints.Given? && !(0 <= o.basisPoints.value <= 10000))
  {
    var o := overrides[i];
    if !KeyOk(o.key) { assert OpsBreaks(overrides, i, now, O01); }
    if exists j | 0 <= j < i :: overrides[j].key == o.key { assert OpsBreaks(overrides, i, now, O14); }
    if o.disallowed != [] { assert OpsBreaks(overrides, i, now, O07); }
    if !o.expiresAt.Given? || o.reason == "" || o.owner == "" { assert OpsBreaks(overrides, i, now, O08); }
    if o.expiresAt.Given? && o.expiresAt.value > now + 30 * 24 * 3_600_000_000_000 {
      assert OpsBreaks(overrides, i, now, O09);
    }
    if o.basisPoints.Given? && !(0 <= o.basisPoints.value <= 10000) { assert OpsBreaks(overrides, i, now, O05); }
  }

  lemma OpsWarningsAreExact(overrides: seq<OpsOverride>, i: nat, now: int)
    requires i < |overrides|
    ensures (exists id :: OpsBreaks(overrides, i, now, id) && OpsSeverity(id) == SeverityWarn) <==>
              var o := overrides[i];
              || (o.expiresAt.Given? && o.expiresAt.value <= now)
              || (o.expiresAt.Given?
                  && now + 72 * 3_600_000_000_000 < o.expiresAt.value <= now + 30 * 24 * 3_600_000_000_000)
              || (!o.enabled.Given? && !o.basisPoints.Given?)
  {
    var o := overrides[i];
    if o.expiresAt.Given? && o.expiresAt.value <= now { assert OpsBreaks(overrides, i, now, M11); }
    if o.expiresAt.Given?
       && now + 72 * 3_600_000_000_000 < o.expiresAt.value <= now + 30 * 24 * 3_600_000_000_000 {
      assert OpsBreaks(overrides, i, now, O10);
    }
    if !o.enabled.Given? && !o.basisPoints.Given? { assert OpsBreaks(overrides, i, now, O15); }
  }

  /** Legal keys, by example and in length. */
  lemma KeysInFull(s: string)
    ensures KeyOk("checkout.v2_new-ui") && KeyOk("0")
    ensures !KeyOk("") && !KeyOk("-a") && !KeyOk(".a") && !KeyOk("aB") && !KeyOk("a b") && !KeyOk("a/b")
    ensures KeyOk(s) ==> |s| <= 128
    ensures |s| == 128 && (forall c | c in s :: 'a' <= c <= 'z') ==> KeyOk(s)
  {
    assert !KeyChar("aB"[1]) && !KeyChar("a b"[1]) && !KeyChar("a/b"[1]);
    assert forall i | 0 <= i < |s| :: s[i] in s;
  }

  /** An override is out of force from its expiry on; one that never expires is not expired. */
  lemma ExpiryIsExact(o: OpsOverride, now: int)
    ensures OpsExpired(o, now) <==> o.expiresAt.Given? && now >= o.expiresAt.value
  {
  }
}
