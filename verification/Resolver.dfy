// internal/config/merge.go: building resolved flags out of freshly allocated objects.
//
// Slices and pointers are object references, so that which objects two flags share, and
// which a later build writes, can be stated. A list object's contents are set once, where
// it is allocated; a flag and its rollout are written in place while the layers merge.
module Resolver {
  import opened Core
  import opened Layers
  import opened Merge

  // ---- Lists -----------------------------------------------------------------------

  class ValueList {
    const items: seq<Value>

    constructor (items: seq<Value>)
      ensures this.items == items
    {
      this.items := items;
    }
  }

  datatype ConditionRef = ConditionRef(attribute: string, op: Operator, values: ValueList, negate: bool)
  {
    function View(): Condition { Condition(attribute, op, values.items, negate) }
  }

  class ConditionList {
    const items: seq<ConditionRef>

    constructor (items: seq<ConditionRef>)
      ensures this.items == items
    {
      this.items := items;
    }

    ghost function Repr(): set<object> { {this} + set c | c in items :: c.values }

    function View(): (out: seq<Condition>)
      ensures |out| == |items| && forall i | 0 <= i < |items| :: out[i] == items[i].View()
    {
      seq(|items|, i requires 0 <= i < |items| => items[i].View())
    }
  }

  datatype RuleRef = RuleRef(id: string, conditions: ConditionList, combiner: LogicOp, value: Value)
  {
    function View(): Rule { Rule(id, conditions.View(), combiner, value) }
  }

  class RuleList {
    const items: seq<RuleRef>

    constructor (items: seq<RuleRef>)
      ensures this.items == items
    {
      this.items := items;
    }

    /** The list itself, and every condition and value list below it. */
    ghost function Repr(): set<object> {
      {this} + set r, o | r in items && o in r.conditions.Repr() :: o
    }

    function View(): (out: seq<Rule>)
      ensures |out| == |items| && forall i | 0 <= i < |items| :: out[i] == items[i].View()
    {
      seq(|items|, i requires 0 <= i < |items| => items[i].View())
    }
  }

  method WireConditionsToCore(cs: seq<WireCondition>) returns (l: ConditionList)
    ensures fresh(l.Repr()) && l.View() == CoreConditions(cs)
  {
    var items: seq<ConditionRef> := [];
    for j := 0 to |cs|
      invariant |items| == j && forall i | 0 <= i < j :: fresh(items[i].values)
      invariant forall i | 0 <= i < j :: items[i].View() == CoreCondition(cs[i])
    {
      var values := new ValueList(cs[j].values);
      items := items + [ConditionRef(cs[j].attribute, OrElse(ParseOperator(cs[j].op), OpUnknown), values,
                                     cs[j].negate)];
    }
    l := new ConditionList(items);
  }

  method WireRulesToCore(ws: seq<WireRule>) returns (l: RuleList)
    ensures fresh(l.Repr()) && l.View() == CoreRules(ws)
  {
    var items: seq<RuleRef> := [];
    for i := 0 to |ws|
      invariant |items| == i && forall k | 0 <= k < i :: fresh(items[k].conditions.Repr())
      invariant forall k | 0 <= k < i :: items[k].View() == CoreRule(ws[k])
    {
      var conditions := WireConditionsToCore(ws[i].conditions);
      items := items + [RuleRef(ws[i].id, conditions, OrElse(ParseLogicOp(ws[i].combiner), LogicAnd),
                                ws[i].value)];
    }
    l := new RuleList(items);
  }

  method CloneConditions(from: ConditionList) returns (l: ConditionList)
    ensures fresh(l.Repr()) && l.View() == from.View()
  {
    var items: seq<ConditionRef> := [];
    for j := 0 to |from.items|
      invariant |items| == j && forall i | 0 <= i < j :: fresh(items[i].values)
      invariant forall i | 0 <= i < j :: items[i].View() == from.items[i].View()
    {
      var values := new ValueList(from.items[j].values.items);
      items := items + [from.items[j].(values := values)];
    }
    l := new ConditionList(items);
  }

  method CloneRules(from: RuleList) returns (l: RuleList)
    ensures fresh(l.Repr()) && l.View() == from.View()
  {
    var items: seq<RuleRef> := [];
    for i := 0 to |from.items|
      invariant |items| == i && forall k | 0 <= k < i :: fresh(items[k].conditions.Repr())
      invariant forall k | 0 <= k < i :: items[k].View() == from.items[k].View()
    {
      var conditions := CloneConditions(from.items[i].conditions);
      items := items + [from.items[i].(conditions := conditions)];
    }
    l := new RuleList(items);
  }

  // ---- Flags -----------------------------------------------------------------------

  class RolloutObject {
    var basisPoints: int
    var bucketNamespace: string
    var bucketBy: string
    var onValue: Value
    var offValue: Value

    function View(): Rollout
      reads this
    {
      Rollout(basisPoints, bucketNamespace, bucketBy, onValue, offValue)
    }

    constructor (r: Rollout)
      ensures View() == r
    {
      basisPoints, bucketNamespace, bucketBy := r.basisPoints, r.bucketNamespace, r.bucketBy;
      onValue, offValue := r.onValue, r.offValue;
    }
  }

  ghost function RolloutRepr(r: RolloutObject?): set<object> { if r == null then {} else {r} }

  function RolloutView(r: RolloutObject?): Option<Rollout>
    reads r
  {
    if r == null then None else Some(r.View())
  }

  method NewRollout(r: Option<Rollout>) returns (o: RolloutObject?)
    ensures RolloutView(o) == r && fresh(RolloutRepr(o))
  {
    if r.None? {
      return null;
    }
    o := new RolloutObject(r.value);
  }

  class FlagObject {
    var key: string
    var typ: ValueType
    var enabled: bool
    var defaultValue: Value
    var offValue: Value
    var rules: RuleList
    var rollout: RolloutObject?
    var evaluationOrder: EvaluationOrder

    /** The flag itself, its three kinds of lists, and its rollout. */
    ghost function Repr(): set<object>
      reads this
    {
      {this} + rules.Repr() + RolloutRepr(rollout)
    }

    /** The flag this object holds. */
    function View(): Flag
      reads this, rollout
    {
      Flag(key, typ, enabled, defaultValue, offValue, rules.View(), RolloutView(rollout), evaluationOrder)
    }

    constructor (f: Flag, rules: RuleList, rollout: RolloutObject?)
      requires rules.View() == f.rules && RolloutView(rollout) == f.rollout
      ensures View() == f && Repr() == {this} + rules.Repr() + RolloutRepr(rollout)
    {
      key, typ, enabled, defaultValue, offValue := f.key, f.typ, f.enabled, f.defaultValue, f.offValue;
      this.rules, this.rollout, evaluationOrder := rules, rollout, f.evaluationOrder;
    }
  }

  /** Deep copy, made when a flag's last good version is carried into a new snapshot. */
  method CloneFlag(f: FlagObject) returns (c: FlagObject)
    ensures fresh(c.Repr()) && c.View() == f.View()
  {
    var view := f.View();
    var rollout := NewRollout(view.rollout);
    var rules := CloneRules(f.rules);
    c := new FlagObject(view, rules, rollout);
  }

  // ---- Merging in place ------------------------------------------------------------

  const BASE_PROVENANCE: Provenance :=
    map[FieldKey := LayerBase, FieldType := LayerBase, FieldEnabled := LayerBase,
        FieldDefaultValue := LayerBase, FieldOffValue := LayerBase, FieldRules := LayerBase,
        FieldEvaluationOrder := LayerBase]

  /** All six rollout entries, supplied by one layer. */
  function RolloutFrom(layer: LayerId): Provenance {
    map[FieldRollout := layer, FieldBasisPoints := layer, FieldBucketNamespace := layer,
        FieldBucketBy := layer, FieldOnValue := layer, FieldRolloutOffValue := layer]
  }

  lemma BaseProvenance(base: BaseFlag)
    ensures BASE_PROVENANCE + (if base.rollout.Some? then RolloutFrom(LayerBase) else map[])
            == ProvenanceOf(base, None, None)
  {
    var prov := BASE_PROVENANCE + (if base.rollout.Some? then RolloutFrom(LayerBase) else map[]);
    forall f: Field ensures f in prov <==> IsRecorded(base, None, f) {
      match f
      case FieldKey => case FieldType => case FieldEnabled => case FieldDefaultValue =>
      case FieldOffValue => case FieldRules => case FieldEvaluationOrder => case _ =>
    }
  }

  /** The base as a flag, its off value still as given. */
  function BaseAsGiven(base: BaseFlag, rules: seq<Rule>): Flag {
    Flag(base.key, OrElse(ParseValueType(base.typ), TypeUnknown), base.enabled, base.defaultValue,
         base.offValue, rules, base.rollout,
         OrElse(ParseEvaluationOrder(base.evaluationOrder), OrderUnspecified))
  }

  method AllocateFlag(base: BaseFlag) returns (out: FlagObject)
    ensures fresh(out.Repr()) && out.View() == BaseAsGiven(base, CoreRules(base.rules))
  {
    var rollout := NewRollout(base.rollout);
    var rules := WireRulesToCore(base.rules);
    out := new FlagObject(BaseAsGiven(base, rules.View()), rules, rollout);
  }

  /** An omitted off value is the default. */
  method DefaultOffValue(out: FlagObject)
    modifies out`offValue
    ensures out.offValue == if old(out.offValue).IsUnknown() then out.defaultValue else old(out.offValue)
  {
    if out.offValue.IsUnknown() {
      out.offValue := out.defaultValue;
    }
  }

  method BaseRecord(base: BaseFlag) returns (prov: Provenance)
    ensures prov == ProvenanceOf(base, None, None)
  {
    prov := BASE_PROVENANCE;
    if base.rollout.Some? {
      prov := prov + RolloutFrom(LayerBase);
    }
    BaseProvenance(base);
    assert prov == BASE_PROVENANCE + (if base.rollout.Some? then RolloutFrom(LayerBase) else map[]);
  }

  /** L1 alone, freshly allocated throughout. */
  method AllocateBase(base: BaseFlag) returns (out: FlagObject, prov: Provenance)
    ensures fresh(out.Repr()) && out.View() == Merged(base, None, None)
    ensures prov == ProvenanceOf(base, None, None)
  {
    out := AllocateFlag(base);
    DefaultOffValue(out);
    prov := BaseRecord(base);
  }

  function ScalarsProvenance(before: Provenance, ov: OverlayFlag): Provenance {
    var p1 := if ov.enabled.Given? then before[FieldEnabled := LayerOverlay] else before;
    var p2 := if ov.defaultValue.Given? then p1[FieldDefaultValue := LayerOverlay] else p1;
    var p3 := if ov.offValue.Given? then p2[FieldOffValue := LayerOverlay] else p2;
    if OverlaySupplies(ov, FieldEvaluationOrder) then p3[FieldEvaluationOrder := LayerOverlay] else p3
  }

  method OverlayScalars(out: FlagObject, before: Provenance, ov: OverlayFlag) returns (prov: Provenance)
    modifies out`enabled, out`defaultValue, out`offValue, out`evaluationOrder
    ensures out.enabled == ov.enabled.Else(old(out.enabled))
    ensures out.defaultValue == ov.defaultValue.Else(old(out.defaultValue))
    ensures out.offValue == ov.offValue.Else(old(out.offValue))
    ensures out.evaluationOrder ==
            if OverlaySupplies(ov, FieldEvaluationOrder) then ParseEvaluationOrder(ov.evaluationOrder.value).value
            else old(out.evaluationOrder)
    ensures prov == ScalarsProvenance(before, ov)
  {
    prov := before;
    if ov.enabled.Given? {
      out.enabled := ov.enabled.value;
      prov := prov[FieldEnabled := LayerOverlay];
    }
    if ov.defaultValue.Given? {
      out.defaultValue := ov.defaultValue.value;
      prov := prov[FieldDefaultValue := LayerOverlay];
    }
    if ov.offValue.Given? {
      out.offValue := ov.offValue.value;
      prov := prov[FieldOffValue := LayerOverlay];
    }
    if ov.evaluationOrder.Given? {
      var o := ParseEvaluationOrder(ov.evaluationOrder.value);
      if o.Some? {
        out.evaluationOrder := o.value;
        prov := prov[FieldEvaluationOrder := LayerOverlay];
      }
    }
  }

  /** The overlay's rules replace the base list or follow it; null is the empty list. */
  method OverlayRules(rules: RuleList, ov: OverlayFlag) returns (out: RuleList)
    requires !ov.rules.Absent?
    ensures fresh(out.Repr() - rules.Repr())
    ensures out.View() == (if Appends(ov) then rules.View() else []) + CoreRules(ov.rules.Else([]))
  {
    out := WireRulesToCore(ov.rules.Else([]));
    if ov.rulesMode.Else(RULE_MODE_REPLACE) == RULE_MODE_APPEND {
      out := new RuleList(rules.items + out.items);
    }
  }

  function BlockProvenance(before: Provenance, hadRollout: bool, ov: OverlayFlag): Provenance {
    if !ov.rollout.Given? then
      before[FieldRollout := LayerOverlay]
      - {FieldBasisPoints, FieldBucketNamespace, FieldBucketBy, FieldOnValue, FieldRolloutOffValue}
    else
      PatchProvenance(if hadRollout then before else before + RolloutFrom(LayerOverlay), ov.rollout.value)
  }

  function PatchProvenance(p0: Provenance, r: OverlayRollout): Provenance {
    var p1 := if r.basisPoints.Given? then p0[FieldBasisPoints := LayerOverlay] else p0;
    var p2 := if r.bucketNamespace.Given? then p1[FieldBucketNamespace := LayerOverlay] else p1;
    var p3 := if r.bucketBy.Given? then p2[FieldBucketBy := LayerOverlay] else p2;
    var p4 := if r.onValue.Given? then p3[FieldOnValue := LayerOverlay] else p3;
    if r.offValue.Given? then p4[FieldRolloutOffValue := LayerOverlay] else p4
  }

  /** The block patched field by field, in place. */
  method PatchInPlace(r: RolloutObject, before: Provenance, p: OverlayRollout) returns (prov: Provenance)
    modifies r
    ensures r.View() == PatchRollout(old(r.View()), p)
    ensures prov == PatchProvenance(before, p)
  {
    prov := before;
    if p.basisPoints.Given? {
      r.basisPoints := p.basisPoints.value;
      prov := prov[FieldBasisPoints := LayerOverlay];
    }
    if p.bucketNamespace.Given? {
      r.bucketNamespace := p.bucketNamespace.value;
      prov := prov[FieldBucketNamespace := LayerOverlay];
    }
    if p.bucketBy.Given? {
      r.bucketBy := p.bucketBy.value;
      prov := prov[FieldBucketBy := LayerOverlay];
    }
    if p.onValue.Given? {
      r.onValue := p.onValue.value;
      prov := prov[FieldOnValue := LayerOverlay];
    }
    if p.offValue.Given? {
      r.offValue := p.offValue.value;
      prov := prov[FieldRolloutOffValue := LayerOverlay];
    }
  }

  /** Deletes the block, or patches the one there is, or patches a fresh zero one. */
  method OverlayRolloutBlock(r: RolloutObject?, before: Provenance, ov: OverlayFlag)
    returns (out: RolloutObject?, prov: Provenance)
    requires !ov.rollout.Absent?
    modifies RolloutRepr(r)
    ensures out == null || out == r || fresh(out)
    ensures RolloutView(out) ==
            if ov.rollout.Null? then None
            else Some(PatchRollout(OrElse(old(RolloutView(r)), ZERO_ROLLOUT), ov.rollout.value))
    ensures prov == BlockProvenance(before, r != null, ov)
  {
    if ov.rollout.Null? {
      prov := before[FieldRollout := LayerOverlay];
      prov := prov - {FieldBasisPoints, FieldBucketNamespace, FieldBucketBy, FieldOnValue, FieldRolloutOffValue};
      return null, prov;
    }
    out, prov := r, before;
    if out == null {
      out := new RolloutObject(ZERO_ROLLOUT);
      prov := prov + RolloutFrom(LayerOverlay);
    }
    prov := PatchInPlace(out, prov, ov.rollout.value);
  }

  function WithScalars(f: Flag, ov: OverlayFlag): Flag {
    f.(enabled := ov.enabled.Else(f.enabled),
       defaultValue := ov.defaultValue.Else(f.defaultValue),
       offValue := ov.offValue.Else(f.offValue),
       evaluationOrder :=
         if OverlaySupplies(ov, FieldEvaluationOrder) then ParseEvaluationOrder(ov.evaluationOrder.value).value
         else f.evaluationOrder)
  }

  function WithRules(f: Flag, ov: OverlayFlag): Flag {
    if ov.rules.Absent? then f
    else f.(rules := (if Appends(ov) then f.rules else []) + CoreRules(ov.rules.Else([])))
  }

  function WithRollout(f: Flag, ov: OverlayFlag): Flag {
    match ov.rollout
    case Absent => f
    case Null => f.(rollout := None)
    case Given(p) => f.(rollout := Some(PatchRollout(OrElse(f.rollout, ZERO_ROLLOUT), p)))
  }

  function OverlaidProvenance(before: Provenance, hadRollout: bool, ov: OverlayFlag): Provenance {
    var p1 := ScalarsProvenance(before, ov);
    var p2 := if ov.rules.Absent? then p1 else p1[FieldRules := LayerOverlay];
    if ov.rollout.Absent? then p2 else BlockProvenance(p2, hadRollout, ov)
  }

  method ApplyRules(out: FlagObject, before: Provenance, ov: OverlayFlag) returns (prov: Provenance)
    modifies out`rules
    ensures fresh(out.rules.Repr() - old(out.rules.Repr()))
    ensures out.View() == WithRules(old(out.View()), ov)
    ensures prov == if ov.rules.Absent? then before else before[FieldRules := LayerOverlay]
  {
    prov := before;
    if !ov.rules.Absent? {
      var rules := OverlayRules(out.rules, ov);
      out.rules := rules;
      prov := prov[FieldRules := LayerOverlay];
    }
  }

  method ApplyRollout(out: FlagObject, before: Provenance, ov: OverlayFlag) returns (prov: Provenance)
    modifies out`rollout, RolloutRepr(out.rollout)
    ensures fresh(RolloutRepr(out.rollout) - old(RolloutRepr(out.rollout)))
    ensures out.View() == WithRollout(old(out.View()), ov)
    ensures prov == if ov.rollout.Absent? then before else BlockProvenance(before, old(out.rollout) != null, ov)
  {
    prov := before;
    if !ov.rollout.Absent? {
      var r;
      r, prov := OverlayRolloutBlock(out.rollout, prov, ov);
      out.rollout := r;
    }
  }

  method ApplyScalars(out: FlagObject, before: Provenance, ov: OverlayFlag) returns (prov: Provenance)
    modifies out`enabled, out`defaultValue, out`offValue, out`evaluationOrder
    ensures out.View() == WithScalars(old(out.View()), ov)
    ensures prov == ScalarsProvenance(before, ov)
  {
    prov := OverlayScalars(out, before, ov);
  }

  /** Everything the overlay says, applied in place over the base. */
  method ApplyOverlay(out: FlagObject, before: Provenance, ov: OverlayFlag) returns (prov: Provenance)
    modifies out, RolloutRepr(out.rollout)
    ensures fresh(out.rules.Repr() - old(out.rules.Repr()))
    ensures fresh(RolloutRepr(out.rollout) - old(RolloutRepr(out.rollout)))
    ensures out.View() == WithRollout(WithRules(WithScalars(old(out.View()), ov), ov), ov)
    ensures prov == OverlaidProvenance(before, old(out.rollout) != null, ov)
  {
    prov := ApplyScalars(out, before, ov);
    prov := ApplyRules(out, prov, ov);
    prov := ApplyRollout(out, prov, ov);
  }

  lemma OverlaidRules(base: BaseFlag, ov: OverlayFlag)
    requires !ov.rules.Absent?
    ensures (if Appends(ov) then CoreRules(base.rules) else []) + CoreRules(ov.rules.Else([]))
            == CoreRules(RulesOf(base, Some(ov)))
  {
  }

  lemma OverlaidIsMerged(base: BaseFlag, ov: OverlayFlag)
    ensures WithRollout(WithRules(WithScalars(Merged(base, None, None), ov), ov), ov)
            == Merged(base, Some(ov), None)
  {
    if !ov.rules.Absent? {
      OverlaidRules(base, ov);
    }
  }

  lemma OverlaidProvenanceIsMerged(base: BaseFlag, ov: OverlayFlag)
    ensures OverlaidProvenance(ProvenanceOf(base, None, None), base.rollout.Some?, ov)
            == ProvenanceOf(base, Some(ov), None)
  {
    var prov := OverlaidProvenance(ProvenanceOf(base, None, None), base.rollout.Some?, ov);
    forall f: Field
      ensures f in prov <==> IsRecorded(base, Some(ov), f)
      ensures f in prov ==> prov[f] == SupplierOf(base, Some(ov), None, f)
    {
      var scalars := ScalarsProvenance(ProvenanceOf(base, None, None), ov);
      ScalarsEntry(ProvenanceOf(base, None, None), ov, f);
      var lists := if ov.rules.Absent? then scalars else scalars[FieldRules := LayerOverlay];
      match ov.rollout
      case Absent =>
      case Null => DeletedEntry(lists, base.rollout.Some?, ov, f);
      case Given(_) => PatchedEntry(lists, base.rollout.Some?, ov, f);
    }
  }

  lemma ScalarsEntry(before: Provenance, ov: OverlayFlag, f: Field)
    ensures LayerOf(ScalarsProvenance(before, ov), f)
            == if !IsRolloutField(f) && f != FieldRules && OverlaySupplies(ov, f) then LayerOverlay
               else LayerOf(before, f)
    ensures f in before ==> f in ScalarsProvenance(before, ov)
    ensures IsRolloutField(f) && f !in before ==> f !in ScalarsProvenance(before, ov)
  {
  }

  lemma DeletedEntry(before: Provenance, hadRollout: bool, ov: OverlayFlag, f: Field)
    requires ov.rollout.Null?
    ensures var prov := BlockProvenance(before, hadRollout, ov);
      && (f in prov <==> if IsRolloutField(f) then f == FieldRollout else f in before)
      && LayerOf(prov, f)
         == if f == FieldRollout then LayerOverlay
            else if IsRolloutField(f) then LayerNone
            else LayerOf(before, f)
  {
  }

  lemma PatchedEntry(before: Provenance, hadRollout: bool, ov: OverlayFlag, f: Field)
    requires ov.rollout.Given?
    ensures LayerOf(BlockProvenance(before, hadRollout, ov), f)
            == if IsRolloutField(f) && (OverlaySupplies(ov, f) || !hadRollout) then LayerOverlay
               else LayerOf(before, f)
    ensures !IsRolloutField(f) ==> (f in BlockProvenance(before, hadRollout, ov) <==> f in before)
  {
    var from := if hadRollout then before else before + RolloutFrom(LayerOverlay);
    StartedEntry(before, f);
    PatchEntry(from, ov, f);
  }

  lemma StartedEntry(before: Provenance, f: Field)
    ensures LayerOf(before + RolloutFrom(LayerOverlay), f)
            == if IsRolloutField(f) then LayerOverlay else LayerOf(before, f)
    ensures !IsRolloutField(f) ==> (f in before + RolloutFrom(LayerOverlay) <==> f in before)
  {
    match f
    case FieldBasisPoints => case FieldBucketNamespace => case FieldBucketBy => case FieldOnValue =>
    case FieldRolloutOffValue => case FieldRollout => case _ =>
  }

  lemma PatchEntry(p: Provenance, ov: OverlayFlag, f: Field)
    requires ov.rollout.Given?
    ensures LayerOf(PatchProvenance(p, ov.rollout.value), f)
            == if IsRolloutField(f) && OverlaySupplies(ov, f) then LayerOverlay else LayerOf(p, f)
    ensures !IsRolloutField(f) ==> (f in PatchProvenance(p, ov.rollout.value) <==> f in p)
  {
  }

  /** The emergency override, last and highest: the switch, and the throttle if there is a rollout. */
  method ApplyOps(out: FlagObject, before: Provenance, ops: OpsOverride) returns (prov: Provenance)
    modifies out`enabled, RolloutRepr(out.rollout)
    ensures out.View() == WithOps(old(out.View()), ops)
    ensures prov == OpsProvenance(before, out.rollout != null, ops)
  {
    prov := before;
    if ops.enabled.Given? {
      out.enabled := ops.enabled.value;
      prov := prov[FieldEnabled := LayerOps];
    }
    if ops.basisPoints.Given? && out.rollout != null {
      out.rollout.basisPoints := ops.basisPoints.value;
      prov := prov[FieldBasisPoints := LayerOps];
    }
  }

  function WithOps(f: Flag, ops: OpsOverride): Flag {
    f.(enabled := ops.enabled.Else(f.enabled),
       rollout := if f.rollout.Some? && ops.basisPoints.Given? then
                    Some(f.rollout.value.(basisPoints := ops.basisPoints.value))
                  else f.rollout)
  }

  function OpsProvenance(before: Provenance, hasRollout: bool, ops: OpsOverride): Provenance {
    var p := if ops.enabled.Given? then before[FieldEnabled := LayerOps] else before;
    if ops.basisPoints.Given? && hasRollout then p[FieldBasisPoints := LayerOps] else p
  }

  lemma OpsIsMerged(base: BaseFlag, ov: Option<OverlayFlag>, ops: OpsOverride)
    ensures WithOps(Merged(base, ov, None), ops) == Merged(base, ov, Some(ops))
    ensures OpsProvenance(ProvenanceOf(base, ov, None), OverlaidRollout(base, ov).Some?, ops)
            == ProvenanceOf(base, ov, Some(ops))
  {
  }

  method OverlayOnto(out: FlagObject, before: Provenance, base: BaseFlag, ov: OverlayFlag)
    returns (prov: Provenance)
    requires out.View() == Merged(base, None, None) && before == ProvenanceOf(base, None, None)
    modifies out, RolloutRepr(out.rollout)
    ensures fresh(out.rules.Repr() - old(out.rules.Repr()))
    ensures fresh(RolloutRepr(out.rollout) - old(RolloutRepr(out.rollout)))
    ensures out.View() == Merged(base, Some(ov), None) && prov == ProvenanceOf(base, Some(ov), None)
  {
    OverlaidIsMerged(base, ov);
    OverlaidProvenanceIsMerged(base, ov);
    prov := ApplyOverlay(out, before, ov);
  }

  /** Base and overlay. */
  method MergeOverlay(base: BaseFlag, ov: Option<OverlayFlag>) returns (out: FlagObject, prov: Provenance)
    ensures fresh(out.Repr())
    ensures out.View() == Merged(base, ov, None) && prov == ProvenanceOf(base, ov, None)
  {
    out, prov := AllocateBase(base);
    if ov.Some? {
      prov := OverlayOnto(out, prov, base, ov.value);
    }
  }

  /**
   * One flag, merged layer by layer: the fields and the record are those of the
   * field-by-field policy, and nothing in the result existed before the call.
   */
  method MergeFlag(base: BaseFlag, ov: Option<OverlayFlag>, ops: Option<OpsOverride>)
    returns (out: FlagObject, prov: Provenance)
    ensures fresh(out.Repr())
    ensures out.View() == Merged(base, ov, ops) && prov == ProvenanceOf(base, ov, ops)
  {
    out, prov := MergeOverlay(base, ov);
    if ops.Some? {
      OpsIsMerged(base, ov, ops.value);
      prov := ApplyOps(out, prov, ops.value);
    }
  }
}
