// internal/config/merge.go: what merging the three layers of one flag must produce.
// Resolver.dfy holds the code that builds it in place.
module Merge {
  import opened Core
  import opened Layers
  import opened Evaluator
  import opened Bucket

  // ---- The merged flag, field by field ---------------------------------------------

  /** The highest layer that gives a value wins. */
  function Pick<T>(base: T, overlay: Opt<T>, ops: Opt<T>): T {
    ops.Else(overlay.Else(base))
  }

  function EnabledOf(base: BaseFlag, ov: Option<OverlayFlag>, ops: Option<OpsOverride>): bool {
    Pick(base.enabled, if ov.Some? then ov.value.enabled else Absent,
         if ops.Some? then ops.value.enabled else Absent)
  }

  function DefaultOf(base: BaseFlag, ov: Option<OverlayFlag>): Value {
    if ov.Some? then ov.value.defaultValue.Else(base.defaultValue) else base.defaultValue
  }

  /** An off value the base omits is the base default. */
  function OffOf(base: BaseFlag, ov: Option<OverlayFlag>): Value {
    var own := if base.offValue.IsUnknown() then base.defaultValue else base.offValue;
    if ov.Some? then ov.value.offValue.Else(own) else own
  }

  function OrderOf(base: BaseFlag, ov: Option<OverlayFlag>): EvaluationOrder {
    var own := OrElse(ParseEvaluationOrder(base.evaluationOrder), OrderUnspecified);
    if ov.Some? && ov.value.evaluationOrder.Given? then
      OrElse(ParseEvaluationOrder(ov.value.evaluationOrder.value), own)
    else own
  }

  predicate Appends(ov: OverlayFlag) { ov.rulesMode.Else(RULE_MODE_REPLACE) == RULE_MODE_APPEND }

  /** Whole-list replace or append; an explicit null is the empty list. */
  function RulesOf(base: BaseFlag, ov: Option<OverlayFlag>): seq<WireRule> {
    if ov.None? || ov.value.rules.Absent? then base.rules
    else if Appends(ov.value) then base.rules + ov.value.rules.Else([])
    else ov.value.rules.Else([])
  }

  const ZERO_ROLLOUT := Rollout(0, "", "", Unset, Unset)

  function PatchRollout(r: Rollout, p: OverlayRollout): Rollout {
    Rollout(p.basisPoints.Else(r.basisPoints), p.bucketNamespace.Else(r.bucketNamespace),
            p.bucketBy.Else(r.bucketBy), p.onValue.Else(r.onValue), p.offValue.Else(r.offValue))
  }

  /** The overlay deletes the block, patches it field by field, or leaves it. */
  function OverlaidRollout(base: BaseFlag, ov: Option<OverlayFlag>): Option<Rollout> {
    if ov.None? then base.rollout
    else
      match ov.value.rollout
      case Absent => base.rollout
      case Null => None
      case Given(p) => Some(PatchRollout(OrElse(base.rollout, ZERO_ROLLOUT), p))
  }

  function RolloutOf(base: BaseFlag, ov: Option<OverlayFlag>, ops: Option<OpsOverride>): Option<Rollout> {
    match OverlaidRollout(base, ov)
    case None => None
    case Some(r) =>
      if ops.Some? && ops.value.basisPoints.Given? then
        Some(r.(basisPoints := ops.value.basisPoints.value))
      else Some(r)
  }

  function Merged(base: BaseFlag, ov: Option<OverlayFlag>, ops: Option<OpsOverride>): Flag {
    Flag(base.key, OrElse(ParseValueType(base.typ), TypeUnknown), EnabledOf(base, ov, ops),
         DefaultOf(base, ov), OffOf(base, ov), CoreRules(RulesOf(base, ov)),
         RolloutOf(base, ov, ops), OrderOf(base, ov))
  }

  // ---- Provenance ------------------------------------------------------------------

  datatype Field =
    | FieldKey | FieldType | FieldEnabled | FieldDefaultValue | FieldOffValue | FieldRules
    | FieldEvaluationOrder | FieldRollout
    | FieldBasisPoints | FieldBucketNamespace | FieldBucketBy | FieldOnValue | FieldRolloutOffValue

  type Provenance = map<Field, LayerId>

  function LayerOf(p: Provenance, f: Field): LayerId { if f in p then p[f] else LayerNone }

  /** The fields of the rollout block, the block itself included. */
  predicate IsRolloutField(f: Field) {
    match f
    case FieldRollout | FieldBasisPoints | FieldBucketNamespace | FieldBucketBy | FieldOnValue
       | FieldRolloutOffValue => true
    case _ => false
  }

  /** Whether an overlay says something about a field. */
  predicate OverlaySupplies(ov: OverlayFlag, f: Field) {
    match f
    case FieldEnabled => ov.enabled.Given?
    case FieldDefaultValue => ov.defaultValue.Given?
    case FieldOffValue => ov.offValue.Given?
    case FieldRules => !ov.rules.Absent?
    case FieldEvaluationOrder =>
      ov.evaluationOrder.Given? && ParseEvaluationOrder(ov.evaluationOrder.value).Some?
    case FieldRollout => ov.rollout.Null?
    case FieldBasisPoints => ov.rollout.Given? && ov.rollout.value.basisPoints.Given?
    case FieldBucketNamespace => ov.rollout.Given? && ov.rollout.value.bucketNamespace.Given?
    case FieldBucketBy => ov.rollout.Given? && ov.rollout.value.bucketBy.Given?
    case FieldOnValue => ov.rollout.Given? && ov.rollout.value.onValue.Given?
    case FieldRolloutOffValue => ov.rollout.Given? && ov.rollout.value.offValue.Given?
    case _ => false
  }

  predicate OpsSupplies(ops: OpsOverride, f: Field) {
    (f == FieldEnabled && ops.enabled.Given?) || (f == FieldBasisPoints && ops.basisPoints.Given?)
  }

  /** The highest layer that supplies a field. A block an overlay starts is all the overlay's. */
  function SupplierOf(base: BaseFlag, ov: Option<OverlayFlag>, ops: Option<OpsOverride>, f: Field): LayerId {
    if ops.Some? && OpsSupplies(ops.value, f) then LayerOps
    else if ov.Some? && (OverlaySupplies(ov.value, f) || (base.rollout.None? && IsRolloutField(f))) then LayerOverlay
    else LayerBase
  }

  /** A record speaks of a rollout field while there is a rollout, and of a deleted block. */
  predicate IsRecorded(base: BaseFlag, ov: Option<OverlayFlag>, f: Field) {
    || !IsRolloutField(f)
    || OverlaidRollout(base, ov).Some?
    || (f == FieldRollout && ov.Some? && ov.value.rollout.Null?)
  }

  function ProvenanceOf(base: BaseFlag, ov: Option<OverlayFlag>, ops: Option<OpsOverride>): Provenance {
    map f: Field | IsRecorded(base, ov, f) :: SupplierOf(base, ov, ops, f)
  }

  /** The content of one field, whatever its type. */
  datatype Cell =
    | Text(s: string) | Typ(t: ValueType) | Bool(b: bool) | Val(v: Value) | RuleList(rs: seq<Rule>)
    | Order(o: EvaluationOrder) | Number(n: int) | NoCell

  function RolloutCell(r: Rollout, f: Field): Cell {
    match f
    case FieldBasisPoints => Number(r.basisPoints)
    case FieldBucketNamespace => Text(r.bucketNamespace)
    case FieldBucketBy => Text(r.bucketBy)
    case FieldOnValue => Val(r.onValue)
    case FieldRolloutOffValue => Val(r.offValue)
    case _ => NoCell
  }

  function FlagCell(m: Flag, f: Field): Cell {
    match f
    case FieldKey => Text(m.key)
    case FieldType => Typ(m.typ)
    case FieldEnabled => Bool(m.enabled)
    case FieldDefaultValue => Val(m.defaultValue)
    case FieldOffValue => Val(m.offValue)
    case FieldRules => RuleList(m.rules)
    case FieldEvaluationOrder => Order(m.evaluationOrder)
    case _ => if m.rollout.Some? then RolloutCell(m.rollout.value, f) else NoCell
  }

  /** What the base says of a field; an omitted off value is its default. */
  function BaseCell(base: BaseFlag, f: Field): Cell {
    match f
    case FieldKey => Text(base.key)
    case FieldType => Typ(OrElse(ParseValueType(base.typ), TypeUnknown))
    case FieldEnabled => Bool(base.enabled)
    case FieldDefaultValue => Val(base.defaultValue)
    case FieldOffValue => Val(if base.offValue == Unset then base.defaultValue else base.offValue)
    case FieldRules => RuleList(CoreRules(base.rules))
    case FieldEvaluationOrder =>
      Order(OrElse(ParseEvaluationOrder(base.evaluationOrder), OrderUnspecified))
    case _ => if base.rollout.Some? then RolloutCell(base.rollout.value, f) else NoCell
  }

  /** What one layer alone says of a field. */
  function LayerCell(layer: LayerId, base: BaseFlag, ov: Option<OverlayFlag>, ops: Option<OpsOverride>,
                     f: Field): Cell
  {
    match layer
    case LayerBase => BaseCell(base, f)
    case LayerOverlay =>
      if ov.None? then NoCell
      else
        (match f
         case FieldEnabled => Bool(ov.value.enabled.Else(false))
         case FieldDefaultValue => Val(ov.value.defaultValue.Else(Unset))
         case FieldOffValue => Val(ov.value.offValue.Else(Unset))
         case FieldRules =>
           var own := CoreRules(ov.value.rules.Else([]));
           RuleList(if Appends(ov.value) then CoreRules(base.rules) + own else own)
         case FieldEvaluationOrder =>
           Order(OrElse(ParseEvaluationOrder(ov.value.evaluationOrder.Else("")), OrderUnspecified))
         case _ =>
           if ov.value.rollout.Given? then RolloutCell(PatchRollout(ZERO_ROLLOUT, ov.value.rollout.value), f)
           else NoCell)
    case LayerOps =>
      if ops.None? then NoCell
      else if f == FieldEnabled then Bool(ops.value.enabled.Else(false))
      else if f == FieldBasisPoints then Number(ops.value.basisPoints.Else(0))
      else NoCell
    case LayerNone => NoCell
  }

  lemma RulesProvenance(base: BaseFlag, ov: Option<OverlayFlag>, ops: Option<OpsOverride>)
    ensures RuleList(CoreRules(RulesOf(base, ov)))
            == LayerCell(SupplierOf(base, ov, ops, FieldRules), base, ov, ops, FieldRules)
  {
    if ov.Some? && Appends(ov.value) {
      var own := ov.value.rules.Else([]);
      assert CoreRules(base.rules + own) == CoreRules(base.rules) + CoreRules(own);
    }
  }

  lemma ScalarProvenance(base: BaseFlag, ov: Option<OverlayFlag>, ops: Option<OpsOverride>, f: Field)
    requires !IsRolloutField(f) && f != FieldRules
    ensures FlagCell(Merged(base, ov, ops), f)
            == LayerCell(SupplierOf(base, ov, ops, f), base, ov, ops, f)
  {
  }

  lemma RolloutProvenance(base: BaseFlag, ov: Option<OverlayFlag>, ops: Option<OpsOverride>, f: Field)
    requires IsRolloutField(f) && RolloutOf(base, ov, ops).Some?
    ensures RolloutCell(RolloutOf(base, ov, ops).value, f)
            == LayerCell(SupplierOf(base, ov, ops, f), base, ov, ops, f)
  {
  }

  /** Every field of the merged flag carries the value of the layer recorded for it. */
  lemma ProvenanceIsTruthful(base: BaseFlag, ov: Option<OverlayFlag>, ops: Option<OpsOverride>, f: Field)
    ensures var m, layer := Merged(base, ov, ops), LayerOf(ProvenanceOf(base, ov, ops), f);
            if m.rollout.Some? || !IsRolloutField(f) then
              layer != LayerNone && FlagCell(m, f) == LayerCell(layer, base, ov, ops, f)
            else if f == FieldRollout && ov.Some? && ov.value.rollout.Null? then layer == LayerOverlay
            else layer == LayerNone
  {
    if f == FieldRules {
      RulesProvenance(base, ov, ops);
    } else if IsRolloutField(f) && RolloutOf(base, ov, ops).Some? {
      RolloutProvenance(base, ov, ops, f);
    } else if !IsRolloutField(f) {
      ScalarProvenance(base, ov, ops, f);
    }
  }

  // ---- The policy, layer by layer --------------------------------------------------

  /** Without sparse layers a flag is what its base says, the omitted off value filled in. */
  lemma BaseAloneIsTheBase(base: BaseFlag)
    ensures var m := Merged(base, None, None);
            && m.key == base.key && m.enabled == base.enabled && m.defaultValue == base.defaultValue
            && (base.offValue != Unset ==> m.offValue == base.offValue)
            && (base.offValue == Unset ==> m.offValue == base.defaultValue)
            && |m.rules| == |base.rules| && m.rollout == base.rollout
            && (forall i | 0 <= i < |m.rules| ::
                  && m.rules[i].id == base.rules[i].id && m.rules[i].value == base.rules[i].value
                  && |m.rules[i].conditions| == |base.rules[i].conditions|)
  {
  }

  /**
   * An overlay entry moves exactly the fields it gives: a given field has the overlay's
   * value, an absent or null one the base's. Key and type are the base's always.
   */
  lemma OverlayMovesWhatItGives(base: BaseFlag, ov: OverlayFlag)
    ensures var own, m := Merged(base, None, None), Merged(base, Some(ov), None);
            && m.key == base.key && m.typ == own.typ
            && (match ov.enabled case Given(b) => m.enabled == b case _ => m.enabled == own.enabled)
            && (match ov.defaultValue
                case Given(v) => m.defaultValue == v case _ => m.defaultValue == own.defaultValue)
            && (match ov.offValue case Given(v) => m.offValue == v case _ => m.offValue == own.offValue)
            && (ov.rules.Absent? ==> m.rules == own.rules)
            && (ov.rules.Null? && ov.rulesMode != Given("append") ==> m.rules == [])
            && (ov.rules.Given? && ov.rulesMode == Given("append") ==>
                  m.rules == own.rules + CoreRules(ov.rules.value))
            && (ov.rules.Given? && ov.rulesMode != Given("append") ==> m.rules == CoreRules(ov.rules.value))
            && (!ov.evaluationOrder.Given? ==> m.evaluationOrder == own.evaluationOrder)
            && (ov.evaluationOrder == Given("rules_first") ==> m.evaluationOrder == OrderRulesFirst)
  {
    if ov.rules.Given? {
      assert CoreRules(base.rules + ov.rules.value) == CoreRules(base.rules) + CoreRules(ov.rules.value);
    }
  }

  /** An overlay leaves the rollout, deletes it, or patches it, from zero when there is none. */
  lemma OverlayPatchesTheRollout(base: BaseFlag, ov: OverlayFlag)
    ensures var m := Merged(base, Some(ov), None);
            match ov.rollout
            case Absent => m.rollout == base.rollout
            case Null => m.rollout == None
            case Given(p) =>
              && m.rollout.Some?
              && var r := m.rollout.value;
                 var was := if base.rollout.Some? then base.rollout.value else Rollout(0, "", "", Unset, Unset);
                 && (match p.basisPoints case Given(x) => r.basisPoints == x case _ => r.basisPoints == was.basisPoints)
                 && (match p.bucketNamespace
                     case Given(x) => r.bucketNamespace == x case _ => r.bucketNamespace == was.bucketNamespace)
                 && (match p.bucketBy case Given(x) => r.bucketBy == x case _ => r.bucketBy == was.bucketBy)
                 && (match p.onValue case Given(x) => r.onValue == x case _ => r.onValue == was.onValue)
                 && (match p.offValue case Given(x) => r.offValue == x case _ => r.offValue == was.offValue)
  {
  }

  /** An override has the last word on the switch and on the throttle of a rollout, and on nothing else. */
  lemma OpsHaveTheLastWord(base: BaseFlag, ov: Option<OverlayFlag>, ops: OpsOverride)
    ensures var below, m := Merged(base, ov, None), Merged(base, ov, Some(ops));
            && (match ops.enabled case Given(b) => m.enabled == b case _ => m.enabled == below.enabled)
            && (m.rollout.Some? <==> below.rollout.Some?)
            && (m.rollout.Some? ==>
                  && (match ops.basisPoints
                      case Given(bp) => m.rollout.value.basisPoints == bp
                      case _ => m.rollout == below.rollout)
                  && m.rollout.value.bucketNamespace == below.rollout.value.bucketNamespace
                  && m.rollout.value.bucketBy == below.rollout.value.bucketBy
                  && m.rollout.value.onValue == below.rollout.value.onValue
                  && m.rollout.value.offValue == below.rollout.value.offValue)
            && m == below.(enabled := m.enabled, rollout := m.rollout)
  {
  }

  // ---- Ramps are sticky ------------------------------------------------------------

  /** The same overlay with its basis points set. */
  function WithBasisPoints(ov: OverlayFlag, bp: int): OverlayFlag
    requires ov.rollout.Given?
  {
    ov.(rollout := Given(ov.rollout.value.(basisPoints := Given(bp))))
  }

  predicate SetsBasisPoints(ops: Option<OpsOverride>) { ops.Some? && ops.value.basisPoints.Given? }

  lemma OnlyBasisPointsChange(base: BaseFlag, ov: OverlayFlag, ops: Option<OpsOverride>, bp: int)
    requires ov.rollout.Given? && !SetsBasisPoints(ops)
    ensures var a, b := Merged(base, Some(ov), ops), Merged(base, Some(WithBasisPoints(ov, bp)), ops);
            a.rollout.Some? && b == a.(rollout := Some(a.rollout.value.(basisPoints := bp)))
  {
  }

  /** Under an override that sets them, the overlay's basis points do not show. */
  lemma OverridesHideBasisPoints(base: BaseFlag, ov: OverlayFlag, ops: Option<OpsOverride>, low: int, high: int)
    requires ov.rollout.Given? && SetsBasisPoints(ops)
    ensures Merged(base, Some(WithBasisPoints(ov, low)), ops) == Merged(base, Some(WithBasisPoints(ov, high)), ops)
  {
  }

  /** Growing one flag's rollout keeps the key and adds subjects only. */
  lemma GrowingKeepsEnrolment(hash: string -> Word64, a: Flag, high: int, ctx: EvalContext, def: Value, g: int)
    requires a.rollout.Some? && a.rollout.value.basisPoints <= high
    ensures var b := a.(rollout := Some(a.rollout.value.(basisPoints := high)));
            var ra, rb := EvaluateFlag(DefaultEngine(hash), a, ctx, def, g),
                          EvaluateFlag(DefaultEngine(hash), b, ctx, def, g);
            && NamespaceKey(a, ctx) == NamespaceKey(b, ctx)
            && FirstMatch(a.rules, ctx) == FirstMatch(b.rules, ctx)
            && (ra.reason == ReasonRolloutIn ==> rb == ra)
            && (ra.bucket == NO_BUCKET ==> rb == ra)
            && ra.bucket == rb.bucket
  {
  }

  /**
   * Raising only the basis points of a flag, in the overlay, keeps every subject's bucket
   * key and bucket, every answer a rule gives, and everyone enrolled, with the same value.
   */
  lemma RampsAreSticky(hash: string -> Word64, base: BaseFlag, ov: OverlayFlag,
                       ops: Option<OpsOverride>, low: int, high: int,
                       ctx: EvalContext, def: Value, g: int)
    requires ov.rollout.Given? && low <= high
    ensures var a := Merged(base, Some(WithBasisPoints(ov, low)), ops);
            var b := Merged(base, Some(WithBasisPoints(ov, high)), ops);
            var ra, rb := EvaluateFlag(DefaultEngine(hash), a, ctx, def, g),
                          EvaluateFlag(DefaultEngine(hash), b, ctx, def, g);
            && NamespaceKey(a, ctx) == NamespaceKey(b, ctx)
            && FirstMatch(a.rules, ctx) == FirstMatch(b.rules, ctx)
            && (ra.reason == ReasonRolloutIn ==> rb == ra)
            && (ra.bucket == NO_BUCKET ==> rb == ra)
            && ra.bucket == rb.bucket
  {
    if SetsBasisPoints(ops) {
      OverridesHideBasisPoints(base, ov, ops, low, high);
    } else {
      OnlyBasisPointsChange(base, WithBasisPoints(ov, low), ops, high);
      GrowingKeepsEnrolment(hash, Merged(base, Some(WithBasisPoints(ov, low)), ops), high, ctx, def, g);
    }
  }
}
