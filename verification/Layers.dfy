// internal/config/layer.go and opt.go: the three configuration layers as they arrive.
module Layers {
  import opened Core

  /** The tri-state of a sparse field: inherit, explicitly none, or a value. */
  datatype Opt<+T> = Absent | Null | Given(value: T)
  {
    function Else(def: T): T { if Given? then value else def }
  }

  datatype LayerId = LayerNone | LayerBase | LayerOverlay | LayerOps

  datatype WireCondition = WireCondition(attribute: string, op: string, values: seq<Value>, negate: bool)

  datatype WireRule = WireRule(id: string, conditions: seq<WireCondition>, combiner: string, value: Value)

  /** L1: a total record. `missing` lists required keys the document did not carry. */
  datatype BaseFlag = BaseFlag(
    key: string, typ: string, owner: string, enabled: bool, defaultValue: Value, offValue: Value,
    rules: seq<WireRule>, rollout: Option<Rollout>, evaluationOrder: string, missing: seq<string>)

  datatype BaseLayer = BaseLayer(flags: seq<BaseFlag>)

  datatype OverlayRollout = OverlayRollout(
    basisPoints: Opt<int>, bucketNamespace: Opt<string>, bucketBy: Opt<string>,
    onValue: Opt<Value>, offValue: Opt<Value>)

  /** L2: one environment's sparse patch of one flag. */
  datatype OverlayFlag = OverlayFlag(
    key: string, typ: Opt<string>, enabled: Opt<bool>, defaultValue: Opt<Value>, offValue: Opt<Value>,
    rules: Opt<seq<WireRule>>, rulesMode: Opt<string>, rollout: Opt<OverlayRollout>,
    evaluationOrder: Opt<string>)

  datatype OverlayLayer = OverlayLayer(environment: string, flags: seq<OverlayFlag>)

  const RULE_MODE_REPLACE := "replace"
  const RULE_MODE_APPEND := "append"

  /** L3: a time-bounded emergency override. Times are nanoseconds. */
  datatype OpsOverride = OpsOverride(
    key: string, enabled: Opt<bool>, basisPoints: Opt<int>, expiresAt: Opt<int>,
    reason: string, owner: string, disallowed: seq<string>)

  datatype OpsLayer = OpsLayer(environment: string, overrides: seq<OpsOverride>)

  const HOUR := 3_600_000_000_000
  const MAX_OPS_OVERRIDE_TTL := 30 * 24 * HOUR
  const OPS_OVERRIDE_TTL_WARN := 72 * HOUR

  function ParseLogicOp(s: string): Option<LogicOp> {
    if s == "" || s == "and" then Some(LogicAnd)
    else if s == "or" then Some(LogicOr)
    else None
  }

  function ParseEvaluationOrder(s: string): Option<EvaluationOrder> {
    if s == "" then Some(OrderUnspecified)
    else if s == "rules_first" || s == "rules_then_rollout" then Some(OrderRulesFirst)
    else None
  }

  // ---- From the wire to the core ---------------------------------------------------

  function OrElse<T>(o: Option<T>, def: T): T { if o.Some? then o.value else def }

  function CoreCondition(c: WireCondition): Condition {
    Condition(c.attribute, OrElse(ParseOperator(c.op), OpUnknown), c.values, c.negate)
  }

  function CoreConditions(cs: seq<WireCondition>): (out: seq<Condition>)
    ensures |out| == |cs| && forall i | 0 <= i < |cs| :: out[i] == CoreCondition(cs[i])
  {
    seq(|cs|, i requires 0 <= i < |cs| => CoreCondition(cs[i]))
  }

  function CoreRule(r: WireRule): Rule {
    Rule(r.id, CoreConditions(r.conditions), OrElse(ParseLogicOp(r.combiner), LogicAnd), r.value)
  }

  function CoreRules(rs: seq<WireRule>): (out: seq<Rule>)
    ensures |out| == |rs| && forall i | 0 <= i < |rs| :: out[i] == CoreRule(rs[i])
  {
    seq(|rs|, i requires 0 <= i < |rs| => CoreRule(rs[i]))
  }

  /** The names a document may use, and no others. */
  lemma CombinerAndOrderNames(s: string)
    ensures ParseLogicOp(s) == Some(LogicOr) <==> s == "or"
    ensures ParseLogicOp(s) == Some(LogicAnd) <==> s == "" || s == "and"
    ensures ParseEvaluationOrder(s) == Some(OrderRulesFirst) <==> s == "rules_first" || s == "rules_then_rollout"
    ensures ParseEvaluationOrder(s) == Some(OrderUnspecified) <==> s == ""
    ensures ParseValueType(s) == Some(TypeBool) <==> s == "bool" || s == "boolean"
    ensures ParseValueType(s) == Some(TypeString) <==> s == "string"
    ensures ParseValueType(s) == Some(TypeInt) <==> s == "int" || s == "integer"
    ensures ParseValueType(s) != Some(TypeUnknown)
  {
  }

  lemma OperatorNames(s: string)
    ensures ParseOperator(s) == Some(OpEquals) <==> s == "eq"
    ensures ParseOperator(s) == Some(OpIn) <==> s == "in"
    ensures ParseOperator(s) == Some(OpContains) <==> s == "contains"
    ensures ParseOperator(s) == Some(OpGreaterThan) <==> s == "gt"
    ensures ParseOperator(s) == Some(OpGreaterOrEqual) <==> s == "gte"
    ensures ParseOperator(s) == Some(OpLessThan) <==> s == "lt"
    ensures ParseOperator(s) == Some(OpLessOrEqual) <==> s == "lte"
    ensures ParseOperator(s) == Some(OpExists) <==> s == "exists"
    ensures ParseOperator(s) == Some(OpSemverEqual) <==> s == "semver_eq"
    ensures ParseOperator(s) == Some(OpSemverGreaterThan) <==> s == "semver_gt"
    ensures ParseOperator(s) == Some(OpSemverLessThan) <==> s == "semver_lt"
    ensures ParseOperator(s) != Some(OpUnknown)
  {
  }

  /** A converted rule list says what the document says, name by name. */
  lemma ConvertedRules(rs: seq<WireRule>, i: nat)
    requires i < |rs|
    ensures var w, r := rs[i], CoreRules(rs)[i];
            && r.id == w.id && r.value == w.value && |r.conditions| == |w.conditions|
            && (w.combiner == "or" <==> r.combiner == LogicOr)
            && forall j | 0 <= j < |w.conditions| ::
                 && r.conditions[j].attribute == w.conditions[j].attribute
                 && r.conditions[j].values == w.conditions[j].values
                 && r.conditions[j].negate == w.conditions[j].negate
                 && (ParseOperator(w.conditions[j].op).Some? ==>
                       ParseOperator(w.conditions[j].op) == Some(r.conditions[j].op))
                 && (ParseOperator(w.conditions[j].op).None? ==> r.conditions[j].op == OpUnknown)
  {
  }
}
