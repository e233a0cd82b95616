// The domain types of internal/core: typed values, targeting rules, rollouts,
// resolved flags and the evaluation context.
//
// A Go string is a byte string; here one `char` stands for one byte.
module Core {

  datatype Option<+T> = None | Some(value: T)

  // ---- Go's int64 ------------------------------------------------------------------

  const MAX_INT64 := 0x7fff_ffff_ffff_ffff
  const MIN_INT64 := -0x8000_0000_0000_0000

  predicate IsInt64(x: int) { MIN_INT64 <= x <= MAX_INT64 }

  /** Two's complement wrap-around. */
  function Wrap64(x: int): (r: int)
    ensures IsInt64(r) && (IsInt64(x) ==> r == x) && (r - x) % 0x1_0000_0000_0000_0000 == 0
  {
    (x - MIN_INT64) % 0x1_0000_0000_0000_0000 + MIN_INT64
  }

  datatype ValueType = TypeUnknown | TypeBool | TypeString | TypeInt

  /** A tagged union over the three supported flag types; `Unset` is the zero Value. */
  datatype Value = Unset | BoolValue(b: bool) | StringValue(s: string) | IntValue(i: int)
  {
    function Type(): ValueType {
      match this
      case Unset => TypeUnknown
      case BoolValue(_) => TypeBool
      case StringValue(_) => TypeString
      case IntValue(_) => TypeInt
    }

    predicate IsUnknown() { Unset? }
  }

  function ParseValueType(s: string): Option<ValueType> {
    if s == "bool" || s == "boolean" then Some(TypeBool)
    else if s == "string" then Some(TypeString)
    else if s == "int" || s == "integer" then Some(TypeInt)
    else None
  }

  datatype Operator =
    | OpUnknown
    | OpEquals | OpIn | OpContains
    | OpGreaterThan | OpGreaterOrEqual | OpLessThan | OpLessOrEqual
    | OpExists
    | OpSemverEqual | OpSemverGreaterThan | OpSemverLessThan

  function ParseOperator(s: string): Option<Operator> {
    if s == "eq" then Some(OpEquals)
    else if s == "in" then Some(OpIn)
    else if s == "contains" then Some(OpContains)
    else if s == "gt" then Some(OpGreaterThan)
    else if s == "gte" then Some(OpGreaterOrEqual)
    else if s == "lt" then Some(OpLessThan)
    else if s == "lte" then Some(OpLessOrEqual)
    else if s == "exists" then Some(OpExists)
    else if s == "semver_eq" then Some(OpSemverEqual)
    else if s == "semver_gt" then Some(OpSemverGreaterThan)
    else if s == "semver_lt" then Some(OpSemverLessThan)
    else None
  }

  datatype LogicOp = LogicAnd | LogicOr

  datatype Condition = Condition(attribute: string, op: Operator, values: seq<Value>, negate: bool)

  datatype Rule = Rule(id: string, conditions: seq<Condition>, combiner: LogicOp, value: Value)

  datatype Rollout = Rollout(
    basisPoints: int, bucketNamespace: string, bucketBy: string, onValue: Value, offValue: Value)

  datatype EvaluationOrder = OrderUnspecified | OrderRulesFirst

  datatype Flag = Flag(
    key: string, typ: ValueType, enabled: bool, defaultValue: Value, offValue: Value,
    rules: seq<Rule>, rollout: Option<Rollout>, evaluationOrder: EvaluationOrder)

  const BUCKET_SPACE := 10000

  datatype EvalContext = EvalContext(userID: string, tenantID: string, attributes: map<string, Value>)
  {
    /** Looks an attribute up; an explicit entry wins over the two shorthand fields. */
    function Attribute(name: string): Option<Value> {
      if name in attributes then Some(attributes[name])
      else if name == "user_id" then
        if userID == "" then None else Some(StringValue(userID))
      else if name == "tenant_id" then
        if tenantID == "" then None else Some(StringValue(tenantID))
      else None
    }
  }

  /** The shorthand fields are attributes of their own names, below the explicit ones. */
  lemma ShorthandsAreAttributes(ctx: EvalContext, name: string)
    ensures var users := if ctx.userID == "" then map[] else map["user_id" := StringValue(ctx.userID)];
            var tenants := if ctx.tenantID == "" then map[] else map["tenant_id" := StringValue(ctx.tenantID)];
            var all := users + tenants + ctx.attributes;
            ctx.Attribute(name) == if name in all then Some(all[name]) else None
  {
  }

  // ---- What the validators promise the evaluator -----------------------------------

  /** A known operator carrying the number of operands it takes, none of them null. */
  predicate WellFormedCondition(c: Condition) {
    && c.attribute != ""
    && c.op != OpUnknown
    && (c.op == OpExists ==> |c.values| == 0)
    && (c.op == OpIn ==> |c.values| >= 1)
    && (c.op != OpExists && c.op != OpIn ==> |c.values| == 1)
    && (forall v | v in c.values :: !v.IsUnknown())
  }

  predicate WellFormedRule(r: Rule, typ: ValueType) {
    && r.id != ""
    && r.conditions != []
    && r.value.Type() == typ
    && (forall c | c in r.conditions :: WellFormedCondition(c))
  }

  predicate WellFormedRollout(r: Rollout, typ: ValueType) {
    && 0 <= r.basisPoints <= BUCKET_SPACE
    && r.onValue.Type() == typ
    && r.offValue.Type() == typ
  }

  ghost predicate DistinctRuleIDs(rules: seq<Rule>) {
    forall i, j | 0 <= i < j < |rules| :: rules[i].id != rules[j].id
  }

  /** Everything a resolved flag must satisfy before it may be served. */
  ghost predicate WellFormed(f: Flag) {
    && f.typ != TypeUnknown
    && f.defaultValue.Type() == f.typ
    && f.offValue.Type() == f.typ
    && (forall r | r in f.rules :: WellFormedRule(r, f.typ))
    && DistinctRuleIDs(f.rules)
    && (f.rollout.Some? ==> WellFormedRollout(f.rollout.value, f.typ))
    && (f.rules != [] && f.rollout.Some? ==> f.evaluationOrder == OrderRulesFirst)
  }
}
