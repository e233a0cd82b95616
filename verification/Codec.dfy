// pkg/client/cache.go: JSONCodec between snapshots and the structures it marshals. The JSON
// text itself is not modelled.
module Codec {
  import opened Core
  import opened Orders

  // ---- Names -----------------------------------------------------------------------

  function TypeName(t: ValueType): string {
    match t
    case TypeBool => "bool"
    case TypeString => "string"
    case TypeInt => "int"
    case TypeUnknown => "unknown"
  }

  function OperatorName(op: Operator): string {
    match op
    case OpEquals => "eq"
    case OpIn => "in"
    case OpContains => "contains"
    case OpGreaterThan => "gt"
    case OpGreaterOrEqual => "gte"
    case OpLessThan => "lt"
    case OpLessOrEqual => "lte"
    case OpExists => "exists"
    case OpSemverEqual => "semver_eq"
    case OpSemverGreaterThan => "semver_gt"
    case OpSemverLessThan => "semver_lt"
    case OpUnknown => "unknown"
  }

  function LogicName(l: LogicOp): string { if l == LogicOr then "or" else "and" }

  function OrderName(o: EvaluationOrder): string { if o == OrderRulesFirst then "rules_first" else "unspecified" }

  lemma TypeNamesReadBack(t: ValueType)
    ensures ParseValueType(TypeName(t)) == if t == TypeUnknown then None else Some(t)
  {
    assert "unknown"[0] != "boolean"[0] && "unknown"[0] != "integer"[0];
  }

  lemma OperatorNamesReadBack(op: Operator)
    ensures ParseOperator(OperatorName(op)) == if op == OpUnknown then None else Some(op)
  {
    match op
    case OpEquals => case OpIn => case OpContains => case OpGreaterThan => case OpGreaterOrEqual =>
    case OpLessThan => case OpLessOrEqual => case OpExists => case OpSemverEqual =>
    case OpSemverGreaterThan => assert "semver_gt"[7] != "semver_eq"[7];
    case OpSemverLessThan => assert "semver_lt"[7] != "semver_eq"[7] && "semver_lt"[7] != "semver_gt"[7];
    case OpUnknown => assert |"unknown"| == 7;
  }

  // ---- The structures --------------------------------------------------------------

  datatype JsonCond = JsonCond(attribute: string, op: string, values: seq<Value>, negate: bool)
  datatype JsonRule = JsonRule(id: string, conditions: seq<JsonCond>, combiner: string, value: Value)
  datatype JsonFlag = JsonFlag(
    key: string, typ: string, enabled: bool, defaultValue: Value, offValue: Value,
    rules: seq<JsonRule>, rollout: Option<Rollout>, evaluationOrder: string)
  datatype JsonSnapshot = JsonSnapshot(format: int, env: string, generation: int, flags: seq<JsonFlag>)

  const FORMAT_VERSION := 1

  /** An immutable snapshot over fixed flags, each at its own key. */
  datatype MemSnapshot = MemSnapshot(env: string, generation: int, flags: map<string, Flag>)
  {
    predicate Valid() { forall k | k in flags :: flags[k].key == k }
  }

  predicate IsLastOf(flags: seq<Flag>, i: int, key: string) {
    0 <= i < |flags| && flags[i].key == key && forall j | i < j < |flags| :: flags[j].key != key
  }

  /** The keys are the flags' keys, and each has the last flag with it. */
  ghost predicate HoldsLatest(flags: seq<Flag>, m: map<string, Flag>) {
    && (forall f | f in flags :: f.key in m)
    && (forall k | k in m :: exists i :: IsLastOf(flags, i, k) && m[k] == flags[i])
  }

  /** A later flag with the same key displaces an earlier one. */
  function ByKey(flags: seq<Flag>): map<string, Flag> {
    if flags == [] then map[] else ByKey(flags[..|flags| - 1])[flags[|flags| - 1].key := flags[|flags| - 1]]
  }

  lemma OneMoreIsLatest(flags: seq<Flag>, f: Flag, m: map<string, Flag>)
    requires HoldsLatest(flags, m)
    ensures HoldsLatest(flags + [f], m[f.key := f])
  {
    assert IsLastOf(flags + [f], |flags|, f.key);
    forall k | k in m && k != f.key ensures exists i :: IsLastOf(flags + [f], i, k) && m[k] == (flags + [f])[i] {
      var i :| IsLastOf(flags, i, k) && m[k] == flags[i];
      assert IsLastOf(flags + [f], i, k);
    }
  }

  lemma {:induction false} ByKeyHoldsLatest(flags: seq<Flag>)
    ensures HoldsLatest(flags, ByKey(flags))
  {
    if flags != [] {
      var n := |flags| - 1;
      ByKeyHoldsLatest(flags[..n]);
      OneMoreIsLatest(flags[..n], flags[n], ByKey(flags[..n]));
      assert flags == flags[..n] + [flags[n]];
    }
  }

  function NewMemSnapshot(env: string, generation: int, flags: seq<Flag>): (m: MemSnapshot)
    ensures m.Valid() && m.env == env && m.generation == generation && HoldsLatest(flags, m.flags)
  {
    ByKeyHoldsLatest(flags);
    MemSnapshot(env, generation, ByKey(flags))
  }

  // ---- Encoding --------------------------------------------------------------------

  function EncodeCond(c: Condition): JsonCond { JsonCond(c.attribute, OperatorName(c.op), c.values, c.negate) }

  function EncodeRule(r: Rule): JsonRule {
    JsonRule(r.id, seq(|r.conditions|, i requires 0 <= i < |r.conditions| => EncodeCond(r.conditions[i])),
             LogicName(r.combiner), r.value)
  }

  function EncodeFlag(f: Flag): JsonFlag {
    JsonFlag(f.key, TypeName(f.typ), f.enabled, f.defaultValue, f.offValue,
             seq(|f.rules|, i requires 0 <= i < |f.rules| => EncodeRule(f.rules[i])), f.rollout,
             if f.evaluationOrder != OrderUnspecified then OrderName(f.evaluationOrder) else "")
  }

  /** Some order of the flags, each encoded. */
  ghost predicate IsEncoding(j: JsonSnapshot, m: MemSnapshot, order: seq<string>) {
    && j.format == FORMAT_VERSION && j.env == m.env && j.generation == m.generation
    && IsOrder(order, m.flags.Keys) && |j.flags| == |order|
    && forall i | 0 <= i < |order| :: order[i] in m.flags && j.flags[i] == EncodeFlag(m.flags[order[i]])
  }

  method EncodeSnapshot(m: MemSnapshot) returns (j: JsonSnapshot)
    ensures exists order :: IsEncoding(j, m, order)
  {
    var keys := Ordered(m.flags.Keys);
    var flags: seq<JsonFlag> := [];
    for i := 0 to |keys|
      invariant |flags| == i
      invariant forall k | 0 <= k < i :: keys[k] in m.flags && flags[k] == EncodeFlag(m.flags[keys[k]])
    {
      assert keys[i] in KeySet(keys);
      flags := flags + [EncodeFlag(m.flags[keys[i]])];
    }
    j := JsonSnapshot(FORMAT_VERSION, m.env, m.generation, flags);
    assert IsEncoding(j, m, keys);
  }

  // ---- Decoding --------------------------------------------------------------------

  function DecodeCond(c: JsonCond): Option<Condition> {
    match ParseOperator(c.op)
    case None => None
    case Some(op) => Some(Condition(c.attribute, op, c.values, c.negate))
  }

  /** All of them, in order, or nothing when one cannot be read. */
  function DecodeConds(cs: seq<JsonCond>): Option<seq<Condition>> {
    if cs == [] then Some([])
    else
      match (DecodeCond(cs[0]), DecodeConds(cs[1..]))
      case (Some(c), Some(rest)) => Some([c] + rest)
      case _ => None
  }

  function DecodeRule(r: JsonRule): Option<Rule> {
    match DecodeConds(r.conditions)
    case None => None
    case Some(conditions) => Some(Rule(r.id, conditions, if r.combiner == "or" then LogicOr else LogicAnd, r.value))
  }

  function DecodeRules(rs: seq<JsonRule>): Option<seq<Rule>> {
    if rs == [] then Some([])
    else
      match (DecodeRule(rs[0]), DecodeRules(rs[1..]))
      case (Some(r), Some(rest)) => Some([r] + rest)
      case _ => None
  }

  function DecodeOrder(s: string): Option<EvaluationOrder> {
    if s == "" || s == "unspecified" then Some(OrderUnspecified)
    else if s == "rules_first" then Some(OrderRulesFirst)
    else None
  }

  function DecodeFlag(jf: JsonFlag): Option<Flag> {
    match (ParseValueType(jf.typ), DecodeOrder(jf.evaluationOrder), DecodeRules(jf.rules))
    case (Some(typ), Some(order), Some(rules)) =>
      Some(Flag(jf.key, typ, jf.enabled, jf.defaultValue, jf.offValue, rules, jf.rollout, order))
    case _ => None
  }

  function DecodeFlags(js: seq<JsonFlag>): (flags: Option<seq<Flag>>)
    ensures flags.Some? <==> forall i | 0 <= i < |js| :: DecodeFlag(js[i]).Some?
    ensures flags.Some? ==>
              |flags.value| == |js| && forall i | 0 <= i < |js| :: DecodeFlag(js[i]) == Some(flags.value[i])
  {
    if js == [] then Some([])
    else
      match (DecodeFlags(js[..|js| - 1]), DecodeFlag(js[|js| - 1]))
      case (Some(flags), Some(f)) => Some(flags + [f])
      case _ => None
  }

  /** Refused outright when the version differs or any part cannot be read. */
  function Decoded(j: JsonSnapshot): Option<MemSnapshot> {
    if j.format != FORMAT_VERSION || DecodeFlags(j.flags).None? then None
    else Some(NewMemSnapshot(j.env, j.generation, DecodeFlags(j.flags).value))
  }

  method DecodeSnapshot(j: JsonSnapshot) returns (m: Option<MemSnapshot>)
    ensures m == Decoded(j)
  {
    if j.format != FORMAT_VERSION {
      return None;
    }
    var flags: seq<Flag> := [];
    for i := 0 to |j.flags|
      invariant DecodeFlags(j.flags[..i]) == Some(flags)
    {
      assert j.flags[..i + 1][..i] == j.flags[..i];
      var f := DecodeFlag(j.flags[i]);
      if f.None? {
        return None;
      }
      flags := flags + [f.value];
    }
    assert j.flags[..|j.flags|] == j.flags;
    return Some(NewMemSnapshot(j.env, j.generation, flags));
  }

  // ---- Round trips -----------------------------------------------------------------

  predicate ReadableCond(c: Condition) { c.op != OpUnknown }

  predicate ReadableRule(r: Rule) { forall i | 0 <= i < |r.conditions| :: ReadableCond(r.conditions[i]) }

  /** A known type, and known operators throughout. */
  predicate Readable(f: Flag) {
    f.typ != TypeUnknown && forall i | 0 <= i < |f.rules| :: ReadableRule(f.rules[i])
  }

  lemma {:induction false} CondsReadBack(cs: seq<Condition>, js: seq<JsonCond>)
    requires |js| == |cs| && forall i | 0 <= i < |cs| :: js[i] == EncodeCond(cs[i])
    ensures DecodeConds(js) == if forall i | 0 <= i < |cs| :: ReadableCond(cs[i]) then Some(cs) else None
  {
    if cs != [] {
      OperatorNamesReadBack(cs[0].op);
      CondsReadBack(cs[1..], js[1..]);
      assert cs == [cs[0]] + cs[1..];
    }
  }

  lemma RuleReadsBack(r: Rule)
    ensures DecodeRule(EncodeRule(r)) == if ReadableRule(r) then Some(r) else None
  {
    CondsReadBack(r.conditions, EncodeRule(r).conditions);
  }

  lemma {:induction false} RulesReadBack(rs: seq<Rule>, js: seq<JsonRule>)
    requires |js| == |rs| && forall i | 0 <= i < |rs| :: js[i] == EncodeRule(rs[i])
    ensures DecodeRules(js) == if forall i | 0 <= i < |rs| :: ReadableRule(rs[i]) then Some(rs) else None
  {
    if rs != [] {
      RuleReadsBack(rs[0]);
      RulesReadBack(rs[1..], js[1..]);
      assert rs == [rs[0]] + rs[1..];
    }
  }

  /** A flag reads back as itself exactly when its type and operators are known. */
  lemma FlagsReadBack(f: Flag)
    ensures DecodeFlag(EncodeFlag(f)) == if Readable(f) then Some(f) else None
  {
    TypeNamesReadBack(f.typ);
    RulesReadBack(f.rules, EncodeFlag(f).rules);
  }

  /** The flags of `m` in some order, or in the first part of one. */
  predicate Lists(order: seq<string>, flags: seq<Flag>, m: map<string, Flag>) {
    && |flags| == |order|
    && (forall i | 0 <= i < |order| :: order[i] in m && m[order[i]].key == order[i] && flags[i] == m[order[i]])
  }

  lemma {:induction false} ByKeyRestores(m: map<string, Flag>, order: seq<string>, flags: seq<Flag>)
    requires Lists(order, flags, m)
    ensures ByKey(flags) == map k | k in m && k in order :: m[k]
  {
    if order != [] {
      var n := |order| - 1;
      ByKeyRestores(m, order[..n], flags[..n]);
      OneMoreKey(m, order);
    }
  }

  lemma OneMoreKey(m: map<string, Flag>, order: seq<string>)
    requires order != [] && order[|order| - 1] in m
    ensures var n := |order| - 1;
            (map k | k in m && k in order[..n] :: m[k])[order[n] := m[order[n]]]
            == map k | k in m && k in order :: m[k]
  {
    assert order == order[..|order| - 1] + [order[|order| - 1]];
  }

  lemma EncodedFlagsReadBack(m: MemSnapshot, j: JsonSnapshot, order: seq<string>, i: nat)
    requires IsEncoding(j, m, order) && i < |order|
    ensures DecodeFlag(j.flags[i]) == if Readable(m.flags[order[i]]) then Some(m.flags[order[i]]) else None
  {
    FlagsReadBack(m.flags[order[i]]);
  }

  lemma ByKeyRestoresAll(m: map<string, Flag>, order: seq<string>, flags: seq<Flag>)
    requires KeySet(order) == m.Keys && Lists(order, flags, m)
    ensures ByKey(flags) == m
  {
    ByKeyRestores(m, order, flags);
    assert forall k :: k in order <==> k in KeySet(order);
  }

  lemma ReadableFlagsDecode(m: MemSnapshot, j: JsonSnapshot, order: seq<string>)
    requires IsEncoding(j, m, order) && forall k | k in m.flags :: Readable(m.flags[k])
    ensures DecodeFlags(j.flags).Some?
    ensures forall i | 0 <= i < |order| :: DecodeFlags(j.flags).value[i] == m.flags[order[i]]
  {
    forall i | 0 <= i < |order| ensures DecodeFlag(j.flags[i]) == Some(m.flags[order[i]]) {
      EncodedFlagsReadBack(m, j, order, i);
    }
  }

  lemma ReadableFlagsRestore(m: MemSnapshot, j: JsonSnapshot, order: seq<string>)
    requires m.Valid() && IsEncoding(j, m, order) && forall k | k in m.flags :: Readable(m.flags[k])
    ensures Decoded(j) == Some(m)
  {
    ReadableFlagsDecode(m, j, order);
    ByKeyRestoresAll(m.flags, order, DecodeFlags(j.flags).value);
  }

  /**
   * What the codec writes it reads back as the same snapshot, if and only if every flag has
   * a known type and known operators; otherwise the whole file is refused.
   */
  lemma SnapshotsReadBack(m: MemSnapshot, j: JsonSnapshot, order: seq<string>)
    requires m.Valid() && IsEncoding(j, m, order)
    ensures Decoded(j) == if forall k | k in m.flags :: Readable(m.flags[k]) then Some(m) else None
  {
    if k :| k in m.flags && !Readable(m.flags[k]) {
      assert k in KeySet(order);
      var i :| 0 <= i < |order| && order[i] == k;
      EncodedFlagsReadBack(m, j, order, i);
    } else {
      ReadableFlagsRestore(m, j, order);
    }
  }

  /** What is written under which name, and the version every file starts with. */
  lemma FieldsAreWrittenAsNamed(f: Flag)
    ensures var j := EncodeFlag(f);
            && j.key == f.key && ParseValueType(j.typ) == (if f.typ == TypeUnknown then None else Some(f.typ))
            && j.enabled == f.enabled && j.defaultValue == f.defaultValue && j.offValue == f.offValue
            && j.rollout == f.rollout && |j.rules| == |f.rules|
            && (forall i | 0 <= i < |f.rules| ::
                  && j.rules[i].id == f.rules[i].id && j.rules[i].value == f.rules[i].value
                  && (j.rules[i].combiner == "or" <==> f.rules[i].combiner == LogicOr))
            && FORMAT_VERSION == 1
  {
  }
}
