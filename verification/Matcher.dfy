// internal/core/matcher.go: three-valued condition matching and rule matching.
module Matcher {
  import opened Core
  import opened Semver

  datatype Tri = TriFalse | TriTrue | TriAbsent | TriBadType | TriBadValue | TriBadOp
  {
    predicate Countable() { TriBadType? || TriBadValue? || TriBadOp? }
  }

  function TriOf(b: bool): Tri { if b then TriTrue else TriFalse }

  function MatchEquals(v: Value, vals: seq<Value>): Tri {
    if vals == [] then TriBadOp
    else if v.Type() != vals[0].Type() then TriBadType
    else TriOf(v == vals[0])
  }

  function MatchIn(v: Value, vals: seq<Value>): Tri {
    if vals == [] then TriFalse
    else if exists w | w in vals :: w.Type() == v.Type() then TriOf(v in vals)
    else TriBadType
  }

  method MatchInLoop(v: Value, vals: seq<Value>) returns (t: Tri)
    ensures t == MatchIn(v, vals)
  {
    if |vals| == 0 {
      return TriFalse;
    }
    var sawComparable := false;
    for i := 0 to |vals|
      invariant v !in vals[..i]
      invariant sawComparable <==> exists j | 0 <= j < i :: vals[j].Type() == v.Type()
    {
      if vals[i].Type() == v.Type() {
        sawComparable := true;
        if v == vals[i] {
          return TriTrue;
        }
      }
    }
    assert vals[..|vals|] == vals;
    return if sawComparable then TriFalse else TriBadType;
  }

  predicate OccursAt(s: string, sub: string, i: int) {
    0 <= i <= |s| - |sub| && s[i..i + |sub|] == sub
  }

  predicate Contains(s: string, sub: string) {
    exists i | 0 <= i <= |s| :: OccursAt(s, sub, i)
  }

  function MatchContains(v: Value, vals: seq<Value>): Tri {
    if vals == [] then TriBadOp
    else if !v.StringValue? || !vals[0].StringValue? then TriBadType
    else TriOf(Contains(v.s, vals[0].s))
  }

  function MatchOrdered(op: Operator, v: Value, vals: seq<Value>): Tri {
    if vals == [] then TriBadOp
    else if !v.IntValue? || !vals[0].IntValue? then TriBadType
    else
      var a, b := v.i, vals[0].i;
      match op
      case OpGreaterThan => TriOf(a > b)
      case OpGreaterOrEqual => TriOf(a >= b)
      case OpLessThan => TriOf(a < b)
      case OpLessOrEqual => TriOf(a <= b)
      case _ => TriBadOp
  }

  function MatchParsed(op: Operator, a: Option<Semver>, b: Option<Semver>): Tri {
    if a.None? || b.None? then TriBadValue
    else
      var c := Compare(a.value, b.value);
      match op
      case OpSemverEqual => TriOf(c == 0)
      case OpSemverGreaterThan => TriOf(c > 0)
      case OpSemverLessThan => TriOf(c < 0)
      case _ => TriBadOp
  }

  function MatchSemver(op: Operator, v: Value, vals: seq<Value>): Tri {
    if vals == [] then TriBadOp
    else if !v.StringValue? || !vals[0].StringValue? then TriBadType
    else MatchParsed(op, Parse(v.s), Parse(vals[0].s))
  }

  /** The raw comparison, before negation. */
  function DecideCondition(c: Condition, ctx: EvalContext): Tri {
    var v := ctx.Attribute(c.attribute);
    if c.op == OpExists then TriOf(v.Some?)
    else if v.None? then TriAbsent
    else
      match c.op
      case OpEquals => MatchEquals(v.value, c.values)
      case OpIn => MatchIn(v.value, c.values)
      case OpContains => MatchContains(v.value, c.values)
      case OpGreaterThan | OpGreaterOrEqual | OpLessThan | OpLessOrEqual =>
        MatchOrdered(c.op, v.value, c.values)
      case OpSemverEqual | OpSemverGreaterThan | OpSemverLessThan =>
        MatchSemver(c.op, v.value, c.values)
      case _ => TriBadOp
  }

  /** Negation flips a decided answer only; an undecidable condition never matches. */
  function MatchCondition(c: Condition, ctx: EvalContext): (bool, Tri) {
    var outcome := DecideCondition(c, ctx);
    match outcome
    case TriTrue => (!c.negate, outcome)
    case TriFalse => (c.negate, outcome)
    case _ => (false, outcome)
  }

  predicate ConditionMatches(c: Condition, ctx: EvalContext) { MatchCondition(c, ctx).0 }

  /** All of the conditions, or any of them. */
  predicate RuleMatches(r: Rule, ctx: EvalContext) {
    if r.combiner == LogicOr then exists c | c in r.conditions :: ConditionMatches(c, ctx)
    else forall c | c in r.conditions :: ConditionMatches(c, ctx)
  }

  /** One report to the condition observer. */
  datatype Observation = Observation(flagKey: string, ruleID: string, attribute: string, outcome: Tri)

  /** What the observer hears when the first `n` conditions of a rule are consulted. */
  function Observed(flagKey: string, r: Rule, ctx: EvalContext, n: nat): seq<Observation>
    requires n <= |r.conditions|
  {
    if n == 0 then []
    else
      var c := r.conditions[n - 1];
      var outcome := DecideCondition(c, ctx);
      Observed(flagKey, r, ctx, n - 1)
      + if outcome.Countable() then [Observation(flagKey, r.id, c.attribute, outcome)] else []
  }

  /** `or` stops at the first match, `and` at the first condition that does not match. */
  predicate Stops(r: Rule, c: Condition, ctx: EvalContext) {
    ConditionMatches(c, ctx) == (r.combiner == LogicOr)
  }

  /** Every condition before the last consulted one let the rule go on. */
  ghost predicate IsConsulted(r: Rule, ctx: EvalContext, n: nat) {
    && n <= |r.conditions|
    && (forall i | 0 <= i < n - 1 :: !Stops(r, r.conditions[i], ctx))
    && (n < |r.conditions| ==> n > 0 && Stops(r, r.conditions[n - 1], ctx))
  }

  method MatchRule(flagKey: string, r: Option<Rule>, ctx: EvalContext)
    returns (matched: bool, observed: seq<Observation>, ghost consulted: nat)
    ensures r.None? ==> !matched && observed == []
    ensures r.Some? ==> matched == RuleMatches(r.value, ctx)
    ensures r.Some? ==>
              IsConsulted(r.value, ctx, consulted) && observed == Observed(flagKey, r.value, ctx, consulted)
  {
    observed, consulted := [], 0;
    if r.None? {
      return false, [], 0;
    }
    var conditions := r.value.conditions;
    for i := 0 to |conditions|
      invariant consulted == i
      invariant observed == Observed(flagKey, r.value, ctx, i)
      invariant forall j | 0 <= j < i :: !Stops(r.value, conditions[j], ctx)
    {
      var (hit, outcome) := MatchCondition(conditions[i], ctx);
      if outcome.Countable() {
        observed := observed + [Observation(flagKey, r.value.id, conditions[i].attribute, outcome)];
      }
      consulted := consulted + 1;
      assert hit == ConditionMatches(conditions[i], ctx);
      if r.value.combiner == LogicOr && hit {
        return true, observed, consulted;
      }
      if r.value.combiner != LogicOr && !hit {
        return false, observed, consulted;
      }
    }
    return r.value.combiner != LogicOr, observed, consulted;
  }

  // ---- Properties ------------------------------------------------------------------

  /** A validated condition is never met with "operator not implemented". */
  lemma WellFormedNeverBadOp(c: Condition, ctx: EvalContext)
    requires WellFormedCondition(c)
    ensures DecideCondition(c, ctx) != TriBadOp
  {
    if c.op != OpExists && c.op != OpIn {
      assert |c.values| == 1;
    }
  }

  // What each operator decides on a validated condition whose attribute is there. ----------

  /** A missing attribute is undecided, except for `exists`, which answers about it. */
  lemma PresenceMeans(c: Condition, ctx: EvalContext)
    ensures c.op == OpExists ==>
              DecideCondition(c, ctx) == if ctx.Attribute(c.attribute).Some? then TriTrue else TriFalse
    ensures c.op != OpExists && ctx.Attribute(c.attribute).None? ==> DecideCondition(c, ctx) == TriAbsent
  {
  }

  lemma EqualityMeans(c: Condition, ctx: EvalContext, v: Value)
    requires WellFormedCondition(c) && ctx.Attribute(c.attribute) == Some(v) && c.op == OpEquals
    ensures var outcome, w := DecideCondition(c, ctx), c.values[0];
            && (outcome == TriTrue <==> v == w)
            && (outcome == TriFalse <==> v != w && v.Type() == w.Type())
            && (outcome == TriBadType <==> v.Type() != w.Type())
  {
  }

  lemma MembershipMeans(c: Condition, ctx: EvalContext, v: Value)
    requires WellFormedCondition(c) && ctx.Attribute(c.attribute) == Some(v) && c.op == OpIn
    ensures var outcome := DecideCondition(c, ctx);
            && (outcome == TriTrue <==> v in c.values)
            && (outcome == TriFalse <==> v !in c.values && exists w | w in c.values :: w.Type() == v.Type())
            && (outcome == TriBadType <==> forall w | w in c.values :: w.Type() != v.Type())
  {
  }

  lemma ContainsMeans(c: Condition, ctx: EvalContext, v: Value)
    requires WellFormedCondition(c) && ctx.Attribute(c.attribute) == Some(v) && c.op == OpContains
    ensures var outcome, w := DecideCondition(c, ctx), c.values[0];
            if v.StringValue? && w.StringValue? then
              && (outcome == TriTrue <==> exists p, q :: v.s == p + w.s + q)
              && (outcome == TriFalse <==> !exists p, q :: v.s == p + w.s + q)
            else outcome == TriBadType
  {
    if v.StringValue? && c.values[0].StringValue? {
      SubstringMeans(v.s, c.values[0].s);
    }
  }

  lemma SubstringMeans(s: string, sub: string)
    ensures Contains(s, sub) <==> exists p, q :: s == p + sub + q
  {
    if Contains(s, sub) {
      var i :| 0 <= i <= |s| && OccursAt(s, sub, i);
      assert s == s[..i] + sub + s[i + |sub|..];
    }
    if p, q :| s == p + sub + q {
      assert OccursAt(s, sub, |p|);
    }
  }

  /** Only integers are ordered, and as integers. */
  lemma OrderingsMean(c: Condition, ctx: EvalContext, v: Value)
    requires WellFormedCondition(c) && ctx.Attribute(c.attribute) == Some(v)
    requires c.op in {OpGreaterThan, OpGreaterOrEqual, OpLessThan, OpLessOrEqual}
    ensures var outcome, w := DecideCondition(c, ctx), c.values[0];
            if v.IntValue? && w.IntValue? then
              && outcome in {TriTrue, TriFalse}
              && (c.op == OpGreaterThan ==> (outcome == TriTrue <==> v.i > w.i))
              && (c.op == OpGreaterOrEqual ==> (outcome == TriTrue <==> v.i >= w.i))
              && (c.op == OpLessThan ==> (outcome == TriTrue <==> v.i < w.i))
              && (c.op == OpLessOrEqual ==> (outcome == TriTrue <==> v.i <= w.i))
            else outcome == TriBadType
  {
  }

  /**
   * Versions are compared by the precedence of section 11 of SemVer 2.0.0, whatever their
   * build metadata; a text that is no version is undecided.
   */
  lemma VersionsMean(c: Condition, ctx: EvalContext, v: Version, vBuild: seq<string>,
                     w: Version, wBuild: seq<string>)
    requires WellFormedCondition(c) && c.op in {OpSemverEqual, OpSemverGreaterThan, OpSemverLessThan}
    requires ValidVersion(v) && ValidBuild(vBuild) && ValidVersion(w) && ValidBuild(wBuild)
    requires ctx.Attribute(c.attribute) == Some(StringValue(Print(v, vBuild)))
    requires c.values[0] == StringValue(Print(w, wBuild))
    ensures var outcome := DecideCondition(c, ctx);
            && outcome in {TriTrue, TriFalse}
            && (c.op == OpSemverEqual ==> (outcome == TriTrue <==> v == w))
            && (c.op == OpSemverGreaterThan ==> (outcome == TriTrue <==> Precedence(v, w) > 0))
            && (c.op == OpSemverLessThan ==> (outcome == TriTrue <==> Precedence(v, w) < 0))
  {
    DecidedByParsing(c, ctx, Print(v, vBuild), Print(w, wBuild));
    PrintedVersionsCompare(v, vBuild, w, wBuild);
    SignsDecide(c.op, Parse(Print(v, vBuild)), Parse(Print(w, wBuild)));
  }

  lemma DecidedByParsing(c: Condition, ctx: EvalContext, s: string, t: string)
    requires ctx.Attribute(c.attribute) == Some(StringValue(s)) && c.values == [StringValue(t)]
    requires c.op in {OpSemverEqual, OpSemverGreaterThan, OpSemverLessThan}
    ensures DecideCondition(c, ctx) == MatchParsed(c.op, Parse(s), Parse(t))
  {
    DecidedAsVersions(c, ctx, StringValue(s));
    TextsAreParsed(c.op, s, t);
  }

  lemma DecidedAsVersions(c: Condition, ctx: EvalContext, v: Value)
    requires ctx.Attribute(c.attribute) == Some(v)
    requires c.op in {OpSemverEqual, OpSemverGreaterThan, OpSemverLessThan}
    ensures DecideCondition(c, ctx) == MatchSemver(c.op, v, c.values)
  {
  }

  lemma TextsAreParsed(op: Operator, s: string, t: string)
    ensures MatchSemver(op, StringValue(s), [StringValue(t)]) == MatchParsed(op, Parse(s), Parse(t))
  {
  }

  lemma SignsDecide(op: Operator, a: Option<Semver>, b: Option<Semver>)
    requires op in {OpSemverEqual, OpSemverGreaterThan, OpSemverLessThan}
    ensures var outcome := MatchParsed(op, a, b);
            if a.None? || b.None? then outcome == TriBadValue
            else
              var c := Compare(a.value, b.value);
              && outcome in {TriTrue, TriFalse}
              && (op == OpSemverEqual ==> (outcome == TriTrue <==> c == 0))
              && (op == OpSemverGreaterThan ==> (outcome == TriTrue <==> c > 0))
              && (op == OpSemverLessThan ==> (outcome == TriTrue <==> c < 0))
  {
  }

  lemma OtherTextsAreNoVersions(c: Condition, ctx: EvalContext, s: string, t: string)
    requires WellFormedCondition(c) && c.op in {OpSemverEqual, OpSemverGreaterThan, OpSemverLessThan}
    requires ctx.Attribute(c.attribute) == Some(StringValue(s)) && c.values[0] == StringValue(t)
    ensures DecideCondition(c, ctx) == TriBadValue <==> !IsSemver(s) || !IsSemver(t)
  {
    DecidedByParsing(c, ctx, s, t);
    SignsDecide(c.op, Parse(s), Parse(t));
    ParseAcceptsExactlyTheGrammar(s);
    ParseAcceptsExactlyTheGrammar(t);
  }

  lemma OnlyTextsAreVersions(c: Condition, ctx: EvalContext, v: Value)
    requires WellFormedCondition(c) && ctx.Attribute(c.attribute) == Some(v)
    requires c.op in {OpSemverEqual, OpSemverGreaterThan, OpSemverLessThan}
    ensures DecideCondition(c, ctx) == TriBadType <==> !v.StringValue? || !c.values[0].StringValue?
  {
    if v.StringValue? && c.values[0].StringValue? {
      DecidedByParsing(c, ctx, v.s, c.values[0].s);
      SignsDecide(c.op, Parse(v.s), Parse(c.values[0].s));
    } else {
      DecidedAsVersions(c, ctx, v);
    }
  }

  /** A rule without conditions matches under `and`, and not under `or`. */
  lemma RuleMeans(r: Rule, ctx: EvalContext)
    ensures r.combiner == LogicAnd ==>
              (RuleMatches(r, ctx) <==> forall i | 0 <= i < |r.conditions| :: ConditionMatches(r.conditions[i], ctx))
    ensures r.combiner == LogicOr ==>
              (RuleMatches(r, ctx) <==> exists i | 0 <= i < |r.conditions| :: ConditionMatches(r.conditions[i], ctx))
  {
  }

  /** Negation turns a decided answer round; an undecided condition never matches. */
  lemma NegationMeans(c: Condition, ctx: EvalContext)
    ensures var outcome := DecideCondition(c, ctx);
            && (outcome == TriTrue ==> (ConditionMatches(c, ctx) <==> !c.negate))
            && (outcome == TriFalse ==> (ConditionMatches(c, ctx) <==> c.negate))
            && (outcome != TriTrue && outcome != TriFalse ==> !ConditionMatches(c, ctx))
  {
  }

  lemma {:induction false} WellFormedObservations(flagKey: string, r: Rule, ctx: EvalContext, n: nat)
    requires n <= |r.conditions|
    requires forall c | c in r.conditions :: WellFormedCondition(c)
    ensures forall o | o in Observed(flagKey, r, ctx, n) :: !o.outcome.TriBadOp?
  {
    if n > 0 {
      var c := r.conditions[n - 1];
      WellFormedObservations(flagKey, r, ctx, n - 1);
      WellFormedNeverBadOp(c, ctx);
      assert Observed(flagKey, r, ctx, n) <= Observed(flagKey, r, ctx, n - 1)
             + [Observation(flagKey, r.id, c.attribute, DecideCondition(c, ctx))];
    }
  }

  /** The observer hears of mismatches of type, value or operator; a missing attribute is none. */
  lemma {:induction false} OnlyMismatchesAreObserved(flagKey: string, r: Rule, ctx: EvalContext, n: nat)
    requires n <= |r.conditions|
    ensures forall o :: o in Observed(flagKey, r, ctx, n) <==>
              exists i | 0 <= i < n ::
                && o == Observation(flagKey, r.id, r.conditions[i].attribute, DecideCondition(r.conditions[i], ctx))
                && o.outcome in {TriBadType, TriBadValue, TriBadOp}
  {
    if n > 0 {
      OnlyMismatchesAreObserved(flagKey, r, ctx, n - 1);
      var c := r.conditions[n - 1];
      var last := Observation(flagKey, r.id, c.attribute, DecideCondition(c, ctx));
      assert Observed(flagKey, r, ctx, n)
             == Observed(flagKey, r, ctx, n - 1) + if last.outcome.Countable() then [last] else [];
    }
  }

  /** `b` knows everything `a` knows. */
  ghost predicate Extends(b: EvalContext, a: EvalContext) {
    forall name :: a.Attribute(name).Some? ==> b.Attribute(name) == a.Attribute(name)
  }

  predicate IsNegatedExists(c: Condition) { c.op == OpExists && c.negate }

  /** A condition that holds keeps holding when attributes are added. */
  lemma ConditionIsMonotone(c: Condition, a: EvalContext, b: EvalContext)
    requires Extends(b, a) && !IsNegatedExists(c)
    ensures ConditionMatches(c, a) ==> ConditionMatches(c, b)
  {
    assert a.Attribute(c.attribute).Some? ==> b.Attribute(c.attribute) == a.Attribute(c.attribute);
  }

  /** Losing attributes never makes a rule match. */
  lemma LosingInformationNeverMatches(r: Rule, a: EvalContext, b: EvalContext)
    requires Extends(b, a)
    requires forall c | c in r.conditions :: !IsNegatedExists(c)
    ensures RuleMatches(r, a) ==> RuleMatches(r, b)
  {
    forall c | c in r.conditions ensures ConditionMatches(c, a) ==> ConditionMatches(c, b) {
      ConditionIsMonotone(c, a, b);
    }
  }

  /**
   * The guarantee is exact, condition by condition: a condition that some extension of
   * some context breaks is one with a negated `exists`.
   */
  lemma OnlyNegatedExistsIsNotMonotone(c: Condition)
    ensures IsNegatedExists(c) <==>
              exists a: EvalContext, b: EvalContext ::
                Extends(b, a) && ConditionMatches(c, a) && !ConditionMatches(c, b)
  {
    if IsNegatedExists(c) {
      var a := EvalContext("", "", map[]);
      var b := EvalContext("", "", map[c.attribute := BoolValue(true)]);
      assert a.Attribute(c.attribute).None? && b.Attribute(c.attribute).Some?;
      assert Extends(b, a);
      assert ConditionMatches(c, a) && !ConditionMatches(c, b);
    } else {
      forall a: EvalContext, b: EvalContext | Extends(b, a) && ConditionMatches(c, a)
        ensures ConditionMatches(c, b)
      {
        ConditionIsMonotone(c, a, b);
      }
    }
  }
}
