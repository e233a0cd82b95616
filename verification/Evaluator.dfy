// internal/core/evaluator.go: the evaluation engine.
module Evaluator {
  import opened Core
  import opened Matcher
  import opened Bucket
  import opened Decimal

  datatype Reason =
    | ReasonUnknown
    | ReasonRuleMatch | ReasonRolloutIn | ReasonRolloutOut | ReasonFallthrough | ReasonDisabled
    | ReasonFlagNotFound | ReasonTypeMismatch | ReasonMissingSubject | ReasonError
  {
    predicate IsFallback() {
      ReasonFlagNotFound? || ReasonTypeMismatch? || ReasonMissingSubject? || ReasonError?
    }
  }

  datatype Result = Result(value: Value, reason: Reason, ruleID: string, bucket: int, generation: int)

  const NO_BUCKET := -1

  /** What the engine sees of a snapshot; a present key may still hold a nil flag. */
  datatype SnapshotView = SnapshotView(generation: int, flags: map<string, Option<Flag>>)

  /** The two plug points: the bucket key strategy and the hasher. */
  datatype Engine = Engine(strategy: (Flag, EvalContext) -> Option<string>, hasher: string -> int)

  /** The shipped engine over a given 64-bit hash. */
  function DefaultEngine(hash: string -> Word64): Engine {
    Engine((f, ctx) => NamespaceKey(f, ctx), key => Reduce(hash(key)))
  }

  function Fallback(def: Value, reason: Reason, generation: int): Result {
    Result(def, reason, "", NO_BUCKET, generation)
  }

  /** The type check on the resolved value, made on every configured path. */
  function Finish(flag: Flag, res: Result, def: Value): Result {
    if res.value.Type() != flag.typ then Result(def, ReasonTypeMismatch, "", res.bucket, res.generation)
    else res
  }

  /** The first matching rule at or after `i`, or the length of the list. */
  function FirstMatch(rules: seq<Rule>, ctx: EvalContext, i: nat := 0): (m: nat)
    requires i <= |rules|
    ensures i <= m <= |rules|
    ensures m < |rules| ==> RuleMatches(rules[m], ctx)
    ensures forall j | i <= j < m :: !RuleMatches(rules[j], ctx)
    decreases |rules| - i
  {
    if i == |rules| || RuleMatches(rules[i], ctx) then i else FirstMatch(rules, ctx, i + 1)
  }

  function EvaluateRollout(e: Engine, flag: Flag, ctx: EvalContext, def: Value, gen: int): Result
    requires flag.rollout.Some?
  {
    match e.strategy(flag, ctx)
    case None => Fallback(def, ReasonMissingSubject, gen)
    case Some(key) =>
      var bucket := e.hasher(key);
      var r := flag.rollout.value;
      if bucket < 0 || bucket >= BUCKET_SPACE then Fallback(def, ReasonError, gen)
      else if bucket < r.basisPoints then
        Finish(flag, Result(r.onValue, ReasonRolloutIn, "", bucket, gen), def)
      else Finish(flag, Result(r.offValue, ReasonRolloutOut, "", bucket, gen), def)
  }

  function EvaluateFlag(e: Engine, flag: Flag, ctx: EvalContext, def: Value, gen: int): Result {
    if !flag.enabled then
      Finish(flag, Result(flag.offValue, ReasonDisabled, "", NO_BUCKET, gen), def)
    else
      var m := FirstMatch(flag.rules, ctx);
      if m < |flag.rules| then
        var r := flag.rules[m];
        Finish(flag, Result(r.value, ReasonRuleMatch, r.id, NO_BUCKET, gen), def)
      else if flag.rollout.Some? then EvaluateRollout(e, flag, ctx, def, gen)
      else Finish(flag, Result(flag.defaultValue, ReasonFallthrough, "", NO_BUCKET, gen), def)
  }

  /** The outcome of one evaluation, in the order of the engine's stages. */
  function Outcome(e: Engine, snap: Option<SnapshotView>, key: string, ctx: EvalContext,
                   want: ValueType, def: Value): Result
  {
    match snap
    case None => Fallback(def, ReasonError, 0)
    case Some(s) =>
      if key !in s.flags then Fallback(def, ReasonFlagNotFound, s.generation)
      else if s.flags[key].None? then Fallback(def, ReasonError, s.generation)
      else
        var flag := s.flags[key].value;
        if want != TypeUnknown && want != flag.typ then
          Fallback(def, ReasonTypeMismatch, s.generation)
        else EvaluateFlag(e, flag, ctx, def, s.generation)
  }

  /** Evaluates one flag; `observed` is what the condition observer is told. */
  method Evaluate(e: Engine, snap: Option<SnapshotView>, key: string, ctx: EvalContext,
                  want: ValueType, def: Value)
    returns (res: Result, observed: seq<Observation>)
    ensures res == Outcome(e, snap, key, ctx, want, def)
    ensures res.reason != ReasonUnknown
    ensures snap.Some? && key in snap.value.flags && snap.value.flags[key].Some? ==>
              var f := snap.value.flags[key].value;
              WellFormed(f) && (want == TypeUnknown || want == f.typ) ==>
                && (res.reason == ReasonDisabled <==> !f.enabled)
                && (res.reason == ReasonDisabled ==> res.value == f.offValue)
                && (res.reason == ReasonRuleMatch ==>
                      exists i :: IsFirstMatch(f.rules, ctx, i)
                        && res.value == f.rules[i].value && res.ruleID == f.rules[i].id)
                && (res.reason == ReasonFallthrough ==> res.value == f.defaultValue)
    ensures Serves(snap, key) && WellFormed(snap.value.flags[key].value) ==>
              forall o | o in observed :: !o.outcome.TriBadOp?
  {
    res, observed := Fallback(def, ReasonError, 0), [];
    if Serves(snap, key) && WellFormed(snap.value.flags[key].value) {
      StagesAnswerExactly(e, snap.value.flags[key].value, ctx, def, snap.value.generation);
    }
    if snap.None? {
      return;
    }
    var gen := snap.value.generation;
    res := res.(generation := gen);
    if key !in snap.value.flags {
      return Fallback(def, ReasonFlagNotFound, gen), [];
    }
    if snap.value.flags[key].None? {
      return Fallback(def, ReasonError, gen), [];
    }
    var flag := snap.value.flags[key].value;
    if want != TypeUnknown && want != flag.typ {
      return Fallback(def, ReasonTypeMismatch, gen), [];
    }
    if !flag.enabled {
      return Finish(flag, Result(flag.offValue, ReasonDisabled, "", NO_BUCKET, gen), def), [];
    }
    for i := 0 to |flag.rules|
      invariant FirstMatch(flag.rules, ctx) == FirstMatch(flag.rules, ctx, i)
      invariant WellFormed(flag) ==> forall o | o in observed :: !o.outcome.TriBadOp?
    {
      var rule := flag.rules[i];
      var matched, seen, consulted := MatchRule(flag.key, Some(rule), ctx);
      if WellFormed(flag) {
        assert WellFormedRule(rule, flag.typ);
        WellFormedObservations(flag.key, rule, ctx, consulted);
      }
      observed := observed + seen;
      if matched {
        res := Finish(flag, Result(rule.value, ReasonRuleMatch, rule.id, NO_BUCKET, gen), def);
        return;
      }
    }
    if flag.rollout.Some? {
      var bkey := e.strategy(flag, ctx);
      if bkey.None? {
        return Fallback(def, ReasonMissingSubject, gen), observed;
      }
      var bucket := e.hasher(bkey.value);
      if bucket < 0 || bucket >= BUCKET_SPACE {
        return Fallback(def, ReasonError, gen), observed;
      }
      if bucket < flag.rollout.value.basisPoints {
        res := Finish(flag, Result(flag.rollout.value.onValue, ReasonRolloutIn, "", bucket, gen), def);
        return;
      }
      res := Finish(flag, Result(flag.rollout.value.offValue, ReasonRolloutOut, "", bucket, gen), def);
      return;
    }
    res := Finish(flag, Result(flag.defaultValue, ReasonFallthrough, "", NO_BUCKET, gen), def);
  }

  predicate Serves(snap: Option<SnapshotView>, key: string) {
    snap.Some? && key in snap.value.flags && snap.value.flags[key].Some?
  }

  // ---- Properties ------------------------------------------------------------------

  ghost predicate AllWellFormed(s: SnapshotView) {
    forall k | k in s.flags :: s.flags[k].Some? && WellFormed(s.flags[k].value)
  }

  /** Rule `i` matches and none before it does. */
  ghost predicate IsFirstMatch(rules: seq<Rule>, ctx: EvalContext, i: int) {
    0 <= i < |rules| && RuleMatches(rules[i], ctx) && forall j | 0 <= j < i :: !RuleMatches(rules[j], ctx)
  }

  /**
   * Which stage answers on a validated flag, and the whole answer it gives, whatever strategy
   * and hasher are plugged in: the off value of a disabled flag, else the first matching
   * rule's value and id, else the side of the rollout the bucket falls on, else the default.
   */
  lemma StagesAnswerExactly(e: Engine, f: Flag, ctx: EvalContext, def: Value, gen: int)
    requires WellFormed(f)
    ensures var res := EvaluateFlag(e, f, ctx, def, gen);
            var unmatched := f.enabled && forall r | r in f.rules :: !RuleMatches(r, ctx);
            && (res.reason == ReasonDisabled <==> !f.enabled)
            && (!f.enabled ==> res == Result(f.offValue, ReasonDisabled, "", -1, gen))
            && (res.reason == ReasonRuleMatch <==> f.enabled && exists r | r in f.rules :: RuleMatches(r, ctx))
            && (forall i | f.enabled && IsFirstMatch(f.rules, ctx, i) ::
                  res == Result(f.rules[i].value, ReasonRuleMatch, f.rules[i].id, -1, gen))
            && (res.reason == ReasonRuleMatch ==> exists i :: IsFirstMatch(f.rules, ctx, i))
            && (res.reason == ReasonFallthrough <==> unmatched && f.rollout.None?)
            && (unmatched && f.rollout.None? ==> res == Result(f.defaultValue, ReasonFallthrough, "", -1, gen))
            && (unmatched && f.rollout.Some? ==>
                  match e.strategy(f, ctx)
                  case None => res == Result(def, ReasonMissingSubject, "", -1, gen)
                  case Some(key) =>
                    var bucket, r := e.hasher(key), f.rollout.value;
                    if 0 <= bucket < r.basisPoints && bucket < 10000 then
                      res == Result(r.onValue, ReasonRolloutIn, "", bucket, gen)
                    else if r.basisPoints <= bucket < 10000 then
                      res == Result(r.offValue, ReasonRolloutOut, "", bucket, gen)
                    else res == Result(def, ReasonError, "", -1, gen))
  {
    var m := FirstMatch(f.rules, ctx);
    if m < |f.rules| {
      assert f.rules[m] in f.rules && IsFirstMatch(f.rules, ctx, m);
    }
  }

  /** Requests the engine cannot serve get the caller's default, with the reason why. */
  lemma RefusalsAreExact(e: Engine, snap: Option<SnapshotView>, key: string, ctx: EvalContext,
                         want: ValueType, def: Value)
    ensures var res := Outcome(e, snap, key, ctx, want, def);
            && (snap.None? ==> res == Result(def, ReasonError, "", -1, 0))
            && (snap.Some? && key !in snap.value.flags ==>
                  res == Result(def, ReasonFlagNotFound, "", -1, snap.value.generation))
            && (snap.Some? && key in snap.value.flags && snap.value.flags[key].None? ==>
                  res == Result(def, ReasonError, "", -1, snap.value.generation))
            && (snap.Some? && key in snap.value.flags && snap.value.flags[key].Some? ==>
                  res == if want != TypeUnknown && want != snap.value.flags[key].value.typ then
                           Result(def, ReasonTypeMismatch, "", -1, snap.value.generation)
                         else EvaluateFlag(e, snap.value.flags[key].value, ctx, def, snap.value.generation))
  {
  }

  /** On any flag, mistyped ones too, a configured value leaves the engine with the flag's type only. */
  lemma MistypedValuesAreRefused(e: Engine, f: Flag, ctx: EvalContext, def: Value, gen: int)
    ensures var res := EvaluateFlag(e, f, ctx, def, gen);
            && (res.reason.IsFallback() ==> res.value == def && res.ruleID == "")
            && (!res.reason.IsFallback() ==> res.value.Type() == f.typ)
            && (!f.enabled && f.offValue.Type() != f.typ ==> res == Result(def, ReasonTypeMismatch, "", -1, gen))
            && (f.enabled && f.rules == [] && f.rollout.None? && f.defaultValue.Type() != f.typ ==>
                  res == Result(def, ReasonTypeMismatch, "", -1, gen))
            && (f.enabled && f.rules == [] && f.rollout.Some? && res.reason == ReasonTypeMismatch ==>
                  e.strategy(f, ctx).Some? && res.bucket == e.hasher(e.strategy(f, ctx).value))
  {
  }

  /** The values an operator wrote on a flag. */
  ghost function ConfiguredValues(f: Flag): set<Value> {
    {f.defaultValue, f.offValue}
    + (set r | r in f.rules :: r.value)
    + (if f.rollout.Some? then {f.rollout.value.onValue, f.rollout.value.offValue} else {})
  }

  /** On a validated flag every stage answers with a configured value, or lacks a subject. */
  lemma ValidatedFlagResolves(hash: string -> Word64, f: Flag, ctx: EvalContext, def: Value, gen: int)
    requires WellFormed(f)
    ensures var res := EvaluateFlag(DefaultEngine(hash), f, ctx, def, gen);
            && res.generation == gen
            && res.reason in {ReasonDisabled, ReasonRuleMatch, ReasonRolloutIn, ReasonRolloutOut,
                              ReasonFallthrough, ReasonMissingSubject}
            && (res.reason == ReasonMissingSubject ==> res.value == def)
            && (res.reason != ReasonMissingSubject ==>
                  res.value in ConfiguredValues(f) && res.value.Type() == f.typ)
  {
    var m := FirstMatch(f.rules, ctx);
    if m < |f.rules| {
      assert f.rules[m] in f.rules;
    } else if f.rollout.Some? && NamespaceKey(f, ctx).Some? {
      ReduceIsExact(hash(NamespaceKey(f, ctx).value));
    }
  }

  /**
   * On validated flags the shipped engine never fails: no ERROR; TYPE_MISMATCH only for a
   * wrong request; a fallback reason returns the caller's default and any other reason
   * a configured value of the flag's own type.
   */
  lemma ValidatedFlagsEvaluate(hash: string -> Word64, s: SnapshotView, key: string,
                               ctx: EvalContext, want: ValueType, def: Value)
    requires AllWellFormed(s)
    ensures var res := Outcome(DefaultEngine(hash), Some(s), key, ctx, want, def);
            && res.generation == s.generation
            && !res.reason.ReasonError? && !res.reason.ReasonUnknown?
            && (res.reason == ReasonFlagNotFound <==> key !in s.flags)
            && (res.reason == ReasonTypeMismatch <==>
                  key in s.flags && want != TypeUnknown && want != s.flags[key].value.typ)
            && (res.reason.IsFallback() ==> res.value == def)
            && (!res.reason.IsFallback() ==>
                  && res.value in ConfiguredValues(s.flags[key].value)
                  && res.value.Type() == s.flags[key].value.typ)
  {
    if key in s.flags {
      ValidatedFlagResolves(hash, s.flags[key].value, ctx, def, s.generation);
    }
  }

  /** Which stage answers, and with what, on a validated enabled flag. */
  lemma StagesAreExclusive(hash: string -> Word64, f: Flag, ctx: EvalContext, def: Value, gen: int)
    requires WellFormed(f) && f.enabled
    ensures var res := EvaluateFlag(DefaultEngine(hash), f, ctx, def, gen);
            var matches := exists r | r in f.rules :: RuleMatches(r, ctx);
            && (res.reason == ReasonRuleMatch <==> matches)
            && (res.reason == ReasonFallthrough <==> !matches && f.rollout.None?)
            && (res.reason == ReasonMissingSubject <==>
                  !matches && f.rollout.Some? && Subject(f, ctx).None?)
            && (res.bucket != NO_BUCKET <==> res.reason in {ReasonRolloutIn, ReasonRolloutOut})
            && (res.reason == ReasonRolloutIn ==>
                  0 <= res.bucket < f.rollout.value.basisPoints && res.value == f.rollout.value.onValue)
            && (res.reason == ReasonRolloutOut ==>
                  && f.rollout.value.basisPoints <= res.bucket < BUCKET_SPACE
                  && res.value == f.rollout.value.offValue)
  {
    var m := FirstMatch(f.rules, ctx);
    if m < |f.rules| {
      assert f.rules[m] in f.rules;
    } else if f.rollout.Some? && NamespaceKey(f, ctx).Some? {
      ReduceIsExact(hash(NamespaceKey(f, ctx).value));
    }
  }

  /**
   * The shipped engine end to end, for a subject no rule matches: it is enrolled exactly when
   * the high word of the hash of its length-prefixed key is below ceil(bp * 2^32 / 10000).
   */
  lemma ShippedEnrolmentIsExact(hash: string -> Word64, f: Flag, ctx: EvalContext, def: Value, gen: int)
    requires WellFormed(f) && f.enabled && f.rollout.Some? && forall r | r in f.rules :: !RuleMatches(r, ctx)
    ensures var res, r := EvaluateFlag(DefaultEngine(hash), f, ctx, def, gen), f.rollout.value;
            match Subject(f, ctx)
            case None => res.reason == ReasonMissingSubject && res.value == def
            case Some(subject) =>
              var high := hash(Numeral(|Namespace(f)|) + [':'] + (Namespace(f) + [':'] + subject)) / TWO_32;
              && (res.reason == ReasonRolloutIn <==> high < (r.basisPoints * TWO_32 + 9999) / 10000)
              && (res.reason == ReasonRolloutOut <==> high >= (r.basisPoints * TWO_32 + 9999) / 10000)
              && res.value == (if res.reason == ReasonRolloutIn then r.onValue else r.offValue)
              && res.bucket == high * 10000 / TWO_32
  {
    StagesAnswerExactly(DefaultEngine(hash), f, ctx, def, gen);
    if Subject(f, ctx).Some? {
      var h := hash(NamespaceKey(f, ctx).value);
      ReduceIsExact(h);
      BucketIsAnInterval(h / TWO_32, f.rollout.value.basisPoints);
    }
  }
}
