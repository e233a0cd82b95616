// pkg/client/client.go: the read path, one flag at a time and in batches.
module Batch {
  import opened Core
  import opened Evaluator
  import opened Updater
  import opened ClientObject

  datatype Request = Request(flag: string, def: Value, ctx: EvalContext)

  /** An evaluation engine behind the client: the shipped one, or any a caller plugs in. */
  type Evaluation = (SnapshotView, string, EvalContext, ValueType, Value) -> Result

  /** The shipped engine over its own two plug points. */
  function Shipped(e: Engine): Evaluation {
    (snap, key, ctx, want, def) => Outcome(e, Some(snap), key, ctx, want, def)
  }

  /** One answer from one pinned entry; no entry is the uninitialized client. */
  function Answer(ev: Evaluation, e: Option<Entry>, req: Request): Result {
    if e.None? then Fallback(req.def, ReasonError, 0)
    else
      var res := ev(e.value.snap, req.flag, req.ctx, req.def.Type(), req.def);
      var stamped := if res.generation == 0 then res.(generation := e.value.gen) else res;
      if stamped.reason.ReasonUnknown? then Result(req.def, ReasonError, "", res.bucket, stamped.generation)
      else stamped
  }

  /**
   * Evaluates a batch into `dst` where it fits, else into a new array. `others` are updates
   * that land while the batch runs, one before each element: no answer sees them, because
   * the entry is pinned once. Every answer is the engine's own on that entry, asked for the
   * type of the caller's default; a missing generation is filled in, a missing reason is an
   * error, and without an entry the caller's default is all there is.
   */
  method BatchAppend(c: Client, ev: Evaluation, dst: array<Result>, reqs: seq<Request>, others: seq<Update>)
    returns (out: array<Result>)
    requires |others| == |reqs|
    modifies c, dst
    ensures if dst.Length >= |reqs| then out == dst else fresh(out) && out.Length == |reqs|
    ensures old(c.l1).None? ==>
              forall i | 0 <= i < |reqs| :: out[i] == Result(reqs[i].def, ReasonError, "", -1, 0)
    ensures old(c.l1).Some? ==>
              forall i | 0 <= i < |reqs| ::
                var e, req := old(c.l1).value, reqs[i];
                var own := ev(e.snap, req.flag, req.ctx, req.def.Type(), req.def);
                && (own.reason != ReasonUnknown ==>
                      && out[i].value == own.value && out[i].reason == own.reason
                      && out[i].ruleID == own.ruleID && out[i].bucket == own.bucket)
                && (own.reason == ReasonUnknown ==>
                      && out[i].value == req.def && out[i].reason == ReasonError
                      && out[i].ruleID == "" && out[i].bucket == own.bucket)
                && out[i].generation == (if own.generation == 0 then e.gen else own.generation)
    ensures forall k | 0 <= k < dst.Length && (out != dst || |reqs| <= k) :: dst[k] == old(dst[k])
  {
    out := Answers(c, ev, dst, reqs, others);
  }

  method Answers(c: Client, ev: Evaluation, dst: array<Result>, reqs: seq<Request>, others: seq<Update>)
    returns (out: array<Result>)
    requires |others| == |reqs|
    modifies c, dst
    ensures if dst.Length >= |reqs| then out == dst else fresh(out) && out.Length == |reqs|
    ensures forall i | 0 <= i < |reqs| :: out[i] == Answer(ev, old(c.l1), reqs[i])
    ensures forall k | 0 <= k < dst.Length && (out != dst || |reqs| <= k) :: dst[k] == old(dst[k])
  {
    if dst.Length >= |reqs| {
      out := dst;
    } else {
      out := new Result[|reqs|](_ => Fallback(Unset, ReasonError, 0));
    }
    for i := 0 to |reqs|
      invariant c.l1 == old(c.l1)
      invariant forall k | 0 <= k < dst.Length && (out != dst || |reqs| <= k) :: dst[k] == old(dst[k])
    {
      out[i] := Fallback(reqs[i].def, ReasonError, 0);
    }
    var e := c.l1;
    for i := 0 to |reqs|
      invariant forall k | 0 <= k < dst.Length && (out != dst || |reqs| <= k) :: dst[k] == old(dst[k])
      invariant forall k | 0 <= k < i :: out[k] == Answer(ev, e, reqs[k])
    {
      c.ApplyUpdate(others[i]);
      out[i] := Answer(ev, e, reqs[i]);
    }
  }

  // ---- What a caller may rely on ---------------------------------------------------

  /** The metadata published with a snapshot is the snapshot's own. */
  predicate Coherent(e: Option<Entry>) { e.Some? ==> e.value.gen == e.value.snap.generation }

  lemma {:induction false} EntriesAreCoherent(disk: Option<SnapshotView>, events: seq<Event>)
    ensures Coherent(Run(disk, events).l1)
  {
    if events != [] {
      EntriesAreCoherent(disk, events[..|events| - 1]);
    }
  }

  /**
   * Whatever has been applied when a batch starts, every answer in it is of one generation:
   * the one then held.
   */
  lemma BatchesAreOfOneGeneration(disk: Option<SnapshotView>, events: seq<Event>, engine: Engine, req: Request)
    ensures var e := Run(disk, events).l1; Answer(Shipped(engine), e, req).generation == HeldGeneration(e)
  {
    EntriesAreCoherent(disk, events);
  }

  /** An answer has the type asked for, whatever the snapshot holds and the engine plugs in. */
  lemma AnswersHaveTheTypeAsked(engine: Engine, e: Option<Entry>, req: Request)
    requires req.def.Type() != TypeUnknown
    ensures var res := Answer(Shipped(engine), e, req);
            && res.value.Type() == req.def.Type()
            && !res.reason.ReasonUnknown?
            && (res.reason.IsFallback() ==> res.value == req.def)
  {
  }

  /**
   * What a caller gets from the shipped engine for a validated flag it asks for by its own
   * type: the engine's answer for that flag, stamped with the generation held.
   */
  lemma AnswersAreTheEngines(disk: Option<SnapshotView>, events: seq<Event>, engine: Engine, req: Request)
    requires var e := Run(disk, events).l1;
             e.Some? && Serves(Some(e.value.snap), req.flag) && WellFormed(e.value.snap.flags[req.flag].value)
    requires req.def.Type() == Run(disk, events).l1.value.snap.flags[req.flag].value.typ
    ensures var e := Run(disk, events).l1.value;
            var f := e.snap.flags[req.flag].value;
            var res := Answer(Shipped(engine), Some(e), req);
            && (!f.enabled ==> res == Result(f.offValue, ReasonDisabled, "", -1, e.gen))
            && (f.enabled && f.rules == [] && f.rollout.None? ==>
                  res == Result(f.defaultValue, ReasonFallthrough, "", -1, e.gen))
            && (forall i | f.enabled && IsFirstMatch(f.rules, req.ctx, i) ::
                  res == Result(f.rules[i].value, ReasonRuleMatch, f.rules[i].id, -1, e.gen))
  {
    var e := Run(disk, events).l1.value;
    EntriesAreCoherent(disk, events);
    StagesAnswerExactly(engine, e.snap.flags[req.flag].value, req.ctx, req.def, e.snap.generation);
    RefusalsAreExact(engine, Some(e.snap), req.flag, req.ctx, req.def.Type(), req.def);
  }
}
