# A verified model of the feature flag service

This project models the parts of the feature flag service that decide what a flag is worth:
the configuration store that merges three layers per environment and publishes snapshots, the
evaluation engine with its bucketing and its SemVer comparison, and the client's concurrent
update path. `dafny verify dfyconfig.toml` checks all of it.

How the files fit together:

- `Core`, `Strings`, `Decimal`, `Semver`, `Bucket`, `Matcher`, `Evaluator`: the engine. A Go
  string is a byte string, and one Dafny `char` stands for one byte.
- `Layers`, `Merge`, `Resolver`: the layers as they arrive, what merging them must produce,
  and the code that does it in place on freshly allocated objects.
- `Validate`, `Validators`: what each validation rule means, and the loops that report
  exactly the broken ones.
- `Build`, `StoreRuns`: one build of one environment key by key, and the store as a state
  machine with what holds over every run of it.
- `Snapshots`, `Builder`, `Store`, `Orders`: the builder, the loops of a build, and the store
  object, proved to take exactly the steps of the state machine and never to write an object
  a published snapshot holds.
- `Notify`: subscription and fan-out as interleaved channel operations.
- `AsyncWriter`, `LogLimiter`, `Updater`, `ClientObject`, `Backoff`, `EnvName`, `Codec`,
  `Batch`: the client.

Concurrent code is modelled as a step function over interleaved events. A run is any sequence
of events, and an event that is not enabled leaves the state alone, so a statement about all
event sequences is one about all interleavings. The clock, the jitter and the 64-bit hash are
inputs.

Where the code and its documentation differ, the code is followed:

- The bucket key is documented elsewhere in the repository as the namespace, a 0x1F byte and
  the subject. The code writes a length-prefixed pair, and that is what is modelled.
- The applied-generation rule is documented as "at least what we hold"; an equal generation is
  applied only over a disk entry, and `Updater.Accepts` follows that.
- A comment puts the relative bias between buckets below 2.4e-9. Widths of 429496 and 429497 high
  words, as `Bucket.BucketWidth` has them, differ by about 2.3e-6 of a bucket.
- The backoff window is documented as `min(maxDelay, base*2^attempt)`. The shift wraps for
  bases of 8.59 s and more; `Backoff.Window` says exactly when the two agree.
- A serving state is documented to imply real config. `Updater.ServingNothingIsExact` says
  exactly which frame breaks that.

## Model

| member | source | states |
|---|---|---|
| `StoreRuns.EveryRunIsOk` | `internal/config/store.go:258-325` | After any run of Set, Rebuild and Subscribe, from any set of environments, every flag of every current snapshot, carried ones included, is well formed and sits at its own legal key, and the counter is the generation served |
| `StoreRuns.StepKeepsStateOk` | `internal/config/store.go:396-584` | The inductive step: one operation keeps every stored layer and every slot sound |
| `StoreRuns.StepIsIsolated` | `internal/config/store.go:258-311` | An operation turns an environment's slot into the build from the layers held afterwards, publication included when the build is acceptable, if the operation belongs there, and leaves it as it is otherwise: an overlay or ops write never touches another environment, a rejected base touches none |
| `StoreRuns.StepHoldsTheLayer` | `internal/config/store.go:258-325` | What each operation leaves held: an accepted base becomes the base, a named sparse layer the one of its environment, which becomes known; nothing else moves a layer |
| `StoreRuns.TheLastLayersAreHeld` | `internal/config/store.go:258-325` | Over any run the base held is the last accepted one handed to Set, and the overlay and the ops layer held for an environment are the last ones handed in for it; before the first there is none |
| `StoreRuns.WritesBuildWhereTheyBelong` | `internal/config/store.go:258-325` | Operation by operation: an accepted base and a rebuild build every known environment from it and the sparse layers held, a named sparse layer its own environment, and nothing else builds any |
| `StoreRuns.AnAcceptedBaseIsServed` | `internal/config/store.go:266-284` | After an accepted base, an environment that publishes and whose sparse layers do not mention a flag serves what its base entry alone merges to |
| `StoreRuns.ASoundBaseIsPublished` | `internal/config/store.go:266-284` | Without sparse layers an accepted base of at most 20000 flags that all merge to well-formed ones is always published, whole, as the next generation, with nothing quarantined |
| `StoreRuns.AnOverrideIsServed` | `internal/config/store.go:296-304` | An override handed in for an environment that then publishes is served on its flag, switch included |
| `StoreRuns.RebuildingAgainChangesNothing` | `internal/config/store.go:541-572` | A second rebuild at the same time publishes where the first did, the next generation with the same content, and nowhere else |
| `StoreRuns.GenerationsCountPublications` | `internal/config/store.go:541-572` | The counter is the current snapshot's generation, 0 if there is none, and moves by one exactly on publication |
| `StoreRuns.UntouchedEnvironmentsKeepServing` | `internal/config/store.go:258-311` | Over a whole run, an environment no operation belongs to keeps the same slot |
| `StoreRuns.CarriedOrMerged` | `internal/config/store.go:464-495` | A flag served after a step was served before it, unchanged, or that step merged it |
| `StoreRuns.EveryServedFlagWasMerged` | `internal/config/store.go:464-495` | However long it has been carried, every served flag is the merge some accepted build of the run made |
| `StoreRuns.PublishedSnapshotsEvaluate` | `internal/core/evaluator.go:105-262` | On any snapshot any run publishes, the shipped engine never answers ERROR; TYPE_MISMATCH means the wrong type was asked for, FLAG_NOT_FOUND that the key is absent; fallback reasons return the caller default, and any other reason a value of the flag's type that its operator configured |
| `StoreRuns.PublishedConditionsAreDecidable` | `internal/core/matcher.go:133-172` | No condition of any flag any run publishes is ever decided as a bad operator, on any context |
| `StoreRuns.AFirstFlagIsServed` | `internal/config/store.go:258-284` | A new store handed one boolean flag serves it as generation one, and the shipped engine answers its default when it is enabled and its off value when it is not |
| `StoreRuns.AFirstRuleIsServed` | `internal/config/store.go:258-284` | The same with a rule "age gt 18" in the document: the answer is the rule's exactly above 18 |
| `Build.BuildKeepsSlotOk` | `internal/config/store.go:396-584` | A build from an accepted base keeps a sound slot sound |
| `Build.AcceptedIsWellFormed` | `internal/config/validate.go:538-625` | What a build merges anew is a well-formed flag under its own legal key |
| `Build.PublishedContentsAreExact` | `internal/config/store.go:464-545` | Key by key, a published snapshot holds the merge of an unquarantined base flag, exactly the previous snapshot's version (or nothing) for a quarantined key, and no key outside the base, the overlay and the unexpired overrides; what is published is within both size limits |
| `Build.BaseFlagsResolveExactly` | `internal/config/store.go:475-495` | A base flag is published as the merge of itself, the last overlay entry and the last unexpired override for its key exactly when pass 1 has nothing against what the layers say of the key, the merge is well formed, and a throttle has a rollout; otherwise it is quarantined |
| `Build.OrphansResolveExactly` | `internal/config/store.go:497-518` | A key the base does not have is quarantined if an overlay entry or an unexpired override names it, else it does not exist |
| `Build.PublicationIsExact` | `internal/config/store.go:438-537` | A build publishes exactly when its layers are named, at most 20000 flags are served, and at most 20 keys or 5% of the base flags are quarantined |
| `Build.PublishedHeader` | `internal/config/store.go:541-545` | Environment, next generation and clock; records beside flags; a quarantined key that is served carries its previous record |
| `Build.CleanLayersPublish` | `internal/config/store.go:454-545` | A base whose flags all merge cleanly, under layers that name no others, publishes all of them and quarantines nothing |
| `Build.ChangesAreSeenKeyByKey` | `internal/config/store.go:558-568` | Content is unchanged exactly when every key serves the same and is as quarantined as before |
| `Build.BuildingAgainChangesNothing` | `internal/config/store.go:541-568` | Building the same layers again at the same time publishes again, with no change of content |
| `Build.MergedOverrideIsInWindow` | `internal/config/validate.go:421-443` | An override that takes part in a merge at time t has t < expires_at <= t + 30 days |
| `Build.CleanlyExpiredHasNoEffect` | `internal/config/store.go:427-436` | A build containing an expired override that is well formed and not duplicated yields the same flags, provenance, quarantine set and publication verdict as one without it |
| `Build.ExpiredEffectIsExact` | `internal/config/store.go:427-484` | Taking an expired override with a key of its own out of a build changes the resolutions if and only if pass 1 rejects it and its flag would merge without it |
| `Build.RejectedOverridesQuarantine` | `internal/config/store.go:475-484` | Any override pass 1 rejects, an expired or a duplicated one too, quarantines its base flag |
| `Build.LastOverlay` | `internal/config/store.go:421-426` | The index keeps the last entry for a key: the one found has no later entry for the key, and none is found only when there is none |
| `Build.LastOps` | `internal/config/store.go:427-436` | The same among the unexpired entries for the key |
| `Store.Store.constructor` | `internal/config/store.go:157-185` | A new store is valid and its state is the initial one: the named environments, empty names skipped, nothing published |
| `Store.Store.Set` | `internal/config/store.go:258-311` | The new state is the specified step of the old one and the layer given is the one held afterwards unless it is refused; the report describes every environment it names; an environment with no result, or whose build did not publish, keeps its slot object and its snapshot object, and a refused layer moves no pointer; every snapshot ever published still holds exactly what it held, and no two of them share a flag, a list or a rollout |
| `Store.Store.SetBase` | `internal/config/store.go:266-284` | A base write stores the base and rebuilds every environment, or, when the base has a rejection, changes nothing but the forensic copy and moves no snapshot pointer; the report says which, and an environment whose build did not publish keeps its pointer |
| `Store.Store.SetOverlay` | `internal/config/store.go:286-295` | An overlay is stored under its environment before it is judged and builds that environment only: every other one keeps its slot object and snapshot pointer; a nameless one is refused with a finding, stored nowhere and kept for forensics |
| `Store.Store.SetOps` | `internal/config/store.go:296-304` | The same for an ops layer |
| `Store.Store.Rebuild` | `internal/config/store.go:315-325` | Every environment is rebuilt from the layers held, the report describes each, and one whose build did not publish keeps its snapshot pointer |
| `Store.Store.RebuildAll` | `internal/config/store.go:282-284` | The loop over the environments ends with exactly the simultaneous build of all of them, and moves no pointer of an environment that did not publish |
| `Store.Store.BuildEnv` | `internal/config/store.go:396-584` | One locked build: the slot becomes exactly what the specification says, everything published before stays intact, a build that does not publish keeps the very same snapshot object, and the result record tells published, content change, generations, rejections and quarantine truthfully |
| `Store.Store.EnsureEnv` | `internal/config/store.go:361-378` | An unknown environment gets an empty slot of its own; every known one keeps its slot object and its snapshot pointer |
| `Store.Store.StatusAll` | `internal/config/store.go:381-390` | Status without a rebuild reports each environment as it is |
| `Store.Store.Get` | `internal/config/store.go:192-206` | Get finds a flag exactly when the current snapshot serves it, and the object it returns holds that flag |
| `Store.Changed` | `internal/config/store.go:574-577` | Content changed unless the flag maps and the quarantine sets are equal |
| `Store.ResultsTellTheTruth` | `internal/config/store.go:541-572` | What a result says of two states of a slot: published, both generations, the quarantined keys, and a content change exactly when some key serves differently or is differently quarantined |
| `Store.BaseRejections` | `internal/config/store.go:267-268` | The base validator's findings contain a rejection exactly when the base is not acceptable |
| `Builder.Assemble` | `internal/config/store.go:454-520` | The two loops, over the base and over the orphans, leave the builder holding exactly what the resolution of each key calls for, in objects allocated by this build, and report findings for exactly the quarantined keys |
| `Builder.BuildSnapshot` | `internal/config/store.go:396-568` | A build yields a fresh snapshot exactly when nothing stops the environment, and then exactly the specified one; otherwise exactly the reasons that stop it; its warnings are exactly the ones about the ops layer |
| `Builder.BuildFlag` | `internal/config/store.go:475-495` | One base flag: carried when pass 1 or pass 2 rejects it, else merged and added |
| `Builder.Judge` | `internal/config/store.go:475-495` | The verdict on one base flag is the specified resolution, with at least one rejecting finding exactly when it is quarantined |
| `Builder.Carry` | `internal/config/store.go:464-473` | A quarantined key keeps its previous version as a deep copy, or is only counted when there is none |
| `Builder.BuildOrphans` | `internal/config/store.go:515-518` | Every orphan is carried and reported |
| `Builder.Orphans` | `internal/config/store.go:497-514` | An orphan is a key an overlay or an unexpired override names and the base does not; the overlay is charged first |
| `Builder.PreFindings` | `internal/config/store.go:478-484` | Pass 1 findings against a flag exist exactly when a sparse layer breaks a rejecting rule on it |
| `Builder.PostFindings` | `internal/config/store.go:487-493` | Pass 2 rejections exist exactly when the merged flag breaks a post-merge rule |
| `Builder.IndexOverlay` | `internal/config/store.go:421-426` | The map built by the loop finds exactly the last entry per key |
| `Builder.IndexOps` | `internal/config/store.go:427-436` | The map built by the loop finds exactly the last unexpired entry per key |
| `Builder.Guards` | `internal/config/store.go:522-537` | The environment is stopped exactly when it has more than 20000 flags or more quarantined keys than the budget |
| `Builder.NamelessRejections` | `internal/config/store.go:438-452` | A layer without an environment name, and nothing else in pass 1, stops the environment |
| `Builder.Rejections` | `internal/config/validate.go:142-144` | Keeps exactly the blocking findings, in their order and as often as they occur |
| `Builder.Warns` | `internal/config/validate.go:147-149` | Keeps exactly the warnings, in order |
| `Builder.ForFlag` | `internal/config/validate.go:152-154` | Keeps exactly one flag's findings, in order |
| `Snapshots.SnapshotBuilder.Add` | `internal/config/snapshot.go:137-140` | The flag and its record are stored under the flag's own key, in place of any earlier ones |
| `Snapshots.SnapshotBuilder.AddQuarantined` | `internal/config/snapshot.go:142-145` | The same, and the key is quarantined |
| `Snapshots.SnapshotBuilder.MarkQuarantined` | `internal/config/snapshot.go:149` | The key is quarantined and no flag is added |
| `Snapshots.SnapshotBuilder.Freeze` | `internal/config/snapshot.go:159-175` | The frozen snapshot holds exactly the builder's contents |
| `Snapshots.SnapshotObject.Fingerprint` | `internal/config/snapshot.go:97-111` | What is compared for a content change is the whole flag map |
| `Snapshots.StaysFrozen` | `internal/config/snapshot.go:13-29` | Writing objects outside a snapshot leaves it frozen |
| `Resolver.MergeFlag` | `internal/config/merge.go:82-219` | The layer-by-layer merge in place produces the field-by-field policy's flag and record, and every object of the result was allocated by the call |
| `Resolver.MergeOverlay` | `internal/config/merge.go:83-203` | Base and overlay alone |
| `Resolver.AllocateBase` | `internal/config/merge.go:83-116` | The base alone; an omitted off value is the default |
| `Resolver.ApplyOverlay` | `internal/config/merge.go:119-203` | Everything an overlay says, written over the base in place |
| `Resolver.OverlayRules` | `internal/config/merge.go:138-154` | Whole-list replace or append; null is the empty list; no list is shared with what was there |
| `Resolver.OverlayRolloutBlock` | `internal/config/merge.go:155-202` | Null deletes the block, a patch starts from the base block or from a fresh zero one, field by field |
| `Resolver.ApplyOps` | `internal/config/merge.go:205-216` | The switch, and the throttle where there is a rollout |
| `Resolver.OverlaidProvenanceIsMerged` | `internal/config/merge.go:119-203` | The record kept step by step is the highest layer that supplied each field |
| `Resolver.OverlaidIsMerged` | `internal/config/merge.go:119-203` | The steps an overlay takes amount to the field-by-field policy |
| `Resolver.WireRulesToCore` | `internal/config/merge.go:221-242` | The converted rules, in fresh rule, condition and value lists |
| `Layers.ConvertedRules` | `internal/config/merge.go:221-242` | A converted rule keeps id, value and every condition's attribute, operands and negation, its operator and combiner by name |
| `Layers.OperatorNames` | `internal/core/model.go:59-87` | Which text names which operator, and no other text any |
| `Layers.CombinerAndOrderNames` | `internal/config/layer.go:423-450` | Which texts name which combiner, evaluation order and value type |
| `Resolver.CloneFlag` | `internal/config/merge.go:250-277` | A deep copy: equal content, nothing shared |
| `Merge.ProvenanceIsTruthful` | `internal/config/merge.go:35-62` | Every field of a merged flag carries what the layer recorded for it says of that field: the base's own entry, the overlay's, or the override's; a deleted block is recorded as the overlay's and its fields not at all |
| `Merge.BaseAloneIsTheBase` | `internal/config/merge.go:87-116` | Without sparse layers a flag is its base entry field by field; an omitted off value, and no other, is the default |
| `Merge.OverlayMovesWhatItGives` | `internal/config/merge.go:119-154` | A field the overlay gives has the overlay's value and any other the base's; rules are replaced, appended or emptied; key and type never move |
| `Merge.OverlayPatchesTheRollout` | `internal/config/merge.go:155-202` | The rollout is left, deleted, or patched field by field, from zero when the base has none |
| `Merge.OpsHaveTheLastWord` | `internal/config/merge.go:205-216` | An override moves the switch and, where there is a rollout, its basis points, over whatever is below, and nothing else |
| `Merge.RampsAreSticky` | `internal/config/merge.go:168-215` | Two builds that differ only in an overlay basis_points patch with bp1 <= bp2, under any ops override: every context has the same bucket key and bucket, the same rule answers, and everyone enrolled at bp1 is enrolled at bp2 with the same value |
| `Merge.GrowingKeepsEnrolment` | `internal/core/evaluator.go:189-229` | Raising one flag's basis points only adds subjects |
| `Validate.PassTwoIsExact` | `internal/config/validate.go:538-625` | An accepted base flag under overlay rules pass 1 accepts passes pass 2 if and only if it merges into a well-formed flag and no ops throttle is left without a rollout |
| `Validate.WellFormedBreaksNothing` | `internal/config/validate.go:538-625` | A well-formed merge breaks no post-merge rule |
| `Validate.ValidatedRuleIsWellFormed` | `internal/config/validate.go:464-519` | A rule pass 1 accepts converts to a well-formed one: known operator, legal arity, no null operand |
| `Validate.RuleListAcceptanceIsExact` | `internal/config/validate.go:464-519` | Pass 1 accepts a rule list exactly when ids are there and distinct, combiners known, and every rule has conditions that all convert to well-formed ones |
| `Validate.BaseAcceptanceIsExact` | `internal/config/validate.go:236-287` | A base is accepted exactly when its keys are distinct and every record is complete, legally keyed, of a known type and order, with values of the type, an acceptable rule list and basis points in 0..10000; an owner may be missing |
| `Validate.OverlayAcceptanceIsExact` | `internal/config/validate.go:290-388` | Exactly which overlay entries pass 1 lets through |
| `Validate.OpsJudgementIsExact` | `internal/config/validate.go:390-452` | Exactly which override entries are refused, and which are only warned about: expired, more than 72 hours out, or setting nothing |
| `Validate.ExpiryIsExact` | `internal/config/validate.go:455-461` | An override is out of force from its expiry on |
| `Validate.KeysInFull` | `internal/config/validate.go:224` | Legal keys by example, and in length |
| `Validate.BudgetIsFivePercentOrTwenty` | `internal/config/validate.go:216-222` | The budget is 20 below 420 flags and the whole part of 5% from 400 on |
| `Validators.ValidateBase` | `internal/config/validate.go:236-287` | Reports exactly the broken base rules |
| `Validators.ValidateOverlay` | `internal/config/validate.go:290-388` | Reports exactly the broken overlay rules, and a nameless environment |
| `Validators.ValidateOps` | `internal/config/validate.go:390-452` | Reports exactly the broken override rules at this clock, and a nameless environment |
| `Validators.ValidateRuleList` | `internal/config/validate.go:464-519` | Reports exactly the broken rule-list rules; a repeated id is charged to its later use |
| `Validators.ValidateResolved` | `internal/config/validate.go:538-625` | Reports exactly the broken post-merge rules, each charged to the layer that supplied the field |
| `Validators.CheckCollision` | `internal/config/validate.go:561-573` | An appended id collides exactly when the base list has it |
| `Validators.CheckCondition` | `internal/config/validate.go:487-516` | Operator, arity and null checks on one condition, exactly |
| `Evaluator.Evaluate` | `internal/core/evaluator.go:105-262` | The loop with early returns computes the staged outcome: on a well-formed flag of the type wanted, DISABLED exactly on a disabled flag and with its off value, RULE_MATCH with the value and id of the first matching rule, FALLTHROUGH with the default; no condition it consults there is a bad operator |
| `Evaluator.StagesAnswerExactly` | `internal/core/evaluator.go:169-233` | The whole answer on a well-formed flag, for any strategy and hasher: off value, first matching rule, on or off side of the rollout by bucket < basis points, missing subject, out-of-range bucket, or default |
| `Evaluator.RefusalsAreExact` | `internal/core/evaluator.go:133-167` | No snapshot, no such flag, a nil flag and a wrong type asked for each give the caller default with their own reason; anything else is decided by the flag |
| `Evaluator.MistypedValuesAreRefused` | `internal/core/evaluator.go:236-262` | On any flag, a value that is not of the flag's type gives way to the caller default with TYPE_MISMATCH, the bucket kept |
| `Evaluator.ValidatedFlagsEvaluate` | `internal/core/evaluator.go:105-262` | On validated flags: never ERROR, TYPE_MISMATCH and FLAG_NOT_FOUND exactly when deserved, the caller default exactly on fallback reasons, otherwise a value the operator configured |
| `Evaluator.ValidatedFlagResolves` | `internal/core/evaluator.go:169-233` | Every stage of a validated flag answers with a configured value of its type, or lacks a subject |
| `Evaluator.StagesAreExclusive` | `internal/core/evaluator.go:169-232` | Which stage answers a validated enabled flag, in both directions |
| `Evaluator.ShippedEnrolmentIsExact` | `internal/core/evaluator.go:189-229` | With the shipped key and reduction, a subject no rule matches is enrolled exactly when the high word of the hash of its length-prefixed key is below ceil(bp * 2^32 / 10000) |
| `Evaluator.FirstMatch` | `internal/core/evaluator.go:175-187` | The first matching rule, with none matching before it |
| `Matcher.MatchRule` | `internal/core/matcher.go:326-355` | The loop with its short circuits decides the rule; the observer hears exactly the countable outcomes of the conditions consulted, in order |
| `Matcher.RuleMeans` | `internal/core/matcher.go:326-355` | A rule matches when all its conditions do, or under or when some condition does |
| `Matcher.PresenceMeans` | `internal/core/matcher.go:133-150` | exists is decided by presence; every other operator is undecided on a missing attribute |
| `Matcher.EqualityMeans` | `internal/core/matcher.go:181-194` | eq is decided true exactly on the same value, false on another of its type, and a type mismatch otherwise |
| `Matcher.MembershipMeans` | `internal/core/matcher.go:196-218` | in is decided true exactly on a member of the list, and is a mismatch exactly when no member has the type |
| `Matcher.ContainsMeans` | `internal/core/matcher.go:220-236` | contains is decided true exactly when the text is p + operand + q for some p and q, and on texts only |
| `Matcher.OrderingsMean` | `internal/core/matcher.go:243-265` | gt, gte, lt and lte are the integer relations, on integers only |
| `Matcher.VersionsMean` | `internal/core/matcher.go:273-299` | semver_eq, semver_gt and semver_lt are equality and the precedence of section 11 of SemVer 2.0.0, whatever the build metadata |
| `Matcher.OtherTextsAreNoVersions` | `internal/core/matcher.go:273-299` | A text that is no version leaves a semver condition undecided |
| `Matcher.NegationMeans` | `internal/core/matcher.go:116-131` | Negation turns a decided answer round; an undecided condition never matches, negated or not |
| `Matcher.OnlyMismatchesAreObserved` | `internal/core/matcher.go:350-355` | What the observer hears of is a mismatch of type, value or operator, never a missing attribute |
| `Matcher.MatchInLoop` | `internal/core/matcher.go:196-218` | The loop finds a match anywhere in the list; with none, a comparable operand makes it false and otherwise the types are bad |
| `Matcher.LosingInformationNeverMatches` | `internal/core/matcher.go:116-165` | If every attribute defined in A has the same value in B and no condition is a negated exists, a rule matching A matches B, for either combiner and any number of conditions |
| `Matcher.OnlyNegatedExistsIsNotMonotone` | `internal/core/matcher.go:116-165` | For a known operator, a condition is monotone in this sense if and only if it is not a negated exists |
| `Matcher.WellFormedNeverBadOp` | `internal/core/matcher.go:133-172` | A well-formed condition is never a bad operator |
| `Bucket.Key` | `internal/core/bucket.go:147-185` | The method builds the length-prefixed key of the namespace and the rendered subject, or none without a subject |
| `Bucket.DefaultsOfTheKey` | `internal/core/bucket.go:147-185` | Without bucket_by the subject is the user, and without a namespace the flag's own key is |
| `Bucket.ConfiguredKey` | `internal/core/bucket.go:147-185` | A configured namespace and attribute are used as they are |
| `Bucket.RenderedValues` | `internal/core/value.go:119-130` | An unset or empty value buckets nobody; texts, booleans and integers are rendered so that they read back |
| `Bucket.AKeyInFull` | `internal/core/bucket.go:147-185` | One key in full |
| `Core.ShorthandsAreAttributes` | `internal/core/evalctx.go:29-46` | The user and tenant fields are attributes of their own names, below the explicit ones, when they are not empty |
| `Bucket.DecodeOfKey` | `internal/core/bucket.go:147-185` | The namespace and the subject can be read back from the key, whatever bytes they hold |
| `Bucket.KeysAreInjective` | `internal/core/bucket.go:147-185` | Equal keys come from equal (namespace, subject) pairs |
| `Bucket.ReduceIsExact` | `internal/core/bucket.go:59-62` | The product never overflows 64 bits and the bucket is floor(hi * 10000 / 2^32), in 0..9999 |
| `Bucket.ReduceIsMonotone` | `internal/core/bucket.go:59-62` | A larger hash never lands in a smaller bucket |
| `Bucket.BucketIsAnInterval` | `internal/core/bucket.go:59-62` | Each bucket is one interval of high words |
| `Bucket.BucketWidth` | `internal/core/bucket.go:59-62` | Each bucket has 429496 or 429497 of the 2^32 high words |
| `Bucket.EnrolmentIsExact` | `internal/core/evaluator.go:218-228` | The high words enrolled at bp are exactly [0, ceil(bp * 2^32 / 10000)) |
| `Semver.ParseSemver` | `internal/core/semver.go:47-88` | The parsing code computes the specified parse, and accepts exactly the SemVer 2.0.0 versions with core numbers below 2^64 |
| `Semver.ValidDotIdentifiers` | `internal/core/semver.go:126-154` | The loop accepts exactly the dot-separated lists of legal identifiers |
| `Semver.ParseOfPrint` | `internal/core/semver.go:47-154` | A printed version, with any valid build metadata, parses to itself |
| `Semver.PrintOfParse` | `internal/core/semver.go:47-154` | An accepted text is the printed form of what it parses to |
| `Semver.ParseAcceptsExactlyTheGrammar` | `internal/core/semver.go:47-154` | The parser accepts a text if and only if it is a SemVer 2.0.0 version with core numbers below 2^64 |
| `Semver.ReparseIsIdentity` | `internal/core/semver.go:47-154` | Printing a parsed version and parsing it again gives the same version |
| `Semver.ValidIsParsed` | `internal/core/semver.go:47-154` | The versions the comparison laws speak of are exactly the ones some text parses to |
| `Semver.BuildMetadataIsIgnored` | `internal/core/semver.go:52-59` | Adding or dropping valid build metadata never changes the result |
| `Semver.CompareMeetsSection11` | `internal/core/semver.go:165-240` | On parsed versions, compare is the precedence of section 11 of SemVer 2.0.0, defined over identifier lists with unbounded integers |
| `Semver.PrecedenceLaws` | `internal/core/semver.go:165-197` | The precedence in section 11's words: core numbers first, a prerelease below its release, the first differing identifier, a longer list above its prefix |
| `Semver.IdentifierLaws` | `internal/core/semver.go:219-240` | Numeric identifiers as numbers, below the others, which go by their bytes |
| `Semver.TheExampleOfSection11` | `internal/core/semver.go:197-217` | The chain section 11.4 gives as its example |
| `Semver.AVersionInFull` | `internal/core/semver.go:47-88` | One version in full |
| `Semver.CompareIsATotalOrder` | `internal/core/semver.go:165-240` | On parsed versions, compare is total, antisymmetric and transitive, and zero exactly when triple and prerelease are equal |
| `Semver.ComparePrerelease` | `internal/core/semver.go:200-217` | The loop computes the identifier-list order |
| `Semver.CompareIdentifierMeetsSection11` | `internal/core/semver.go:219-240` | Length-then-lexical comparison of identifiers is numeric or ASCII order as section 11 asks |
| `Semver.PrereleaseOrderMeetsSection11` | `internal/core/semver.go:197-217` | The text-level recursion is the identifier-list order of section 11 |
| `Decimal.EqualLengthOrder` | `internal/core/semver.go:225-232` | Numerals of equal length compare as their numbers |
| `Decimal.LongerIsLarger` | `internal/core/semver.go:225-232` | A longer canonical numeral is the larger number, of any size |
| `Notify.StepKeepsInv` | `internal/config/store.go:631-683` | Every channel and lock operation keeps the order, lock and delivery invariants |
| `Notify.SubscribersConverge` | `internal/config/store.go:666-683` | With receivers, subscribers and cancels interleaving at every channel operation, whenever no publication is in flight the last snapshot placed in each live subscriber's channel has the content and quarantine set of the current one |
| `Notify.APublicationIsReceived` | `internal/config/store.go:631-683` | A subscriber that was there before receives what is published next, and of two publications it had no time for, the later |
| `Notify.ReceivedGenerationsNeverDecrease` | `internal/config/store.go:631-683` | No subscriber receives an older generation after a newer one, nor one not yet published |
| `Notify.InnerDefaultIsUnreachable` | `internal/config/store.go:678-682` | After the drain the second send always finds the slot empty: its default is never taken |
| `Notify.NotifyNeverBlocks` | `internal/config/store.go:666-683` | notify always has an enabled step, each of its steps leaves less to do, and no other step changes what is left |
| `Notify.ExactlyChangesAreAnnounced` | `internal/config/store.go:558-572` | A publication moves the pointer at once and is announced exactly when flags or quarantine set differ |
| `Notify.CancelledChannelsAreLeftAlone` | `internal/config/store.go:647-658` | After a cancel nothing more is ever placed in the channel, and what was there can still be received |
| `Notify.SubscribeNeverBlocks` | `internal/config/store.go:631-646` | The send of the current snapshot in subscribe always finds the slot empty |
| `AsyncWriter.StepKeepsInv` | `pkg/client/cache.go:106-166` | Every step of enqueuers, runner and close keeps the mailbox invariant, no lost wake-up included |
| `AsyncWriter.AttemptsAreASubsequence` | `pkg/client/cache.go:127-161` | The attempted writes are an in-order subsequence of the enqueued entries |
| `AsyncWriter.NothingIsLeftBehind` | `pkg/client/cache.go:127-161` | At rest nothing is pending and the last attempt is the newest entry |
| `AsyncWriter.CloseFlushesTheLastEntry` | `pkg/client/cache.go:137-166` | If every put came before close, on its return the last attempt is the last entry put |
| `AsyncWriter.APutIsSafeUntilTheFinalTake` | `pkg/client/cache.go:127-161` | In every reachable state: a put is attempted, or superseded by a newer attempt, in every continuation in which the runner exits, if and only if the runner has not yet made its final take |
| `AsyncWriter.AfterCloseTheNextPutCanBeLost` | `pkg/client/cache.go:137-166` | From every reachable state after close, some continuation makes one more put and neither it nor a newer one is attempted ever after |
| `AsyncWriter.NobodyWaitsForever` | `pkg/client/cache.go:127-166` | enqueue never waits for the runner, and the runner can always move while there is something to pick up or close waits, each step leaving less to do |
| `LogLimiter.EveryCallIsAccountedFor` | `pkg/client/client.go:817-837` | The sum of returned sampledOf plus suppressed is the number of calls that have returned |
| `LogLimiter.ReturnsAreExact` | `pkg/client/client.go:826-836` | A suppressed call returns nothing and is counted; an admitted one stands for itself and all suppressed since the last report |
| `LogLimiter.CallsWaitExactlyForTheDeadline` | `pkg/client/client.go:827-831` | A call is suppressed exactly before the deadline it read, and tries its swap from it on |
| `LogLimiter.CallsThrough` | `pkg/client/client.go:826-836` | A call whose clock has reached the deadline, run to its swap, is admitted |
| `LogLimiter.EveryRunKeepsDeadlines` | `pkg/client/client.go:826-836` | In every run, wrapped clocks included, the deadline is the wrapped sum set by the last admission and each admission is at or after the wrapped deadline of the one before |
| `LogLimiter.AdmissionsAreSpaced` | `pkg/client/client.go:826-836` | In every run successive admitted timestamps are at least an interval apart if and only if each admission that another one follows had t + interval within an int64 |
| `LogLimiter.WrappedDeadlinesAdmitTwice` | `pkg/client/client.go:832` | A run that admits two calls at the largest int64, with an interval of one |
| `LogLimiter.SpacingIsExact` | `pkg/client/client.go:832` | After a successful swap at t in any reachable state, the next admission of every continuation is at or after t + interval if and only if t + interval fits in an int64 |
| `LogLimiter.WindowsAreBounded` | `pkg/client/client.go:817-837` | A window of width W admits at most W / interval + 1 events in any run whose admissions but the last set deadlines that fit in an int64 |
| `LogLimiter.AFailedSwapMeansTheDeadlineRose` | `pkg/client/client.go:826-836` | While admitted deadlines fit in an int64, a failed compare-and-swap means next rose, by at least an interval |
| `LogLimiter.RetriesAreBounded` | `pkg/client/client.go:826-836` | While admitted deadlines fit in an int64, a call retries at most (now - first load) / interval + 1 times |
| `LogLimiter.NewInterval` | `pkg/client/client.go:808-813` | A given positive interval is kept; any other becomes one second |
| `Updater.AppliedGenerationsStrictlyIncrease` | `pkg/client/updater.go:245-288` | While the source is one named instance, the generations applied to L1 strictly increase, and L1 is the last one applied |
| `Updater.HealthyMeansNotBehind` | `pkg/client/updater.go:196-288` | Every entry into HEALTHY is at a frame reporting a generation no higher than the one then held, with a fetch landing inside a heartbeat, as long as no snapshot frame reports more than its own snapshot |
| `Updater.OverstatingIsExact` | `pkg/client/updater.go:245-288` | There is a run, with no earlier frame reporting more than its snapshot, in which this frame turns the client HEALTHY while it is behind the frame, if and only if the frame itself reports more than its snapshot |
| `Updater.StatesNeverGoBack` | `pkg/client/state.go:94-112` | CLOSED is absorbing and UNINITIALIZED is never re-entered |
| `Updater.ServingMeansConfig` | `pkg/client/updater.go:196-298` | If every frame reports a generation of at least 1, a serving client holds an entry |
| `Updater.ServingNothingIsExact` | `pkg/client/updater.go:196-249` | A step makes a client serve nothing if and only if L1 is empty, the client is open, and the frame has no snapshot and reports a generation of zero or less |
| `Updater.AZeroHeartbeatServesNothing` | `pkg/client/updater.go:196-221` | A run in which a zero heartbeat turns an empty client HEALTHY |
| `Updater.ReadyIsClosedOnce` | `pkg/client/state.go:94-112` | The ready channel is closed once if the client ever entered a serving state, else never; the change hook's calls are real moves that join up |
| `Updater.AFrameNeverLeavesTheClientBehind` | `pkg/client/updater.go:245-288` | In any run, after any snapshot frame the client holds that snapshot's generation or, from the same source as far as it knows, an unchanged later one; it is HEALTHY or closed unless the frame reports more than its snapshot |
| `Updater.FramesAreExact` | `pkg/client/updater.go:245-288` | In any run, exactly which snapshot frames replace L1, by what, and what state the client is then in |
| `Updater.HeartbeatsAreExact` | `pkg/client/updater.go:196-221` | In any run, an uninterrupted heartbeat makes an open client HEALTHY unless another instance is talking or the source is ahead; L1 stays |
| `Updater.LossesAreExact` | `pkg/client/updater.go:290-298` | A dead stream degrades an open client that holds something, closing closes, and L1 stays |
| `Updater.StartsAreExact` | `pkg/client/client.go:424-449` | A client starts empty, or stale with the disk copy, which names no instance |
| `Updater.ARestartedSourceIsFollowed` | `pkg/client/updater.go:249-288` | In any run, a snapshot from another named instance replaces an entry of a named one, whatever its generation |
| `Updater.DiskEntriesYieldOnlyToTheirGeneration` | `pkg/client/updater.go:253-258` | A disk-hydrated entry is replaced exactly by a generation at least its own |
| `ClientObject.Client.constructor` | `pkg/client/client.go:424-449` | A client hydrated from disk starts DEGRADED_STALE, one without a disk copy UNINITIALIZED |
| `ClientObject.Client.ApplyUpdate` | `pkg/client/updater.go:245-288` | The branches of the acceptance rule take exactly the specified step |
| `ClientObject.Client.SetState` | `pkg/client/state.go:94-112` | One transition: no event on re-entry, nothing leaves CLOSED |
| `ClientObject.Client.OnLiveConfirmation` | `pkg/client/state.go:140-147` | HEALTHY unless provably behind |
| `ClientObject.Client.DecideHeartbeat` | `pkg/client/updater.go:199-220` | A gap or a changed instance asks for a fetch; otherwise the heartbeat confirms |
| `ClientObject.Client.DegradeStream` | `pkg/client/updater.go:290-298` | A client with nothing stale to serve stays UNINITIALIZED |
| `Backoff.Window` | `pkg/client/updater.go:70-90` | The window is never empty and never longer than min(max, base * 2^attempt), and equals it if and only if the doubling did not wrap to a short positive value |
| `Backoff.TheIdealWindow` | `pkg/client/updater.go:61-90` | The documented window in full: min(max, base * 2^attempt), its default base, its floor for max, and attempts clamped to 0..30 |
| `Backoff.ShortBasesNeverWrap` | `pkg/client/updater.go:70-90` | A base below 8.589934592 s meets the documented window at every attempt |
| `Backoff.ALongBaseWrapsShort` | `pkg/client/updater.go:84-87` | A base of 2^34 + 1 ns with a 30 s maximum wraps to about one second |
| `Backoff.TheDrawIsDefined` | `pkg/client/updater.go:88` | The draw's argument is positive exactly when the window is below the largest int64 |
| `EnvName.EncodeEnvName` | `pkg/client/cache.go:257-280` | The loop computes the byte-wise encoding |
| `EnvName.DecodeOfFold` | `pkg/client/cache.go:242-280` | The name can be decoded from the encoding, also after ASCII case folding |
| `EnvName.EncodedNamesInFull` | `pkg/client/cache.go:257-280` | Two names in full |
| `EnvName.NamesAreInjective` | `pkg/client/cache.go:242-280` | Encodings that are equal after case folding come from equal names |
| `EnvName.EmptyNameIsReserved` | `pkg/client/cache.go:258-264` | "~empty" is not the encoding of any name with bytes in it, folded or not |
| `EnvName.NamesAreOneComponent` | `pkg/client/cache.go:228-234` | Only verbatim characters, the escape and hex digits appear, so no separator or dot survives |
| `Codec.SnapshotsReadBack` | `pkg/client/cache.go:463-568` | Whatever order the map is walked in, decoding an encoded snapshot gives it back if and only if every flag has a known type and known operators; otherwise the file is refused |
| `Codec.FlagsReadBack` | `pkg/client/cache.go:473-506` | The same for one flag |
| `Codec.FieldsAreWrittenAsNamed` | `pkg/client/cache.go:473-506` | Each field is written under its own name, and the format version is 1 |
| `Codec.EncodeSnapshot` | `pkg/client/cache.go:463-507` | The loop encodes every flag once, in some order |
| `Codec.DecodeSnapshot` | `pkg/client/cache.go:509-568` | The loop refuses a foreign format version and anything unreadable |
| `Codec.OperatorNamesReadBack` | `internal/core/model.go:29-87` | Operator names read back, the unknown one excepted |
| `Codec.NewMemSnapshot` | `pkg/client/cache.go:390-397` | The snapshot's keys are exactly the flags' keys, each with the last flag that has it |
| `Batch.BatchAppend` | `pkg/client/client.go:668-755` | Every request is answered, in order, by the engine on the one entry loaded at the start, whatever updates land meanwhile: value, reason, rule and bucket are the engine's own for the type of the caller's default, a missing generation is the entry's, a missing reason is an error with the caller default, and without an entry that default is the answer; the destination is reused where it fits and nothing past the requests is written |
| `Batch.AnswersAreTheEngines` | `pkg/client/client.go:726-755` | In any run, the shipped engine's answer on a well-formed flag of the type asked for: off value, first matching rule or default, stamped with the generation held |
| `Batch.BatchesAreOfOneGeneration` | `pkg/client/client.go:689-695` | In any run, all answers of the shipped engine from one loaded entry carry its generation |
| `Batch.AnswersHaveTheTypeAsked` | `pkg/client/client.go:726-755` | An answer of the shipped engine has the requested type whatever the snapshot holds and the strategy and hasher return |
| `Batch.EntriesAreCoherent` | `pkg/client/cache.go:19-36` | The generation published with a snapshot is the snapshot's own |

## Left out

- HTTP transport, listeners, the admin and health handlers, logging, tracing and metrics: plumbing over the store and the engine.
- JSON text, SHA-256, xxhash64 and file operations: foreign calls; the hash is any function to 64 bits, and a fingerprint is equality of flag maps, which leaves out hash collisions and the JSON form of a flag (nil and empty lists are one here).
- The flag-key regular expression is a given predicate with the same language.
- Panics, recovery and user hooks: hooks are taken not to panic, so the pre-filled defaults of a batch are never what a caller sees.
- Messages, field paths and environments of findings, their order and how often one is repeated: findings are compared as sets of rule id, flag, layer and severity.
- Provenance records and layer maps are values, so aliasing of a record is not modelled; a nil overlay or ops pointer, which the source dereferences, is not an input here.
- Cloning of layers handed to or read from the store: layers are values, so a caller that mutates a layer afterwards is not modelled.
- List objects of a resolved flag: their contents are set once where they are allocated, so that no element is written later holds by construction; flags and rollouts are mutable objects and their frames are proved.
- Whether the 5% of the quarantine budget, a float product in the source, could round differently from the integer quotient: it cannot below 2^50 flags, and n / 20 is used.
- Generations and counters of the store and of the limiter are unbounded; the limiter's deadline and the backoff window do wrap.
- Concurrent readers of the store: the object's methods run under its lock; the lock-free read is one load of a slot.
- The hash that picks a limiter cell: calls that hash to other cells touch no state of this one.
- Applying an update as load, check and store: at that grain a slow fetch that has passed its check can overwrite a newer push, and the increase of applied generations does not hold; one call is one step here.
- Convergence of a disk-hydrated client with a restarted source: the code does not give it, see `Updater.DiskEntriesYieldOnlyToTheirGeneration`.
- That a kill switch always takes effect: a flag already quarantined by its overlay is carried unchanged.
- Store.Store.Rebuild: the sorted order in which environments are built is not fixed; any order gives the same state.
- Validators.ValidateBase: the field path, message, order and repetition of findings are not stated; which rule is broken for which flag is.
- Validators.ValidateOverlay: the same, and the environment a finding carries.
- Validators.ValidateOps: the same, and the environment a finding carries.
- Validators.ValidateRuleList: which rule ids are broken is stated, not the path or the repetition of each.
- Validators.ValidateResolved: the field path, message, order and repetition of findings are not stated.
- Validators.CheckCollision: whether an appended id collides is stated; the source also lists each one that does.
- Validators.CheckCondition: which checks fail is stated, not the path of the operand that fails one.
- Snapshots.SnapshotObject.Fingerprint: the hash over the JSON of the flags is replaced by the flag map itself.
- RawLayers, LastRejected, Warnings and the other read-only accessors: copies of state already stated.
- Reconnect and reconcile loops, timers and staleness reports: when they fire is arbitrary in a run.
