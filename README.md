# Split evaluation engine: treatment selection and the subset-of-set matcher

This project models two parts of the evaluation engine of the Split iOS client and proves properties about them.

- **`DefaultEvaluator.evalTreatment`.** Given a matching key, an optional bucketing key, a split name and optional attributes, it returns one `EvaluationResult`, or ends in one of the two abnormal ways listed below (an escaping error or a trap). The split definition is read from rule storage, and in it every field is optional. The result comes from a fixed ladder of branches:
  1. the split is not found, or it is archived;
  2. the split is killed;
  3. the definition is malformed ("exception");
  4. the traffic-allocation gate on the first rollout condition excludes the key ("not in split");
  5. the first condition that matches decides;
  6. no condition matched;
  7. a condition reports a missing matcher (control, "matcher not found").
- **`PartOfSetMatcher`.** A pure predicate over sets of strings. It holds when the input list is non-empty and every element of it is in the configured set.

Layout:

- `wrappers.dfy`: `Option`, standing for Swift's `Optional`.
- `split_types.dfy`: the records. These are the split, its conditions and partitions, the values and context handed to matchers, the evaluation result, and the label constants.
- `part_of_set_matcher.dfy`: the matcher, written as pure functions over `set<string>`, plus lemmas about it, and a helper lemma `ElementSetSize` (a set built from a list is no larger than the list) that backs `Init`'s size clause.
- `evaluator.dfy`: three parts.
  - The reference definition `Evaluate` and its condition walk `Walk`.
  - One lemma per branch of the ladder.
  - The class `DefaultEvaluator`, whose imperative `EvalTreatment` walks the conditions in a `for` loop with early returns and a local `inRollOut` flag. Its contract says it returns exactly what `Evaluate` returns.

Collaborators the evaluator calls are modelled abstractly:

- Rule storage is a read-only map from split name to split (`SplitStorageContainer`).
- The splitter's `getBucket` and `getTreatment` are arbitrary total functions held in the `Splitter` datatype. It is passed to the evaluator's constructor in place of the `Splitter.shared` singleton.
- `Condition.match` is an arbitrary function, passed to `EvalTreatment` as `conditionMatch`. It returns a boolean, reports `MatcherNotFound`, or fails with another error.

An evaluation ends in one of three ways:

- `Returned(result)`.
- `Thrown(error)`: an error other than a missing matcher escapes, because `evalTreatment` only catches `matcherNotFound`.
- `Trapped`: a matching condition has no label, and the force-unwrap `condition.label!` traps at run time.

Names: `label` is a Dafny keyword, so the label fields are called `labelText`.

## Model

| member | source | states |
|---|---|---|
| `Evaluator.DefaultEvaluator.EvalTreatment` | Split/Engine/Evaluator.swift:51-125 | The outcome is exactly the reference evaluation `Evaluate` of the same storage, splitter, condition matcher and arguments. The traffic bucket (`getBucket`) is computed at most once per call. |
| `Evaluator.DefaultEvaluator.constructor` | Split/Engine/Evaluator.swift:47-49 | The evaluator keeps the storage container and splitter it was given. |
| `Evaluator.Evaluate` | Split/Engine/Evaluator.swift:51-125 | A `matcherNotFound` error never escapes an evaluation. A result without a change number comes only from the not-found or malformed branch, and it is control with no configuration. |
| `Evaluator.Walk` | Split/Engine/Evaluator.swift:86-124 | Every result the condition loop returns carries the split's change number, and the only errors it lets escape are errors other than a missing matcher. |
| `Evaluator.DefaultEvaluator.GetContext` | Split/Engine/Evaluator.swift:127-129 | The context handed to matchers carries this evaluator's segment storage. It is built by `ContextOf`, the one definition the reference evaluation uses too. |
| `Evaluator.ChangeNumber` | Split/Engine/Evaluator.swift:60 | The reported change number is the split's own, or -1 when it has none. |
| `Evaluator.DefaultTreatment` | Split/Engine/Evaluator.swift:61 | The default treatment is the split's own, or control when it has none. |
| `Evaluator.AlgorithmOf` | Split/Engine/Evaluator.swift:71-75 | When the raw `algo` decodes, the algorithm is the one with that raw value; when it is absent or unknown, the algorithm is legacy. |
| `Evaluator.Excluded` | Split/Engine/Evaluator.swift:88-92 | The gate excludes a key only when an allocation below 100 is set; an absent allocation, or one of 100 or more, never excludes. |
| `Evaluator.MatchedOutcome` | Split/Engine/Evaluator.swift:105-111 | A matching condition traps exactly when it has no label. Otherwise the result carries that label, the split's change number and the configuration of the chosen treatment. |
| `Evaluator.Lookup` | Split/Engine/Evaluator.swift:54 | The storage lookup gives a split exactly when storage holds one under that name, and then that split. |
| `Evaluator.Configuration` | Split/Engine/Evaluator.swift:66 | `split.configurations?[treatment]`: present exactly when the split has configurations with an entry for that treatment, and then that entry. The same lookup is used at lines 96, 111 and 117. |
| `Evaluator.WellFormed` | Split/Engine/Evaluator.swift:79-81 | Definition only: the guard that conditions, traffic-allocation seed and seed are all present. |
| `Evaluator.ValuesFor` | Split/Engine/Evaluator.swift:103-104 | Definition only: the values every condition is matched against (the matching key as match value, the matching key, the effective bucketing key, the attributes). |
| `Evaluator.ConditionOutcome` | Split/Engine/Evaluator.swift:105 | Definition only: the `condition.match` call on those values and the evaluator's context. |
| `Evaluator.DefaultResult` | Split/Engine/Evaluator.swift:114-117 | Definition only: a result with the default treatment, the given label, the change number and the default treatment's configuration, as also built at lines 63-66 and 93-96. |
| `Evaluator.BucketKey` | Split/Engine/Evaluator.swift:77 | The bucketing key is used when it is present and non-empty, and the matching key otherwise. The result is empty only if the matching key is. |
| `SplitTypes.RawValue` | Split/Engine/Evaluator.swift:73 | Definition only: the assumed raw value of each algorithm (1 for legacy, 2 for murmur3), the inverse of `AlgorithmFromRaw`. |
| `SplitTypes.AlgorithmFromRaw` | Split/Engine/Evaluator.swift:73-75 | Decoding a raw algorithm value gives exactly the algorithm with that raw value, and nothing for an unknown value. |
| `Evaluator.NotFoundOrArchived` | Split/Engine/Evaluator.swift:54-58 | A split missing from storage or archived gives control with the not-found label, no change number and no configuration. |
| `Evaluator.KilledShortCircuits` | Split/Engine/Evaluator.swift:60-67 | A killed split gives its default treatment (control when it has none), the killed label, its change number (-1 when it has none) and that treatment's configuration. This holds even when the definition is malformed, and the result does not depend on how conditions match. |
| `Evaluator.MalformedGivesException` | Split/Engine/Evaluator.swift:79-83 | A live, unkilled split that lacks conditions, a traffic-allocation seed or a seed gives control with the exception label and no change number. |
| `Evaluator.WalkExcluded` | Split/Engine/Evaluator.swift:86-99 | The loop reaches the first rollout condition after non-matching, non-rollout conditions. If the gate has not been passed and it excludes the key, the loop returns not-in-split. |
| `Evaluator.TrafficAllocationExcludes` | Split/Engine/Evaluator.swift:87-99 | Suppose all conditions before the first rollout condition fail to match. If the allocation is below 100 and the key's bucket is above it, the result is the default treatment with the not-in-split label, the change number and the default treatment's configuration. |
| `Evaluator.WalkDecidedAt` | Split/Engine/Evaluator.swift:86-124 | The first condition whose match does not return false decides the loop's outcome, provided the gate cannot fire up to it. |
| `Evaluator.FirstMatchDecides` | Split/Engine/Evaluator.swift:102-112 | The first matching condition decides, provided the gate lets the key through. The treatment is the splitter's choice over that condition's partitions with the split's seed and algorithm. The label is the condition's label, or a trap when it has none. The result carries the change number and that treatment's configuration. |
| `Evaluator.ConditionErrorDecides` | Split/Engine/Evaluator.swift:105-124 | A condition reached before any match that reports a missing matcher gives control, the matcher-not-found label and the change number, with no configuration. Any other error it raises propagates. |
| `Evaluator.WalkNoMatch` | Split/Engine/Evaluator.swift:86-119 | If no remaining condition matches and the gate cannot fire, the loop returns the default result with the no-condition-matched label. |
| `Evaluator.NoConditionMatched` | Split/Engine/Evaluator.swift:114-119 | If no condition matches and the gate lets the key through, the result is the default treatment with the no-condition-matched label, the change number and the default treatment's configuration. |
| `PartOfSet.ElementSet` | Split/Matchers/PartOfSetMatcher.swift:19 | Definition only: `Set(elements.map { $0 })`, the set of a list's elements with order and duplicates dropped; the same conversion is used at line 28. |
| `PartOfSet.Init` | Split/Matchers/PartOfSetMatcher.swift:14-22 | `data` is absent exactly when no list is given. Otherwise it holds exactly the listed elements, and no more of them than were listed. |
| `PartOfSet.Evaluate` | Split/Matchers/PartOfSetMatcher.swift:24-37 | The result is true exactly when the match value is a non-empty string list, `data` is present, and every listed string is in `data`. |
| `PartOfSet.NilDataNeverMatches` | Split/Matchers/PartOfSetMatcher.swift:33-35 | A matcher built without data matches nothing. |
| `PartOfSet.BadInputNeverMatches` | Split/Matchers/PartOfSetMatcher.swift:27-31 | A match value that is not a string list, or is an empty list, never matches. |
| `PartOfSet.InitEvaluateIsSubset` | Split/Matchers/PartOfSetMatcher.swift:36 | A matcher built from a list accepts a non-empty input exactly when the input's element set is a subset of the list's element set. |
| `PartOfSet.InputElementSetDecides` | Split/Matchers/PartOfSetMatcher.swift:27-36 | Two inputs with the same elements get the same answer, whatever their order, their duplicates or the context passed. |
| `PartOfSet.InputPermutationIrrelevant` | Split/Matchers/PartOfSetMatcher.swift:28 | Permuting the input list does not change the answer. |
| `PartOfSet.DataElementSetDecides` | Split/Matchers/PartOfSetMatcher.swift:18-21 | Two constructor lists with the same elements build the same matcher. |
| `PartOfSet.GrowingDataKeepsMatch` | Split/Matchers/PartOfSetMatcher.swift:36 | A match survives enlarging the configured set. |

The fallbacks are stated by the contracts of `ChangeNumber`, `DefaultTreatment` and `AlgorithmOf`. `KilledShortCircuits` also spells both fallbacks out for the killed branch.

The gate's precondition in the lemmas is `GateOpen`. It says the gate cannot fire on the conditions in question: it was passed already, it does not exclude the key, or none of those conditions is a rollout condition.

The gate is only ever applied at the first rollout condition. Rollout conditions after it are never gated again. `inRollOut` is set only when the allocation is below 100, so a rollout condition after an allocation of 100 or more re-checks that same allocation and passes again. That is the same outcome as not checking it. `EvalTreatment`'s `bucketCalls <= 1` shows the bucket is never recomputed.

## Left out

- The synchronization engine is not part of this model: retryable and periodic sync workers, the backoff counter and the update reconciler. None of their logic appears in the modelled files.
- Split/Network/Streaming/RetryableSplitsUpdateWorkerFactory.swift and Split/Api/LocalhostSplitFactory.swift are dependency wiring and offline-mode I/O, with no decision logic.
- Hashing: `getBucket` and `getTreatment` are left abstract. This covers murmur3 and the legacy hash, the `mod 100 + 1` reduction and partition accumulation, whose code is not part of this model. No range of the bucket is assumed.
- Condition matching: the meaning of a condition's matchers, the AND combination, the `negate` flag, attribute selection in `BaseMatcher`, and the matcher types. `Condition.match` is an arbitrary function of the condition, the values and the context. The condition's matcher group is kept as opaque text, so conditions with the same type, partitions and label but different matchers stay distinct.
- PartOfSet.Init: does not record the `splitClient`, `negate`, `attribute` and `type` arguments. `splitClient` is accepted and ignored by the initialiser; `negate`, `attribute` and `type` go to `BaseMatcher` (not part of this model); none of them is used by `evaluate`.
- PartOfSet.Evaluate: strings are compared by their code points, whereas Swift's `Set<String>` compares them by Unicode canonical equivalence (a precomposed "é" equals "e" followed by a combining accent in Swift, not here). Dafny strings have no normalisation. The same holds for the configuration lookup `Configuration`, which stands for a `Dictionary<String, String>` subscript.
- The evaluation context's back-reference to the evaluator, used by dependency matchers, is not modelled. The context holds only the segment membership.
- Logging (`Logger` calls) is not modelled. Storage backends are modelled only as a read-only lookup map.
- The label strings and `control` come from `ImpressionsConstants` and `SplitConstants`, which are not part of this model. The label strings are assumed: `splitNotFound` is taken to be "definition not found", `killed` "killed", `exception` "exception", `notInSplit` "not in split", `noConditionMatched` "no condition matched" and `matcherNotFound` "matcher not found". All properties refer to the named constants.
- BucketKey: `(bucketingKey ?? "").isEmpty()` calls a String extension `isEmpty()` whose body is not part of this model; it is taken to mean "has no characters", so a bucketing key made only of blanks is kept as the bucketing key.
- The `Algorithm` enumeration is not part of this model. Its raw values are taken to be 1 for legacy and 2 for murmur3.
- Integer widths: change numbers and buckets are `Int64` in the source and `int` here. The evaluator does no arithmetic on them, so width does not affect any result.
