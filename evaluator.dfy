/** The treatment-selection procedure: given a split name and a key it
    returns exactly one evaluation result, following a fixed ladder of
    branches (not found, killed, malformed, traffic-allocation gate, first
    matching condition, no condition matched, matcher not found).

    The collaborators are abstract: rule storage is a map from name to split,
    the splitter's bucketing and partition selection are arbitrary total
    functions, and `Condition.match` is an arbitrary function that may report
    a missing matcher or fail in some other way. */
module Evaluator {
  import opened Wrappers
  import opened SplitTypes

  datatype EvaluatorError = MatcherNotFound | OtherError(description: string)

  /** What `Condition.match` does: answer, or throw. */
  datatype MatchOutcome = Matched(isMatch: bool) | Failed(error: EvaluatorError)

  type ConditionMatch = (Condition, EvalValues, EvalContext) -> MatchOutcome

  /** The hashing service: `getBucket(seed, key, algo)` and
      `getTreatment(key, seed, attributes, partitions, algo)`. */
  datatype Splitter = Splitter(
    getBucket: (int, string, Algorithm) -> int,
    getTreatment: (Key, int, Option<Attributes>, Option<seq<Partition>>, Algorithm) -> string)

  /** The read-only view of storage the evaluator uses. */
  datatype SplitStorageContainer = SplitStorageContainer(
    splitsStorage: map<string, Split>,
    mySegmentsStorage: set<string>)

  /** How `evalTreatment` ends: it returns a result, lets an error other
      than a missing matcher escape, or traps on a condition without a label
      (the force-unwrap `label!`). */
  datatype Evaluation = Returned(result: EvaluationResult) | Thrown(error: EvaluatorError) | Trapped

  /** Everything an evaluation depends on besides its arguments. */
  datatype Env = Env(storage: SplitStorageContainer, splitter: Splitter, conditionMatch: ConditionMatch)

  /** The arguments of one `evalTreatment` call. */
  datatype Request = Request(
    matchingKey: string,
    bucketingKey: Option<string>,
    splitName: string,
    attributes: Option<Attributes>)

  // ---------------------------------------------------------------------
  // Reference definition of one evaluation
  // ---------------------------------------------------------------------

  /** The change number reported for a split: its own, or -1 when absent. */
  function ChangeNumber(split: Split): (n: int)
    ensures split.changeNumber.Some? ==> n == split.changeNumber.value
    ensures split.changeNumber.None? ==> n == -1
  {
    split.changeNumber.GetOr(-1)
  }

  /** The treatment a split falls back to: its own default, or control. */
  function DefaultTreatment(split: Split): (t: string)
    ensures split.defaultTreatment.Some? ==> t == split.defaultTreatment.value
    ensures split.defaultTreatment.None? ==> t == Control
  {
    split.defaultTreatment.GetOr(Control)
  }

  /** `split.configurations?[treatment]`. */
  function Configuration(split: Split, treatment: string): (c: Option<string>)
    ensures c.Some? <==> split.configurations.Some? && treatment in split.configurations.value
    ensures c.Some? ==> c.value == split.configurations.value[treatment]
  {
    if split.configurations.Some? && treatment in split.configurations.value
    then Some(split.configurations.value[treatment])
    else None
  }

  /** Legacy unless the split's raw `algo` decodes to a known algorithm. */
  function AlgorithmOf(split: Split): (a: Algorithm)
    ensures split.algo.Some? && AlgorithmFromRaw(split.algo.value).Some? ==> RawValue(a) == split.algo.value
    ensures split.algo.None? || AlgorithmFromRaw(split.algo.value).None? ==> a == Legacy
  {
    if split.algo.Some? && AlgorithmFromRaw(split.algo.value).Some?
    then AlgorithmFromRaw(split.algo.value).value
    else Legacy
  }

  /** The key used for bucketing: the bucketing key when it is present and
      non-empty, the matching key otherwise. */
  function BucketKey(matchingKey: string, bucketingKey: Option<string>): (k: string)
    ensures bucketingKey.Some? && bucketingKey.value != "" ==> k == bucketingKey.value
    ensures bucketingKey.None? || bucketingKey.value == "" ==> k == matchingKey
    ensures k == "" ==> matchingKey == ""
  {
    if bucketingKey.GetOr("") != "" then bucketingKey.value else matchingKey
  }

  /** `splitsStorage.get(name:)`: the stored split of that name, if any. */
  function Lookup(env: Env, req: Request): (r: Option<Split>)
    ensures r.Some? <==> req.splitName in env.storage.splitsStorage
    ensures r.Some? ==> r.value == env.storage.splitsStorage[req.splitName]
  {
    if req.splitName in env.storage.splitsStorage
    then Some(env.storage.splitsStorage[req.splitName])
    else None
  }

  /** The three fields without which conditions cannot be evaluated. */
  predicate WellFormed(split: Split) {
    split.conditions.Some? && split.trafficAllocationSeed.Some? && split.seed.Some?
  }

  /** The values every condition is matched against. */
  function ValuesFor(req: Request): (v: EvalValues) {
    EvalValues(Text(req.matchingKey), req.matchingKey,
               Some(BucketKey(req.matchingKey, req.bucketingKey)), req.attributes)
  }

  /** The context matchers receive (`getContext`): the storage's segments.
      `DefaultEvaluator.GetContext` builds its context with this function. */
  function ContextOf(storage: SplitStorageContainer): (c: EvalContext) {
    EvalContext(storage.mySegmentsStorage)
  }

  /** `condition.match` (Evaluator.swift line 105) on the key's values and the context. */
  function ConditionOutcome(env: Env, req: Request, c: Condition): (o: MatchOutcome) {
    env.conditionMatch(c, ValuesFor(req), ContextOf(env.storage))
  }

  /** The traffic-allocation gate excludes the key: an allocation below 100
      is set and the key's traffic bucket lies above it. */
  predicate Excluded(env: Env, req: Request, split: Split)
    requires split.trafficAllocationSeed.Some?
    ensures Excluded(env, req, split) ==> split.trafficAllocation.Some? && split.trafficAllocation.value < 100
    ensures split.trafficAllocation.None? || split.trafficAllocation.value >= 100 ==> !Excluded(env, req, split)
  {
    && split.trafficAllocation.Some?
    && split.trafficAllocation.value < 100
    && env.splitter.getBucket(split.trafficAllocationSeed.value,
                              BucketKey(req.matchingKey, req.bucketingKey),
                              AlgorithmOf(split)) > split.trafficAllocation.value
  }

  /** The result for a condition whose matchers accepted the key. */
  function MatchedOutcome(env: Env, req: Request, split: Split, c: Condition): (r: Evaluation)
    requires split.seed.Some?
    ensures r.Trapped? <==> c.labelText.None?
    ensures r.Returned? ==> && r.result.labelText == c.labelText.value
                            && r.result.changeNumber == Some(ChangeNumber(split))
                            && r.result.configuration == Configuration(split, r.result.treatment)
  {
    var key := Key(req.matchingKey, Some(BucketKey(req.matchingKey, req.bucketingKey)));
    var treatment := env.splitter.getTreatment(key, split.seed.value, req.attributes,
                                               c.partitions, AlgorithmOf(split));
    if c.labelText.None? then Trapped
    else Returned(EvaluationResult(treatment, c.labelText.value, Some(ChangeNumber(split)),
                                   Configuration(split, treatment)))
  }

  function DefaultResult(split: Split, labelText: string): (r: EvaluationResult) {
    EvaluationResult(DefaultTreatment(split), labelText, Some(ChangeNumber(split)),
                     Configuration(split, DefaultTreatment(split)))
  }

  /** The conditions from index `i` on, with `inRollOut` recording whether
      the traffic-allocation gate has already been passed. Every returned
      result carries the split's change number, and a missing matcher never
      escapes as an error. */
  function Walk(env: Env, req: Request, split: Split, i: nat, inRollOut: bool): (r: Evaluation)
    requires WellFormed(split) && i <= |split.conditions.value|
    ensures r.Returned? ==> r.result.changeNumber == Some(ChangeNumber(split))
    ensures r.Thrown? ==> r.error.OtherError?
    decreases |split.conditions.value| - i
  {
    var conditions := split.conditions.value;
    if i == |conditions| then Returned(DefaultResult(split, LabelNoConditionMatched))
    else
      var c := conditions[i];
      var gated := !inRollOut && c.conditionType == Some(Rollout)
                   && split.trafficAllocation.Some? && split.trafficAllocation.value < 100;
      if gated && Excluded(env, req, split) then Returned(DefaultResult(split, LabelNotInSplit))
      else
        match ConditionOutcome(env, req, c)
        case Failed(MatcherNotFound) =>
          Returned(EvaluationResult(Control, LabelMatcherNotFound, Some(ChangeNumber(split)), None))
        case Failed(e) => Thrown(e)
        case Matched(true) => MatchedOutcome(env, req, split, c)
        case Matched(false) => Walk(env, req, split, i + 1, inRollOut || gated)
  }

  /** Storage holds the split and it is neither archived, killed nor
      malformed: its conditions are evaluated. */
  predicate ReachesConditions(env: Env, req: Request) {
    && Lookup(env, req).Some?
    && Lookup(env, req).value.status != Some(Archived)
    && Lookup(env, req).value.killed != Some(true)
    && WellFormed(Lookup(env, req).value)
  }

  function Conditions(env: Env, req: Request): (cs: seq<Condition>)
    requires ReachesConditions(env, req)
  {
    Lookup(env, req).value.conditions.value
  }

  /** One evaluation, the reference for `DefaultEvaluator.EvalTreatment`.
      A result without a change number comes only from the not-found and the
      malformed branches, and is always the control treatment. */
  function Evaluate(env: Env, req: Request): (r: Evaluation)
    ensures r.Thrown? ==> r.error != MatcherNotFound
    ensures r.Returned? && r.result.changeNumber.None? ==>
              && r.result.treatment == Control
              && r.result.configuration.None?
              && (r.result.labelText == LabelSplitNotFound || r.result.labelText == LabelException)
  {
    var found := Lookup(env, req);
    if found.None? || found.value.status == Some(Archived) then
      Returned(EvaluationResult(Control, LabelSplitNotFound, None, None))
    else
      var split := found.value;
      if split.killed == Some(true) then Returned(DefaultResult(split, LabelKilled))
      else if !WellFormed(split) then Returned(EvaluationResult(Control, LabelException, None, None))
      else Walk(env, req, split, 0, false)
  }

  // ---------------------------------------------------------------------
  // The ladder, branch by branch
  // ---------------------------------------------------------------------

  /** A split that storage lacks, or that is archived, gives control with the
      not-found label and neither change number nor configuration. */
  lemma NotFoundOrArchived(env: Env, req: Request)
    requires Lookup(env, req).None? || Lookup(env, req).value.status == Some(Archived)
    ensures Evaluate(env, req) == Returned(EvaluationResult(Control, LabelSplitNotFound, None, None))
  {
  }

  /** A killed split gives its default treatment (control when it has none),
      the killed label, its change number (-1 when it has none) and the
      default treatment's configuration, whatever its conditions are, even
      when it is malformed; no condition is evaluated. */
  lemma KilledShortCircuits(env: Env, req: Request, otherMatch: ConditionMatch)
    requires Lookup(env, req).Some?
    requires Lookup(env, req).value.status != Some(Archived)
    requires Lookup(env, req).value.killed == Some(true)
    ensures var split := Lookup(env, req).value;
            var r := Evaluate(env, req);
            && r.Returned?
            && r.result.labelText == LabelKilled
            && r.result.treatment == (if split.defaultTreatment.Some? then split.defaultTreatment.value else Control)
            && r.result.changeNumber == Some(if split.changeNumber.Some? then split.changeNumber.value else -1)
            && r.result.configuration == Configuration(split, r.result.treatment)
    ensures Evaluate(env.(conditionMatch := otherMatch), req) == Evaluate(env, req)
  {
  }

  /** A live, unkilled split missing its conditions, traffic-allocation seed
      or seed gives control with the exception label and no change number. */
  lemma MalformedGivesException(env: Env, req: Request)
    requires Lookup(env, req).Some?
    requires Lookup(env, req).value.status != Some(Archived)
    requires Lookup(env, req).value.killed != Some(true)
    requires !WellFormed(Lookup(env, req).value)
    ensures Evaluate(env, req) == Returned(EvaluationResult(Control, LabelException, None, None))
  {
  }

  lemma {:induction false} WalkExcluded(env: Env, req: Request, split: Split, i: nat, g: nat)
    requires WellFormed(split) && i <= g < |split.conditions.value|
    requires split.conditions.value[g].conditionType == Some(Rollout)
    requires forall j :: i <= j < g ==> split.conditions.value[j].conditionType != Some(Rollout)
    requires forall j :: i <= j < g ==> ConditionOutcome(env, req, split.conditions.value[j]) == Matched(false)
    requires Excluded(env, req, split)
    ensures Walk(env, req, split, i, false) == Returned(DefaultResult(split, LabelNotInSplit))
    decreases g - i
  {
    if i < g {
      WalkExcluded(env, req, split, i + 1, g);
    }
  }

  /** The traffic-allocation gate: when the conditions before the first
      rollout condition all fail to match and the key's bucket lies above an
      allocation below 100, the result is the default treatment with the
      not-in-split label, the change number and the default treatment's
      configuration. */
  lemma TrafficAllocationExcludes(env: Env, req: Request, g: nat)
    requires ReachesConditions(env, req)
    requires g < |Conditions(env, req)|
    requires Conditions(env, req)[g].conditionType == Some(Rollout)
    requires forall j :: 0 <= j < g ==> Conditions(env, req)[j].conditionType != Some(Rollout)
    requires forall j :: 0 <= j < g ==> ConditionOutcome(env, req, Conditions(env, req)[j]) == Matched(false)
    requires Excluded(env, req, Lookup(env, req).value)
    ensures var split := Lookup(env, req).value;
            Evaluate(env, req) == Returned(EvaluationResult(
              DefaultTreatment(split), LabelNotInSplit, Some(ChangeNumber(split)),
              Configuration(split, DefaultTreatment(split))))
  {
    WalkExcluded(env, req, Lookup(env, req).value, 0, g);
  }

  /** The gate cannot fire on the conditions `i..k`: it was passed already,
      it does not exclude the key, or none of them is a rollout condition. */
  predicate GateOpen(env: Env, req: Request, split: Split, i: nat, k: nat, inRollOut: bool)
    requires WellFormed(split) && k <= |split.conditions.value|
  {
    || inRollOut
    || !Excluded(env, req, split)
    || forall j :: i <= j < k ==> split.conditions.value[j].conditionType != Some(Rollout)
  }

  lemma {:induction false} WalkDecidedAt(env: Env, req: Request, split: Split, i: nat, k: nat, inRollOut: bool)
    requires WellFormed(split) && i <= k < |split.conditions.value|
    requires forall j :: i <= j < k ==> ConditionOutcome(env, req, split.conditions.value[j]) == Matched(false)
    requires ConditionOutcome(env, req, split.conditions.value[k]) != Matched(false)
    requires GateOpen(env, req, split, i, k + 1, inRollOut)
    ensures Walk(env, req, split, i, inRollOut) ==
              match ConditionOutcome(env, req, split.conditions.value[k])
              case Failed(MatcherNotFound) =>
                Returned(EvaluationResult(Control, LabelMatcherNotFound, Some(ChangeNumber(split)), None))
              case Failed(e) => Thrown(e)
              case Matched(_) => MatchedOutcome(env, req, split, split.conditions.value[k])
    decreases k - i
  {
    if i < k {
      var c := split.conditions.value[i];
      var gated := !inRollOut && c.conditionType == Some(Rollout)
                   && split.trafficAllocation.Some? && split.trafficAllocation.value < 100;
      WalkDecidedAt(env, req, split, i + 1, k, inRollOut || gated);
    }
  }

  /** The first condition that matches decides: its treatment is chosen by
      the splitter over that condition's partitions with the split's seed
      and algorithm, its label is the result's label (a missing label traps),
      and that treatment's configuration is returned. Later conditions are
      not considered. */
  lemma FirstMatchDecides(env: Env, req: Request, k: nat)
    requires ReachesConditions(env, req)
    requires k < |Conditions(env, req)|
    requires forall j :: 0 <= j < k ==> ConditionOutcome(env, req, Conditions(env, req)[j]) == Matched(false)
    requires ConditionOutcome(env, req, Conditions(env, req)[k]) == Matched(true)
    requires GateOpen(env, req, Lookup(env, req).value, 0, k + 1, false)
    ensures var split := Lookup(env, req).value;
            var c := Conditions(env, req)[k];
            var t := env.splitter.getTreatment(
                       Key(req.matchingKey, Some(BucketKey(req.matchingKey, req.bucketingKey))),
                       split.seed.value, req.attributes, c.partitions, AlgorithmOf(split));
            && (c.labelText.Some? ==>
                  Evaluate(env, req) == Returned(EvaluationResult(t, c.labelText.value,
                                                                  Some(ChangeNumber(split)),
                                                                  Configuration(split, t))))
            && (c.labelText.None? ==> Evaluate(env, req) == Trapped)
  {
    WalkDecidedAt(env, req, Lookup(env, req).value, 0, k, false);
  }

  /** A condition that reports a missing matcher, reached before any match,
      gives control with the matcher-not-found label, the change number and
      no configuration; any other error it raises propagates to the caller. */
  lemma ConditionErrorDecides(env: Env, req: Request, k: nat)
    requires ReachesConditions(env, req)
    requires k < |Conditions(env, req)|
    requires forall j :: 0 <= j < k ==> ConditionOutcome(env, req, Conditions(env, req)[j]) == Matched(false)
    requires ConditionOutcome(env, req, Conditions(env, req)[k]).Failed?
    requires GateOpen(env, req, Lookup(env, req).value, 0, k + 1, false)
    ensures var split := Lookup(env, req).value;
            var e := ConditionOutcome(env, req, Conditions(env, req)[k]).error;
            && (e == MatcherNotFound ==>
                  Evaluate(env, req) == Returned(EvaluationResult(Control, LabelMatcherNotFound,
                                                                  Some(ChangeNumber(split)), None)))
            && (e.OtherError? ==> Evaluate(env, req) == Thrown(e))
  {
    WalkDecidedAt(env, req, Lookup(env, req).value, 0, k, false);
  }

  lemma {:induction false} WalkNoMatch(env: Env, req: Request, split: Split, i: nat, inRollOut: bool)
    requires WellFormed(split) && i <= |split.conditions.value|
    requires forall j :: i <= j < |split.conditions.value| ==>
               ConditionOutcome(env, req, split.conditions.value[j]) == Matched(false)
    requires GateOpen(env, req, split, i, |split.conditions.value|, inRollOut)
    ensures Walk(env, req, split, i, inRollOut) == Returned(DefaultResult(split, LabelNoConditionMatched))
    decreases |split.conditions.value| - i
  {
    if i < |split.conditions.value| {
      var c := split.conditions.value[i];
      var gated := !inRollOut && c.conditionType == Some(Rollout)
                   && split.trafficAllocation.Some? && split.trafficAllocation.value < 100;
      WalkNoMatch(env, req, split, i + 1, inRollOut || gated);
    }
  }

  /** When no condition matches and the gate lets the key through, the
      result is the default treatment with the no-condition-matched label,
      the change number and the default treatment's configuration. */
  lemma NoConditionMatched(env: Env, req: Request)
    requires ReachesConditions(env, req)
    requires forall j :: 0 <= j < |Conditions(env, req)| ==>
               ConditionOutcome(env, req, Conditions(env, req)[j]) == Matched(false)
    requires GateOpen(env, req, Lookup(env, req).value, 0, |Conditions(env, req)|, false)
    ensures var split := Lookup(env, req).value;
            Evaluate(env, req) == Returned(EvaluationResult(
              DefaultTreatment(split), LabelNoConditionMatched, Some(ChangeNumber(split)),
              Configuration(split, DefaultTreatment(split))))
  {
    WalkNoMatch(env, req, Lookup(env, req).value, 0, false);
  }

  // ---------------------------------------------------------------------
  // The evaluator
  // ---------------------------------------------------------------------

  class DefaultEvaluator {
    const storageContainer: SplitStorageContainer
    const splitter: Splitter

    constructor(storageContainer: SplitStorageContainer, splitter: Splitter)
      ensures this.storageContainer == storageContainer && this.splitter == splitter
    {
      this.storageContainer := storageContainer;
      this.splitter := splitter;
    }

    /** `getContext`: matchers see the segments of this evaluator's storage. */
    function GetContext(): (c: EvalContext)
      ensures c.mySegmentsStorage == storageContainer.mySegmentsStorage
    {
      ContextOf(storageContainer)
    }

    /** `evalTreatment`: walks the ladder and the conditions in order and
      returns what the reference definition `Evaluate` prescribes. The
      ghost `bucketCalls` counts the calls to `getBucket`: the traffic
      bucket is computed at most once per evaluation. */
    method EvalTreatment(matchingKey: string, bucketingKey: Option<string>, splitName: string,
                         attributes: Option<Attributes>, conditionMatch: ConditionMatch)
      returns (outcome: Evaluation, ghost bucketCalls: nat)
      ensures outcome == Evaluate(Env(storageContainer, splitter, conditionMatch),
                                  Request(matchingKey, bucketingKey, splitName, attributes))
      ensures bucketCalls <= 1
    {
      ghost var env := Env(storageContainer, splitter, conditionMatch);
      ghost var req := Request(matchingKey, bucketingKey, splitName, attributes);
      bucketCalls := 0;

      if splitName !in storageContainer.splitsStorage
         || storageContainer.splitsStorage[splitName].status == Some(Archived) {
        return Returned(EvaluationResult(Control, LabelSplitNotFound, None, None)), bucketCalls;
      }
      var split := storageContainer.splitsStorage[splitName];

      var changeNumber := split.changeNumber.GetOr(-1);
      var defaultTreatment := split.defaultTreatment.GetOr(Control);
      if split.killed == Some(true) {
        return Returned(EvaluationResult(defaultTreatment, LabelKilled, Some(changeNumber),
                                         Configuration(split, defaultTreatment))), bucketCalls;
      }

      var bucketKey: Option<string> := None;
      var inRollOut := false;
      var splitAlgo := Legacy;

      if split.algo.Some? {
        var algo := AlgorithmFromRaw(split.algo.value);
        if algo.Some? {
          splitAlgo := algo.value;
        }
      }

      bucketKey := if bucketingKey.GetOr("") != "" then bucketingKey else Some(matchingKey);

      if split.conditions.None? || split.trafficAllocationSeed.None? || split.seed.None? {
        return Returned(EvaluationResult(Control, LabelException, None, None)), bucketCalls;
      }
      var conditions := split.conditions.value;
      var trafficAllocationSeed := split.trafficAllocationSeed.value;
      var seed := split.seed.value;

      for i := 0 to |conditions|
        invariant Walk(env, req, split, i, inRollOut) == Evaluate(env, req)
        invariant bucketCalls == if inRollOut then 1 else 0
      {
        var condition := conditions[i];
        if !inRollOut && condition.conditionType == Some(Rollout) {
          if split.trafficAllocation.Some? && split.trafficAllocation.value < 100 {
            var bucket := splitter.getBucket(trafficAllocationSeed, bucketKey.value, splitAlgo);
            bucketCalls := bucketCalls + 1;
            if bucket > split.trafficAllocation.value {
              return Returned(EvaluationResult(defaultTreatment, LabelNotInSplit, Some(changeNumber),
                                               Configuration(split, defaultTreatment))), bucketCalls;
            }
            inRollOut := true;
          }
        }

        // Return the first condition that matches.
        var values := EvalValues(Text(matchingKey), matchingKey, bucketKey, attributes);
        var matched := conditionMatch(condition, values, GetContext());
        match matched {
          case Failed(MatcherNotFound) =>
            return Returned(EvaluationResult(Control, LabelMatcherNotFound, Some(changeNumber), None)),
                   bucketCalls;
          case Failed(e) =>
            return Thrown(e), bucketCalls;
          case Matched(isMatch) =>
            if isMatch {
              var key := Key(matchingKey, bucketKey);
              var treatment := splitter.getTreatment(key, seed, attributes, condition.partitions, splitAlgo);
              if condition.labelText.None? {
                return Trapped, bucketCalls;
              }
              return Returned(EvaluationResult(treatment, condition.labelText.value, Some(changeNumber),
                                               Configuration(split, treatment))), bucketCalls;
            }
        }
      }
      return Returned(EvaluationResult(defaultTreatment, LabelNoConditionMatched, Some(changeNumber),
                                       Configuration(split, defaultTreatment))), bucketCalls;
    }
  }
}
