/** The records the evaluation engine reads and produces: a split definition
    as it comes out of rule storage (every field optional, as decoded), its
    conditions and partitions, the values handed to matchers and the result of
    one evaluation. */
module SplitTypes {
  import opened Wrappers

  /** The treatment returned whenever no safe decision can be made. */
  const Control: string := "control"

  /** Impression labels, one per branch of the evaluator. */
  const LabelSplitNotFound: string := "definition not found"
  const LabelKilled: string := "killed"
  const LabelException: string := "exception"
  const LabelNotInSplit: string := "not in split"
  const LabelNoConditionMatched: string := "no condition matched"
  const LabelMatcherNotFound: string := "matcher not found"

  datatype Status = Active | Archived

  /** The two bucketing hash algorithms a split may select. */
  datatype Algorithm = Legacy | Murmur3

  /** The raw value a split definition uses for each algorithm. */
  function RawValue(a: Algorithm): (raw: int) {
    match a
    case Legacy => 1
    case Murmur3 => 2
  }

  /** `Algorithm(rawValue:)`: decodes a raw value, failing on unknown ones. */
  function AlgorithmFromRaw(raw: int): (r: Option<Algorithm>)
    ensures r.Some? ==> RawValue(r.value) == raw
    ensures forall a: Algorithm :: RawValue(a) == raw ==> r == Some(a)
  {
    if raw == 1 then Some(Legacy)
    else if raw == 2 then Some(Murmur3)
    else None
  }

  datatype ConditionType = Whitelist | Rollout

  /** One weighted share of a condition's traffic. */
  datatype Partition = Partition(treatment: Option<string>, size: Option<int>)

  /** The matcher definitions of a condition, each kept as an opaque text:
      what they mean is left to the abstract `Condition.match`. */
  datatype MatcherGroup = MatcherGroup(matchers: seq<string>)

  /** A rule of a split. Whether a condition matches is decided by an
      abstract `Condition.match` (see Evaluator), which sees every field,
      the matcher group included. */
  datatype Condition = Condition(
    conditionType: Option<ConditionType>,
    matcherGroup: Option<MatcherGroup>,
    partitions: Option<seq<Partition>>,
    labelText: Option<string>)  // `label` is a Dafny keyword

  /** A feature flag definition. Every field is optional, as decoded. */
  datatype Split = Split(
    name: Option<string>,
    status: Option<Status>,
    killed: Option<bool>,
    defaultTreatment: Option<string>,
    changeNumber: Option<int>,
    seed: Option<int>,
    trafficAllocation: Option<int>,
    trafficAllocationSeed: Option<int>,
    algo: Option<int>,
    conditions: Option<seq<Condition>>,
    configurations: Option<map<string, string>>)

  /** The dynamically typed value a matcher is asked about (Swift's `Any?`):
      absent, a string, an array of strings, or anything else. */
  datatype MatchValue = NoValue | Text(text: string) | TextList(items: seq<string>) | OtherValue

  type Attributes = map<string, MatchValue>

  datatype Key = Key(matchingKey: string, bucketingKey: Option<string>)

  /** What a condition's matchers are evaluated against. */
  datatype EvalValues = EvalValues(
    matchValue: MatchValue,
    matchingKey: string,
    bucketingKey: Option<string>,
    attributes: Option<Attributes>)

  /** What matchers may consult besides their input: the user's segments.
      The back-reference to the evaluator is not modelled. */
  datatype EvalContext = EvalContext(mySegmentsStorage: set<string>)

  /** The outcome of one evaluation, immutable once built. */
  datatype EvaluationResult = EvaluationResult(
    treatment: string,
    labelText: string,  // `label` is a Dafny keyword
    changeNumber: Option<int>,
    configuration: Option<string>)
}
