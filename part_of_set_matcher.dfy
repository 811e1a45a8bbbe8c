/** The subset-of-set matcher: the input, read as a set of strings, must be
    contained in the set the matcher was configured with. */
module PartOfSet {
  import opened Wrappers
  import opened SplitTypes

  /** The matcher's own state: the configured set, absent when the matcher
      was built without data. */
  datatype PartOfSetMatcher = PartOfSetMatcher(data: Option<set<string>>)

  /** The set of the elements of a list: duplicates and order are dropped. */
  function ElementSet(xs: seq<string>): (s: set<string>) {
    set x | x in xs
  }

  /** Helper: collapsing a list into its element set never makes it larger. */
  lemma {:induction false} ElementSetSize(xs: seq<string>)
    ensures |ElementSet(xs)| <= |xs|
  {
    if xs != [] {
      ElementSetSize(xs[1..]);
      assert ElementSet(xs) == {xs[0]} + ElementSet(xs[1..]) by {
        forall x ensures x in ElementSet(xs) <==> x in {xs[0]} + ElementSet(xs[1..]) {
          if x in xs && x != xs[0] {
            var k :| 0 <= k < |xs| && xs[k] == x;
            assert xs[1..][k - 1] == x;
          }
        }
      }
    }
  }

  /** The initialiser: a missing list leaves `data` absent; otherwise `data`
      holds exactly the listed elements, and no more of them than listed. */
  function Init(data: Option<seq<string>>): (m: PartOfSetMatcher)
    ensures m.data.Some? <==> data.Some?
    ensures data.Some? ==> forall x :: x in m.data.value <==> x in data.value
    ensures data.Some? ==> |m.data.value| <= |data.value|
  {
    match data
    case None => PartOfSetMatcher(None)
    case Some(elements) =>
      ElementSetSize(elements);
      PartOfSetMatcher(Some(ElementSet(elements)))
  }

  /** `evaluate`: false unless the match value is a non-empty list of strings
      and data is present; then true exactly when every listed string is in
      the configured set. The context is not consulted. */
  function Evaluate(m: PartOfSetMatcher, values: EvalValues, context: Option<EvalContext>): (r: bool)
    ensures r <==> && values.matchValue.TextList?
                   && values.matchValue.items != []
                   && m.data.Some?
                   && forall x :: x in values.matchValue.items ==> x in m.data.value
  {
    match values.matchValue
    case TextList(elements) =>
      if elements == [] then false
      else
        var setToCompare := ElementSet(elements);
        (match m.data
         case None => false
         case Some(dataElements) => setToCompare <= dataElements)
    case _ => false
  }

  /** A matcher built without data never matches. */
  lemma NilDataNeverMatches(values: EvalValues, context: Option<EvalContext>)
    ensures !Evaluate(Init(None), values, context)
  {
  }

  /** A value that is not a list of strings, or an empty list, never matches. */
  lemma BadInputNeverMatches(m: PartOfSetMatcher, values: EvalValues, context: Option<EvalContext>)
    requires !values.matchValue.TextList? || values.matchValue.items == []
    ensures !Evaluate(m, values, context)
  {
  }

  /** End to end: a matcher built from `data` accepts a non-empty list exactly
      when the list's element set is a subset of `data`'s element set. */
  lemma InitEvaluateIsSubset(data: seq<string>, values: EvalValues, context: Option<EvalContext>)
    requires values.matchValue.TextList? && values.matchValue.items != []
    ensures Evaluate(Init(Some(data)), values, context)
            <==> ElementSet(values.matchValue.items) <= ElementSet(data)
  {
  }

  /** Only the element set of the input matters: two inputs with the same
      elements (in any order, with any duplicates) get the same answer, and
      so do two calls with different contexts. */
  lemma {:induction false} InputElementSetDecides(m: PartOfSetMatcher, va: EvalValues, vb: EvalValues,
                                                  ca: Option<EvalContext>, cb: Option<EvalContext>)
    requires va.matchValue.TextList? && vb.matchValue.TextList?
    requires forall x :: x in va.matchValue.items <==> x in vb.matchValue.items
    ensures Evaluate(m, va, ca) == Evaluate(m, vb, cb)
  {
    var a, b := va.matchValue.items, vb.matchValue.items;
    if a != [] { assert a[0] in b; }
    if b != [] { assert b[0] in a; }
  }

  /** In particular a permutation of the input gets the same answer. */
  lemma InputPermutationIrrelevant(m: PartOfSetMatcher, a: seq<string>, b: seq<string>,
                                   rest: EvalValues, context: Option<EvalContext>)
    requires multiset(a) == multiset(b)
    ensures Evaluate(m, rest.(matchValue := TextList(a)), context)
         == Evaluate(m, rest.(matchValue := TextList(b)), context)
  {
    forall x ensures x in a <==> x in b {
      assert x in a <==> x in multiset(a);
      assert x in b <==> x in multiset(b);
    }
    InputElementSetDecides(m, rest.(matchValue := TextList(a)), rest.(matchValue := TextList(b)), context, context);
  }

  /** Order and duplicates in the constructor's list are irrelevant too: two
      lists with the same elements build the same matcher. */
  lemma DataElementSetDecides(d1: seq<string>, d2: seq<string>)
    requires forall x :: x in d1 <==> x in d2
    ensures Init(Some(d1)) == Init(Some(d2))
  {
    assert ElementSet(d1) == ElementSet(d2);
  }

  /** Monotonicity: a match survives enlarging the configured set. */
  lemma GrowingDataKeepsMatch(m1: PartOfSetMatcher, m2: PartOfSetMatcher, values: EvalValues,
                              context: Option<EvalContext>)
    requires m1.data.Some? && m2.data.Some? && m1.data.value <= m2.data.value
    requires Evaluate(m1, values, context)
    ensures Evaluate(m2, values, context)
  {
  }
}
