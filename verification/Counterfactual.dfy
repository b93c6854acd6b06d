/** The comparison of two evaluations over one sealed context. */
module Counterfactual {
  import opened Outcome
  import opened Rules
  import opened Evaluator

  // --- Keys in their sorted order -------------------------------------------------------

  /** Code-point order, as the source sorts text. */
  predicate Less(a: string, b: string) {
    b != [] && (a == [] || a[0] < b[0] || (a[0] == b[0] && Less(a[1..], b[1..])))
  }

  lemma {:induction false} LessTransitive(a: string, b: string, c: string)
    requires Less(a, b) && Less(b, c)
    ensures Less(a, c)
  {
    if a != [] && a[0] == b[0] == c[0] {
      LessTransitive(a[1..], b[1..], c[1..]);
    }
  }

  lemma {:induction false} LessIrreflexive(a: string)
    ensures !Less(a, a)
  {
    if a != [] {
      LessIrreflexive(a[1..]);
    }
  }

  lemma {:induction false} LessTotal(a: string, b: string)
    ensures Less(a, b) || Less(b, a) || a == b
    ensures !(Less(a, b) && Less(b, a))
  {
    if a != [] && b != [] && a[0] == b[0] {
      LessTotal(a[1..], b[1..]);
      assert a == [a[0]] + a[1..] && b == [b[0]] + b[1..];
    }
  }

  predicate Sorted(keys: seq<string>) {
    forall i, j :: 0 <= i < j < |keys| ==> Less(keys[i], keys[j])
  }

  function Insert(key: string, keys: seq<string>): seq<string> {
    if keys == [] then [key]
    else if key == keys[0] then keys
    else if Less(key, keys[0]) then [key] + keys
    else [keys[0]] + Insert(key, keys[1..])
  }

  lemma {:induction false} InsertSorts(key: string, keys: seq<string>)
    requires Sorted(keys)
    ensures Sorted(Insert(key, keys))
    ensures forall k :: k in Insert(key, keys) <==> k == key || k in keys
  {
    if keys != [] {
      LessTotal(key, keys[0]);
      if key != keys[0] {
        if Less(key, keys[0]) {
          forall j | 0 <= j < |keys| ensures Less(key, keys[j]) {
            if j > 0 { LessTransitive(key, keys[0], keys[j]); }
          }
        } else {
          InsertSorts(key, keys[1..]);
          var rest := Insert(key, keys[1..]);
          forall j | 0 <= j < |rest| ensures Less(keys[0], rest[j]) {
            assert rest[j] in rest;
          }
        }
      }
    }
  }

  function SortedKeys(keys: seq<string>): seq<string> {
    if keys == [] then [] else Insert(keys[|keys| - 1], SortedKeys(keys[..|keys| - 1]))
  }

  lemma {:induction false} SortedKeysExact(keys: seq<string>)
    ensures Sorted(SortedKeys(keys)) && forall k :: k in SortedKeys(keys) <==> k in keys
  {
    if keys != [] {
      SortedKeysExact(keys[..|keys| - 1]);
      InsertSorts(keys[|keys| - 1], SortedKeys(keys[..|keys| - 1]));
    }
  }

  // --- The comparison ------------------------------------------------------------------------

  datatype Change = Added | Removed | SameAsBefore | Reweighted | Changed

  datatype Contribution<V> = Contribution(
    key: string,
    version: Option<V>,
    before: Option<FactorResult<V>>,
    after: Option<FactorResult<V>>,
    beforeState: Option<InputState>,
    afterState: Option<InputState>,
    delta: int,
    change: Change)

  datatype Missing = Missing(key: string, state: InputState)

  datatype Comparison<V> = Comparison(
    scoreDelta: int,
    outputChanged: bool,
    contributions: seq<Contribution<V>>,
    missing: seq<Missing>)

  function Classify<V(==)>(before: Option<FactorResult<V>>, after: Option<FactorResult<V>>): Change {
    match (before, after)
    case (None, _) => Added
    case (_, None) => Removed
    case (Some(b), Some(a)) =>
      var sameVerdict := b.state == a.state && b.matched == a.matched;
      if b.rule == a.rule && sameVerdict && b.weight == a.weight && b.contribution == a.contribution then SameAsBefore
      else if b.rule == a.rule && sameVerdict && b.weight != a.weight then Reweighted
      else Changed
  }

  /** A dictionary of factor results by key: the last entry for a key wins. */
  function FactorFor<V>(results: seq<FactorResult<V>>, key: string): (r: Option<FactorResult<V>>)
    ensures r.Some? ==> r.value in results && r.value.key == key
    ensures r.None? ==> forall f :: f in results ==> f.key != key
  {
    if results == [] then None
    else if results[|results| - 1].key == key then Some(results[|results| - 1])
    else FactorFor(results[..|results| - 1], key)
  }

  function KeysOf<V>(results: seq<FactorResult<V>>): (r: seq<string>)
    ensures |r| == |results| && forall i :: 0 <= i < |r| ==> r[i] == results[i].key
  {
    seq(|results|, i requires 0 <= i < |results| => results[i].key)
  }

  function Amount<V>(f: Option<FactorResult<V>>): int {
    if f.Some? then f.value.contribution else 0
  }

  function VersionOf<V>(before: Option<FactorResult<V>>, after: Option<FactorResult<V>>): Option<V> {
    if before.Some? && before.value.version.Some? then before.value.version
    else if after.Some? then after.value.version
    else None
  }

  function SideState<V>(f: Option<FactorResult<V>>, e: Evaluation<V>, key: string): Option<InputState> {
    if f.Some? then Some(f.value.state) else if key in e.states then Some(e.states[key]) else None
  }

  function ContributionAt<V(==)>(original: Evaluation<V>, current: Evaluation<V>, key: string): Contribution<V> {
    var before, after := FactorFor(original.factors, key), FactorFor(current.factors, key);
    Contribution(
      key, VersionOf(before, after), before, after,
      SideState(before, original, key), SideState(after, current, key),
      Amount(after) - Amount(before), Classify(before, after))
  }

  function Contributions<V(==)>(
    original: Evaluation<V>, current: Evaluation<V>, keys: seq<string>): (r: seq<Contribution<V>>)
    ensures |r| == |keys| && forall i :: 0 <= i < |keys| ==> r[i] == ContributionAt(original, current, keys[i])
  {
    if keys == [] then []
    else Contributions(original, current, keys[..|keys| - 1]) + [ContributionAt(original, current, keys[|keys| - 1])]
  }

  function MissingInputs<V>(current: Evaluation<V>, keys: seq<string>): seq<Missing> {
    if keys == [] then []
    else
      var before := MissingInputs(current, keys[..|keys| - 1]);
      var f := FactorFor(current.factors, keys[|keys| - 1]);
      if f.Some? && (f.value.state == Unavailable || f.value.state == Absent)
      then before + [Missing(f.value.key, f.value.state)]
      else before
  }

  function UnionKeys<V>(original: Evaluation<V>, current: Evaluation<V>): seq<string> {
    SortedKeys(KeysOf(original.factors) + KeysOf(current.factors))
  }

  function Compare<V(==)>(original: Evaluation<V>, current: Evaluation<V>): Comparison<V> {
    Comparison(
      current.score - original.score,
      original.output != current.output,
      Contributions(original, current, UnionKeys(original, current)),
      MissingInputs(current, SortedKeys(KeysOf(current.factors))))
  }

  /** The comparison as its loop over the sorted union of keys. */
  method CompareInOrder<V(==)>(original: Evaluation<V>, current: Evaluation<V>) returns (r: Comparison<V>)
    ensures r == Compare(original, current)
  {
    var keys := UnionKeys(original, current);
    var contributions: seq<Contribution<V>> := [];
    for i := 0 to |keys|
      invariant contributions == Contributions(original, current, keys[..i])
    {
      assert keys[..i + 1][..i] == keys[..i];
      var before, after := FactorFor(original.factors, keys[i]), FactorFor(current.factors, keys[i]);
      var version: Option<V> := None;
      if before.Some? && before.value.version.Some? {
        version := before.value.version;
      } else if after.Some? {
        version := after.value.version;
      }
      contributions := contributions + [Contribution(
        keys[i], version, before, after,
        SideState(before, original, keys[i]), SideState(after, current, keys[i]),
        Amount(after) - Amount(before), Classify(before, after))];
    }
    assert keys[..|keys|] == keys;
    r := Comparison(
      current.score - original.score, original.output != current.output, contributions,
      MissingInputs(current, SortedKeys(KeysOf(current.factors))));
  }

  // --- The explanation is complete ---------------------------------------------------------------

  function Deltas<V>(contributions: seq<Contribution<V>>): int {
    if contributions == [] then 0
    else Deltas(contributions[..|contributions| - 1]) + contributions[|contributions| - 1].delta
  }

  predicate UniqueFactors<V>(results: seq<FactorResult<V>>) {
    forall i, j :: 0 <= i < j < |results| ==> results[i].key != results[j].key
  }

  /** The contributions of the factors whose keys are listed. */
  function Listed<V>(results: seq<FactorResult<V>>, keys: seq<string>): int {
    if keys == [] then 0
    else Listed(results, keys[..|keys| - 1]) + Amount(FactorFor(results, keys[|keys| - 1]))
  }

  lemma {:induction false} DeltasSplit<V>(original: Evaluation<V>, current: Evaluation<V>, keys: seq<string>)
    ensures Deltas(Contributions(original, current, keys))
         == Listed(current.factors, keys) - Listed(original.factors, keys)
  {
    if keys != [] {
      DeltasSplit(original, current, keys[..|keys| - 1]);
      var all := Contributions(original, current, keys);
      assert all[..|all| - 1] == Contributions(original, current, keys[..|keys| - 1]);
    }
  }

  predicate Once(keys: seq<string>) {
    forall i, j :: 0 <= i < j < |keys| ==> keys[i] != keys[j]
  }

  lemma {:induction false} ListedWithout<V>(results: seq<FactorResult<V>>, keys: seq<string>)
    requires results != [] && UniqueFactors(results) && Once(keys)
    ensures var last := results[|results| - 1];
      Listed(results, keys) ==
      Listed(results[..|results| - 1], keys) + if last.key in keys then last.contribution else 0
  {
    if keys != [] {
      ListedWithout(results, keys[..|keys| - 1]);
      var last := results[|results| - 1];
      var k := keys[|keys| - 1];
      assert k !in keys[..|keys| - 1];
      assert last.key in keys <==> last.key in keys[..|keys| - 1] || last.key == k;
      assert last.key == k ==> FactorFor(results[..|results| - 1], k).None?;
    }
  }

  lemma {:induction false} ListedNothing<V>(keys: seq<string>)
    ensures Listed<V>([], keys) == 0
  {
    if keys != [] {
      ListedNothing<V>(keys[..|keys| - 1]);
    }
  }

  /** Listing every factor's key once adds up to the score. */
  lemma {:induction false} ListedIsScore<V>(results: seq<FactorResult<V>>, keys: seq<string>)
    requires UniqueFactors(results) && Once(keys)
    requires forall f :: f in results ==> f.key in keys
    ensures Listed(results, keys) == Score(results)
  {
    if results == [] {
      ListedNothing<V>(keys);
    } else {
      ListedWithout(results, keys);
      assert results[|results| - 1] in results;
      ListedIsScore(results[..|results| - 1], keys);
    }
  }

  lemma SortedOnce(keys: seq<string>)
    requires Sorted(keys)
    ensures Once(keys)
  {
    forall i, j | 0 <= i < j < |keys| ensures keys[i] != keys[j] {
      LessIrreflexive(keys[i]);
    }
  }

  lemma UnionCovers<V>(original: Evaluation<V>, current: Evaluation<V>)
    ensures var keys := UnionKeys(original, current);
      && Once(keys) && Sorted(keys)
      && (forall f :: f in original.factors ==> f.key in keys)
      && (forall f :: f in current.factors ==> f.key in keys)
      && (forall k :: k in keys ==> FactorFor(original.factors, k).Some? || FactorFor(current.factors, k).Some?)
  {
    var all := KeysOf(original.factors) + KeysOf(current.factors);
    SortedKeysExact(all);
    SortedOnce(SortedKeys(all));
    forall f | f in original.factors ensures f.key in all {
      var i :| 0 <= i < |original.factors| && original.factors[i] == f;
      assert all[i] == f.key;
    }
    forall f | f in current.factors ensures f.key in all {
      var i :| 0 <= i < |current.factors| && current.factors[i] == f;
      assert all[|original.factors| + i] == f.key;
    }
    forall k | k in all ensures FactorFor(original.factors, k).Some? || FactorFor(current.factors, k).Some? {
      var i :| 0 <= i < |all| && all[i] == k;
      if i < |original.factors| {
        assert original.factors[i] in original.factors;
      } else {
        assert current.factors[i - |original.factors|] in current.factors;
      }
    }
  }

  /** The listed changes explain the whole score difference, key by key. */
  lemma DeltasExplainScore<V>(original: Evaluation<V>, current: Evaluation<V>)
    requires UniqueFactors(original.factors) && UniqueFactors(current.factors)
    requires original.score == Score(original.factors) && current.score == Score(current.factors)
    ensures Deltas(Compare(original, current).contributions) == Compare(original, current).scoreDelta
  {
    var keys := UnionKeys(original, current);
    UnionCovers(original, current);
    DeltasSplit(original, current, keys);
    ListedIsScore(original.factors, keys);
    ListedIsScore(current.factors, keys);
  }

  lemma EvaluationIsScored<V>(a: Artifact, context: seq<ContextInput<V>>, boundary: int)
    requires WellFormed(a) && Evaluate(a, context, boundary).Done?
    ensures var e := Evaluate(a, context, boundary).value;
      && e.score == Score(e.factors) && UniqueFactors(e.factors) && |e.factors| == |a.factors|
      && forall i :: 0 <= i < |a.factors| ==> EvaluateFactor(a.factors[i], context, boundary) == Done(e.factors[i])
  {
    hide EvaluateFactor, ParseRule, ParseAll, Matches, Lookup, UniqueKeys, States, IgnoredKeys;
    var e := Evaluate(a, context, boundary).value;
    forall i | 0 <= i < |e.factors| ensures e.factors[i].key == a.factors[i].key {
      FactorKept(a.factors[i], e.factors[i], context, boundary);
    }
  }

  lemma FactorKept<V>(f: Factor, r: FactorResult<V>, context: seq<ContextInput<V>>, boundary: int)
    requires EvaluateFactor(f, context, boundary) == Done(r)
    ensures r.key == f.key && r.rule == f.rule && r.weight == f.weight
  {
    hide ParseRule, Matches, Lookup;
  }

  /** Two well-formed artifacts over one context: the difference is always fully explained. */
  lemma CounterfactualExplained<V>(
    historical: Artifact, current: Artifact, context: seq<ContextInput<V>>, boundary: int)
    requires WellFormed(historical) && WellFormed(current)
    requires Evaluate(historical, context, boundary).Done? && Evaluate(current, context, boundary).Done?
    ensures var c := Compare(Evaluate(historical, context, boundary).value, Evaluate(current, context, boundary).value);
      Deltas(c.contributions) == c.scoreDelta
  {
    EvaluationIsScored(historical, context, boundary);
    EvaluationIsScored(current, context, boundary);
    DeltasExplainScore(Evaluate(historical, context, boundary).value, Evaluate(current, context, boundary).value);
  }

  lemma FactorLocated<V>(a: Artifact, e: Evaluation<V>, context: seq<ContextInput<V>>, boundary: int, i: nat)
    requires WellFormed(a) && Evaluate(a, context, boundary) == Done(e) && i < |a.factors|
    ensures |e.factors| == |a.factors| && FactorFor(e.factors, a.factors[i].key) == Some(e.factors[i])
    ensures EvaluateFactor(a.factors[i], context, boundary) == Done(e.factors[i])
  {
    hide Evaluate, WellFormed, EvaluateFactor;
    EvaluationIsScored(a, context, boundary);
    FactorKept(a.factors[i], e.factors[i], context, boundary);
    var found := FactorFor(e.factors, a.factors[i].key);
    assert e.factors[i] in e.factors;
    var j :| 0 <= j < |e.factors| && e.factors[j] == found.value;
  }

  /** For a key in both artifacts the classification depends on the artifacts' text alone,
      never on the context: changed exactly when the rule texts differ, reweighted exactly
      when only the weights do, and an unchanged factor contributes the same. */
  lemma ClassificationFollowsText<V>(
    historical: Artifact, current: Artifact, context: seq<ContextInput<V>>, boundary: int, i: nat, j: nat)
    requires WellFormed(historical) && WellFormed(current)
    requires Evaluate(historical, context, boundary).Done? && Evaluate(current, context, boundary).Done?
    requires i < |historical.factors| && j < |current.factors| && historical.factors[i].key == current.factors[j].key
    ensures var c := ContributionAt(
                       Evaluate(historical, context, boundary).value, Evaluate(current, context, boundary).value,
                       current.factors[j].key);
      var (was, now) := (historical.factors[i], current.factors[j]);
      && (c.change == Changed <==> was.rule != now.rule)
      && (c.change == Reweighted <==> was.rule == now.rule && was.weight != now.weight)
      && (c.change == SameAsBefore <==> was == now)
      && (c.change == SameAsBefore ==> c.delta == 0)
      && (c.change == Reweighted ==> c.delta == 0 || c.delta == now.weight - was.weight)
  {
    hide Evaluate, WellFormed, ParseRule, Matches;
    FactorLocated(historical, Evaluate(historical, context, boundary).value, context, boundary, i);
    FactorLocated(current, Evaluate(current, context, boundary).value, context, boundary, j);
  }

  /** The missing inputs are exactly the current factors with no available entry. */
  lemma {:induction false} MissingExactly<V>(e: Evaluation<V>, keys: seq<string>, key: string, state: InputState)
    ensures Missing(key, state) in MissingInputs(e, keys) <==>
              key in keys && FactorFor(e.factors, key).Some? && FactorFor(e.factors, key).value.state == state
              && (state == Unavailable || state == Absent)
  {
    if keys != [] {
      MissingExactly(e, keys[..|keys| - 1], key, state);
      assert keys == keys[..|keys| - 1] + [keys[|keys| - 1]];
    }
  }
}
