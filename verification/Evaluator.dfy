/** The deterministic evaluation of a logic artifact over a preserved context. */
module Evaluator {
  import opened Outcome
  import opened Rules

  datatype Factor = Factor(key: string, rule: string, weight: int)

  datatype Artifact = Artifact(
    id: string,
    logicVersion: string,
    kind: string,
    evaluatorVersion: string,
    missing: string,
    factors: seq<Factor>,
    threshold: int,
    atOrAbove: string,
    below: string)

  /** The strict artifact schema: at least one factor, every key once. */
  predicate WellFormed(a: Artifact) {
    a.factors != [] && forall i, j :: 0 <= i < j < |a.factors| ==> a.factors[i].key != a.factors[j].key
  }

  /** One preserved entry; V is the type of evidence version ids. */
  datatype ContextInput<V> = ContextInput(
    key: string,
    available: bool,
    value: Scalar,
    version: Option<V>,
    observedAt: Option<int>)

  datatype InputState = Consumed | Ignored | Unavailable | Absent

  datatype FactorResult<V> = FactorResult(
    key: string,
    rule: string,
    weight: int,
    state: InputState,
    matched: bool,
    contribution: int,
    version: Option<V>)

  datatype Evaluation<V> = Evaluation(
    score: int,
    threshold: int,
    output: string,
    factors: seq<FactorResult<V>>,
    ignored: seq<string>,
    states: map<string, InputState>)

  const EVALUATOR_VERSION := "evaluator-v1"
  const MISSING_BEHAVIOR := "no_match_contributes_zero"

  predicate UniqueKeys<V>(context: seq<ContextInput<V>>) {
    forall i, j :: 0 <= i < j < |context| ==> context[i].key != context[j].key
  }

  /** The preserved entry for a key. */
  function Lookup<V>(context: seq<ContextInput<V>>, key: string): (r: Option<ContextInput<V>>)
    ensures r.Some? ==> r.value in context && r.value.key == key
    ensures r.None? ==> forall e :: e in context ==> e.key != key
  {
    if context == [] then None
    else if context[0].key == key then Some(context[0])
    else Lookup(context[1..], key)
  }

  function FactorFrom<V>(
    f: Factor, rule: Rule, found: Option<ContextInput<V>>, boundary: int): Outcome<FactorResult<V>>
  {
    match found
    case None => Done(FactorResult(f.key, f.rule, f.weight, Absent, false, 0, None))
    case Some(entry) =>
      if !entry.available then Done(FactorResult(f.key, f.rule, f.weight, Unavailable, false, 0, None))
      else
        var matched :- Matches(rule, entry.value, entry.observedAt, boundary);
        Done(FactorResult(f.key, f.rule, f.weight, Consumed, matched, if matched then f.weight else 0, entry.version))
  }

  function EvaluateFactor<V>(f: Factor, context: seq<ContextInput<V>>, boundary: int): Outcome<FactorResult<V>> {
    var rule :- ParseRule(f.key, f.rule);
    FactorFrom(f, rule, Lookup(context, f.key), boundary)
  }

  /** Every rule is parsed before any factor is evaluated. */
  function ParseAll(factors: seq<Factor>): Outcome<()> {
    if factors == [] then Done(())
    else
      var _ :- ParseAll(factors[..|factors| - 1]);
      var _ :- ParseRule(factors[|factors| - 1].key, factors[|factors| - 1].rule);
      Done(())
  }

  function EvaluateFactors<V>(
    factors: seq<Factor>, context: seq<ContextInput<V>>, boundary: int): (r: Outcome<seq<FactorResult<V>>>)
    ensures r.Done? ==> |r.value| == |factors|
    ensures r.Done? ==> forall i :: 0 <= i < |factors| ==>
        EvaluateFactor(factors[i], context, boundary) == Done(r.value[i])
  {
    hide EvaluateFactor;
    if factors == [] then Done([])
    else
      var front := factors[..|factors| - 1];
      assert forall i :: 0 <= i < |front| ==> front[i] == factors[i];
      var before :- EvaluateFactors(front, context, boundary);
      var last :- EvaluateFactor(factors[|factors| - 1], context, boundary);
      Done(before + [last])
  }

  function Score<V>(results: seq<FactorResult<V>>): int {
    if results == [] then 0 else Score(results[..|results| - 1]) + results[|results| - 1].contribution
  }

  predicate Referenced(factors: seq<Factor>, key: string) {
    exists i :: 0 <= i < |factors| && factors[i].key == key
  }

  function StateOf<V>(factors: seq<Factor>, entry: ContextInput<V>): InputState {
    if !entry.available then Unavailable else if Referenced(factors, entry.key) then Consumed else Ignored
  }

  function States<V>(factors: seq<Factor>, context: seq<ContextInput<V>>): map<string, InputState> {
    if context == [] then map[]
    else
      var last := context[|context| - 1];
      States(factors, context[..|context| - 1])[last.key := StateOf(factors, last)]
  }

  function IgnoredKeys<V>(factors: seq<Factor>, context: seq<ContextInput<V>>): seq<string> {
    if context == [] then []
    else
      var before := IgnoredKeys(factors, context[..|context| - 1]);
      var last := context[|context| - 1];
      if StateOf(factors, last) == Ignored then before + [last.key] else before
  }

  function Evaluate<V>(a: Artifact, context: seq<ContextInput<V>>, boundary: int): Outcome<Evaluation<V>> {
    var _ :- Require(a.missing == MISSING_BEHAVIOR, "unsupported_missing_value_behavior");
    var _ :- Require(UniqueKeys(context), "duplicate_context_key");
    var _ :- ParseAll(a.factors);
    var results :- EvaluateFactors(a.factors, context, boundary);
    var score := Score(results);
    Done(Evaluation(
      score, a.threshold, if score >= a.threshold then a.atOrAbove else a.below,
      results, IgnoredKeys(a.factors, context), States(a.factors, context)))
  }

  // --- The loops ---------------------------------------------------------------------

  /** Indexes the context by key, refusing a second entry for a key. */
  method Index<V>(context: seq<ContextInput<V>>) returns (r: Outcome<map<string, ContextInput<V>>>)
    ensures r.Done? <==> UniqueKeys(context)
    ensures r.Done? ==> forall k :: (if k in r.value then Some(r.value[k]) else None) == Lookup(context, k)
  {
    var indexed: map<string, ContextInput<V>> := map[];
    for i := 0 to |context|
      invariant UniqueKeys(context[..i])
      invariant forall k :: (if k in indexed then Some(indexed[k]) else None) == Lookup(context[..i], k)
    {
      assert context[..i + 1] == context[..i] + [context[i]];
      LookupAppend(context[..i], context[i]);
      if context[i].key in indexed {
        ghost var earlier := indexed[context[i].key];
        assert earlier in context[..i] && earlier.key == context[i].key;
        return Refused("duplicate_context_key");
      }
      indexed := indexed[context[i].key := context[i]];
    }
    assert context[..|context|] == context;
    r := Done(indexed);
  }

  lemma LookupAppend<V>(context: seq<ContextInput<V>>, e: ContextInput<V>)
    ensures forall k :: Lookup(context + [e], k) ==
              if Lookup(context, k).Some? then Lookup(context, k) else if e.key == k then Some(e) else None
  {
    if context == [] {
      assert context + [e] == [e];
    } else {
      LookupAppend(context[1..], e);
      assert (context + [e])[1..] == context[1..] + [e];
    }
  }

  predicate Parsed(factors: seq<Factor>, rules: seq<Rule>) {
    |rules| <= |factors| && forall k :: 0 <= k < |rules| ==>
      ParseRule(factors[k].key, factors[k].rule) == Done(rules[k])
  }

  method ParseRules(factors: seq<Factor>) returns (r: Outcome<seq<Rule>>)
    ensures match ParseAll(factors)
      case Done(_) => r.Done? && |r.value| == |factors| && Parsed(factors, r.value)
      case Refused(why) => r == Refused(why)
  {
    hide ParseRule;
    var rules: seq<Rule> := [];
    for i := 0 to |factors|
      invariant |rules| == i && ParseAll(factors[..i]).Done? && Parsed(factors, rules)
    {
      assert factors[..i + 1][..i] == factors[..i];
      ParseAllPrefix(factors, i + 1);
      var rule := ParseRule(factors[i].key, factors[i].rule);
      if rule.Refused? {
        return Refused(rule.reason);
      }
      rules := rules + [rule.value];
    }
    assert factors[..|factors|] == factors;
    r := Done(rules);
  }

  method RunFactors<V>(
    factors: seq<Factor>, rules: seq<Rule>, preserved: map<string, ContextInput<V>>,
    ghost context: seq<ContextInput<V>>, boundary: int) returns (r: Outcome<(seq<FactorResult<V>>, int)>)
    requires |rules| == |factors| && Parsed(factors, rules)
    requires forall k :: (if k in preserved then Some(preserved[k]) else None) == Lookup(context, k)
    ensures match EvaluateFactors(factors, context, boundary)
      case Done(results) => r == Done((results, Score(results)))
      case Refused(why) => r == Refused(why)
  {
    hide ParseRule, FactorFrom, Lookup;
    var results: seq<FactorResult<V>> := [];
    var score := 0;
    for i := 0 to |factors|
      invariant EvaluateFactors(factors[..i], context, boundary) == Done(results)
      invariant score == Score(results)
    {
      assert factors[..i + 1][..i] == factors[..i];
      EvaluatePrefix(factors, context, boundary, i + 1);
      var f := factors[i];
      var found := if f.key in preserved then Some(preserved[f.key]) else None;
      assert found == Lookup(context, f.key);
      var one := FactorFrom(f, rules[i], found, boundary);
      if one.Refused? {
        return Refused(one.reason);
      }
      var result := one.value;
      results := results + [result];
      score := score + result.contribution;
    }
    assert factors[..|factors|] == factors;
    r := Done((results, score));
  }

  /** The evaluation as its loops, in the order the source runs them. */
  method EvaluateInOrder<V(==)>(
    a: Artifact, context: seq<ContextInput<V>>, boundary: int) returns (r: Outcome<Evaluation<V>>)
    ensures r == Evaluate(a, context, boundary)
  {
    if a.missing != MISSING_BEHAVIOR {
      return Refused("unsupported_missing_value_behavior");
    }
    var preserved := Index(context);
    if preserved.Refused? {
      return Refused("duplicate_context_key");
    }
    var rules := ParseRules(a.factors);
    if rules.Refused? {
      return Refused(rules.reason);
    }
    var results := RunFactors(a.factors, rules.value, preserved.value, context, boundary);
    if results.Refused? {
      return Refused(results.reason);
    }
    var (factors, score) := results.value;
    r := Done(Evaluation(
      score, a.threshold, if score >= a.threshold then a.atOrAbove else a.below,
      factors, IgnoredKeys(a.factors, context), States(a.factors, context)));
  }

  lemma ParseAllPrefix(factors: seq<Factor>, n: nat)
    requires n <= |factors|
    ensures ParseAll(factors[..n]).Refused? ==> ParseAll(factors) == ParseAll(factors[..n])
    decreases |factors| - n
  {
    hide ParseRule;
    if n < |factors| {
      assert factors[..n + 1][..n] == factors[..n];
      ParseAllPrefix(factors, n + 1);
    } else {
      assert factors[..n] == factors;
    }
  }

  lemma EvaluatePrefix<V>(factors: seq<Factor>, context: seq<ContextInput<V>>, boundary: int, n: nat)
    requires n <= |factors|
    ensures EvaluateFactors(factors[..n], context, boundary).Refused? ==>
              EvaluateFactors(factors, context, boundary) == EvaluateFactors(factors[..n], context, boundary)
    decreases |factors| - n
  {
    hide EvaluateFactor;
    if n < |factors| {
      assert factors[..n + 1][..n] == factors[..n];
      EvaluatePrefix(factors, context, boundary, n + 1);
    } else {
      assert factors[..n] == factors;
    }
  }

  // --- What the evaluation guarantees -------------------------------------------------

  /** The sum of the strictly positive weights. */
  function PositiveBound(factors: seq<Factor>): (n: int)
    ensures n >= 0
  {
    if factors == [] then 0
    else
      var w := factors[|factors| - 1].weight;
      PositiveBound(factors[..|factors| - 1]) + (if w > 0 then w else 0)
  }

  lemma {:induction false} ScoreBounded<V>(
    factors: seq<Factor>, results: seq<FactorResult<V>>, context: seq<ContextInput<V>>, boundary: int)
    requires |results| == |factors|
    requires forall i :: 0 <= i < |factors| ==> EvaluateFactor(factors[i], context, boundary) == Done(results[i])
    ensures Score(results) <= PositiveBound(factors)
  {
    if factors != [] {
      ScoreBounded(factors[..|factors| - 1], results[..|results| - 1], context, boundary);
    }
  }

  /** No context scores above the positive weights, so a threshold above them is never met. */
  lemma BoundIsSound<V>(a: Artifact, context: seq<ContextInput<V>>, boundary: int)
    requires Evaluate(a, context, boundary).Done?
    ensures var r := Evaluate(a, context, boundary).value;
      && r.score <= PositiveBound(a.factors)
      && (PositiveBound(a.factors) < a.threshold ==> r.output == a.below)
  {
    ScoreBounded(a.factors, Evaluate(a, context, boundary).value.factors, context, boundary);
  }

  /** The rule reads, and an available input is of the kinds it compares. */
  predicate Applies<V>(f: Factor, context: seq<ContextInput<V>>) {
    && ParseRule(f.key, f.rule).Done?
    && var found := Lookup(context, f.key);
    found.Some? && found.value.available ==>
      Fits(ParseRule(f.key, f.rule).value, found.value.value, found.value.observedAt)
  }

  lemma FactorWhenApplies<V>(f: Factor, context: seq<ContextInput<V>>, boundary: int)
    ensures EvaluateFactor(f, context, boundary).Done? <==> Applies(f, context)
  {
    hide ParseRule, Lookup, Matches, Fits;
    var found := Lookup(context, f.key);
    if ParseRule(f.key, f.rule).Done? && found.Some? {
      MatchesWhenFits(ParseRule(f.key, f.rule).value, found.value.value, found.value.observedAt, boundary);
    }
  }

  lemma {:induction false} FactorsWhenApply<V>(factors: seq<Factor>, context: seq<ContextInput<V>>, boundary: int)
    ensures EvaluateFactors(factors, context, boundary).Done? <==>
        forall i :: 0 <= i < |factors| ==> Applies(factors[i], context)
  {
    hide EvaluateFactor, Applies;
    if factors != [] {
      FactorsWhenApply(factors[..|factors| - 1], context, boundary);
      FactorWhenApplies(factors[|factors| - 1], context, boundary);
    }
  }

  lemma {:induction false} AllParsed<V>(factors: seq<Factor>, context: seq<ContextInput<V>>)
    requires forall i :: 0 <= i < |factors| ==> Applies(factors[i], context)
    ensures ParseAll(factors).Done?
  {
    hide ParseRule, Lookup, Fits;
    if factors != [] {
      AllParsed(factors[..|factors| - 1], context);
      assert Applies(factors[|factors| - 1], context);
    }
  }

  /** An evaluation succeeds exactly when the artifact asks for the one supported treatment of
      missing values, no key is preserved twice, every rule reads, and every available input a
      rule is about is of the kinds that rule compares. The boundary plays no part. */
  lemma EvaluatesIff<V>(a: Artifact, context: seq<ContextInput<V>>, boundary: int)
    ensures Evaluate(a, context, boundary).Done? <==>
            && a.missing == MISSING_BEHAVIOR && UniqueKeys(context)
            && forall i :: 0 <= i < |a.factors| ==> Applies(a.factors[i], context)
  {
    hide EvaluateFactors, Applies, ParseAll, UniqueKeys, States, IgnoredKeys, Score;
    FactorsWhenApply(a.factors, context, boundary);
    if forall i :: 0 <= i < |a.factors| ==> Applies(a.factors[i], context) {
      AllParsed(a.factors, context);
    }
  }

  predicate Triple<V(==)>(results: seq<FactorResult<V>>, key: string, version: Option<V>, contribution: int) {
    exists i :: 0 <= i < |results| && results[i].state == Consumed
      && results[i].key == key && results[i].version == version && results[i].contribution == contribution
  }

  lemma LookupUnique<V>(context: seq<ContextInput<V>>, e: ContextInput<V>)
    requires UniqueKeys(context) && e in context
    ensures Lookup(context, e.key) == Some(e)
  {
  }

  /** The consumed triples are one per factor whose input is available, carrying the
      preserved version and the weight exactly when the rule matches it. */
  lemma ConsumedExactly<V>(
    a: Artifact, context: seq<ContextInput<V>>, boundary: int, key: string, version: Option<V>, contribution: int)
    requires Evaluate(a, context, boundary).Done?
    ensures Triple(Evaluate(a, context, boundary).value.factors, key, version, contribution) <==>
            exists i, e :: 0 <= i < |a.factors| && e in context && a.factors[i].key == key == e.key
              && e.available && e.version == version
              && ParseRule(key, a.factors[i].rule).Done?
              && var matched := Matches(ParseRule(key, a.factors[i].rule).value, e.value, e.observedAt, boundary);
                 matched.Done? && contribution == if matched.value then a.factors[i].weight else 0
  {
    hide ParseRule, Matches, Lookup, UniqueKeys, Score, States, IgnoredKeys, ParseAll;
    var results := Evaluate(a, context, boundary).value.factors;
    forall e | e in context ensures Lookup(context, e.key) == Some(e) {
      LookupUnique(context, e);
    }
    forall i | 0 <= i < |a.factors| ensures EvaluateFactor(a.factors[i], context, boundary) == Done(results[i]) {
    }
    forall i | 0 <= i < |a.factors| && results[i].state == Consumed
      ensures exists e :: e in context && e.key == a.factors[i].key && Lookup(context, a.factors[i].key) == Some(e)
    {
      assert Lookup(context, a.factors[i].key).value in context;
    }
  }

  ghost predicate SameEntries<V(!new)>(a: seq<ContextInput<V>>, b: seq<ContextInput<V>>) {
    forall e :: e in a <==> e in b
  }

  /** The result does not depend on the order the preserved entries arrive in. */
  lemma OrderIrrelevant<V(!new)>(a: Artifact, c: seq<ContextInput<V>>, d: seq<ContextInput<V>>, boundary: int)
    requires UniqueKeys(c) && UniqueKeys(d) && SameEntries(c, d)
    ensures Evaluate(a, c, boundary).Done? <==> Evaluate(a, d, boundary).Done?
    ensures Evaluate(a, c, boundary).Done? ==>
      var x, y := Evaluate(a, c, boundary).value, Evaluate(a, d, boundary).value;
      x.score == y.score && x.output == y.output && x.factors == y.factors
  {
    forall k ensures Lookup(c, k) == Lookup(d, k) {
      if Lookup(c, k).Some? {
        LookupUnique(d, Lookup(c, k).value);
      }
    }
    FactorsAlike(a.factors, c, d, boundary);
  }

  lemma {:induction false} FactorsAlike<V>(
    factors: seq<Factor>, c: seq<ContextInput<V>>, d: seq<ContextInput<V>>, boundary: int)
    requires forall k :: Lookup(c, k) == Lookup(d, k)
    ensures EvaluateFactors(factors, c, boundary) == EvaluateFactors(factors, d, boundary)
  {
    if factors != [] {
      FactorsAlike(factors[..|factors| - 1], c, d, boundary);
    }
  }
}
