/** Scoping to one account loses nothing, a cutoff's metrics never change, and every count
    partitions what it counts. */
module InsightsScoping {
  import opened Outcome
  import opened Ledger
  import opened AttributionPolicy
  import opened Collector
  import opened AttributionSafety
  import opened AttributionCredit
  import opened Insights
  import DecisionReplay
  import E = Evaluator
  import CF = Counterfactual

  // --- Selections of one account ------------------------------------------------------------

  function AccountOf(l: Ledger, id: EventId): Option<string> {
    match Find(l, id)
    case None => None
    case Some(i) => Some(l[i].account)
  }

  function OfAccount(l: Ledger, ids: seq<EventId>, account: string): (r: seq<EventId>)
    ensures forall v :: v in r <==> v in ids && AccountOf(l, v) == Some(account)
  {
    if ids == [] then []
    else
      var before := OfAccount(l, ids[..|ids| - 1], account);
      var last := ids[|ids| - 1];
      if AccountOf(l, last) == Some(account) then before + [last] else before
  }

  /** Selecting one account's versions is selecting all and keeping that account's, in order. */
  lemma {:induction false} ScopedSelection(l: Ledger, cutoff: int, account: string, n: nat)
    requires Reachable(l) && n <= |l|
    ensures EffectiveVersions(l, cutoff, Some(account), n).Done? && EffectiveVersions(l, cutoff, None, n).Done?
    ensures EffectiveVersions(l, cutoff, Some(account), n).value
         == OfAccount(l, EffectiveVersions(l, cutoff, None, n).value, account)
  {
    hide Reachable, EffectiveVersion, AccountOf;
    if n > 0 {
      ScopedSelection(l, cutoff, account, n - 1);
      var e := l[n - 1];
      if n <= cutoff && IsOutcome(e) {
        var m := EffectiveVersionExists(l, n - 1, cutoff);
        OwnAccount(l, m);
        var all := EffectiveVersions(l, cutoff, None, n - 1).value;
        assert (all + [l[m].id])[..|all|] == all;
      }
    }
  }

  lemma OwnAccount(l: Ledger, m: nat)
    requires Reachable(l) && m < |l|
    ensures AccountOf(l, l[m].id) == Some(l[m].account)
  {
    ReachableUnique(l);
    FindAt(l, m);
  }

  function FromAccount(observations: seq<Observation>, account: string): seq<Observation> {
    if observations == [] then []
    else
      var before := FromAccount(observations[..|observations| - 1], account);
      var last := observations[|observations| - 1];
      if last.account == account then before + [last] else before
  }

  lemma ObservedAccount(l: Ledger, id: EventId, cutoff: int)
    requires Observe(l, id, cutoff).Done?
    ensures AccountOf(l, id) == Some(Observe(l, id, cutoff).value.account)
  {
    hide EffectiveAttribution;
  }

  lemma {:induction false} ScopedObservations(l: Ledger, ids: seq<EventId>, cutoff: int, account: string)
    requires ObserveAll(l, ids, cutoff).Done?
    ensures ObserveAll(l, OfAccount(l, ids, account), cutoff)
         == Done(FromAccount(ObserveAll(l, ids, cutoff).value, account))
  {
    hide Observe, AccountOf;
    if ids != [] {
      var init, last := ids[..|ids| - 1], ids[|ids| - 1];
      ScopedObservations(l, init, cutoff, account);
      ObservedAccount(l, last, cutoff);
      var kept := OfAccount(l, init, account);
      assert (kept + [last])[..|kept|] == kept;
    }
  }

  // --- Every effective version can be observed ---------------------------------------------------

  lemma {:induction false} AllObserved(l: Ledger, ids: seq<EventId>, cutoff: int, account: Option<string>)
    requires Reachable(l) && forall v :: v in ids ==> IsSelected(l, v, cutoff, account)
    ensures ObserveAll(l, ids, cutoff).Done?
    ensures |ObserveAll(l, ids, cutoff).value| == |ids|
    ensures forall k :: 0 <= k < |ids| ==> Observe(l, ids[k], cutoff) == Done(ObserveAll(l, ids, cutoff).value[k])
  {
    hide Reachable, Observe, IsSelected;
    if ids != [] {
      AllObserved(l, ids[..|ids| - 1], cutoff, account);
      assert ids[|ids| - 1] in ids;
      SelectedIsObserved(l, ids[|ids| - 1], cutoff, account);
    }
  }

  lemma SelectedIsObserved(l: Ledger, id: EventId, cutoff: int, account: Option<string>)
    requires Reachable(l) && IsSelected(l, id, cutoff, account)
    ensures Observe(l, id, cutoff).Done?
  {
    hide Reachable, UniqueIds, Results, Linked, EffectiveAttribution, LoadOutcome;
    var i: nat :| Selected(l, id, cutoff, account, i);
    ReachableUnique(l);
    FindAt(l, i);
    RecordedLoads(l, i, cutoff);
    UniqueTip(l, id, POLICY_VERSION, cutoff);
    LatestIsResult(l, id, cutoff);
  }

  lemma LatestIsResult(l: Ledger, id: EventId, cutoff: int)
    ensures var tip := Latest(Results(l, id, POLICY_VERSION, cutoff, |l|));
      tip.Some? ==> tip.value in l && IsResultFor(tip.value, id, POLICY_VERSION)
  {
    var rows := Results(l, id, POLICY_VERSION, cutoff, |l|);
    ResultsOrigin(l, id, POLICY_VERSION, cutoff, |l|);
    assert l[..|l|] == l;
    if rows != [] {
      assert rows[|rows| - 1] in rows;
    }
  }

  // --- Credit stays inside the account --------------------------------------------------------------

  /** An observation credited to a decision is of that decision's account. */
  lemma CreditedAccount(l: Ledger, id: EventId, cutoff: int, account: Option<string>, i: nat)
    requires Reachable(l) && IsSelected(l, id, cutoff, account) && Observe(l, id, cutoff).Done?
    requires i < |l| && l[i].body.Decided? && Observe(l, id, cutoff).value.decision == Some(l[i].id)
    ensures Observe(l, id, cutoff).value.account == l[i].account
  {
    hide Reachable, UniqueIds, Results, Linked, EffectiveAttribution, EarlierDecision, LoadOutcome, Selected;
    UniqueTip(l, id, POLICY_VERSION, cutoff);
    LatestIsResult(l, id, cutoff);
    var result := EffectiveAttribution(l, id, POLICY_VERSION, cutoff).value.value;
    ReachableUnique(l);
    StoredFound(l, result);
    var r := Find(l, result.id).value;
    CreditIsEarlier(l, r);
    var e := LoadOutcome(l, id, result.body.result.cutoff).value;
    LoadedAlike(l, id, cutoff, result.body.result.cutoff);
    var k: nat :| EarlierDecision(l, k, e, l[i].id, result.body.result.cutoff);
    EarlierAccount(l, k, e, i, result.body.result.cutoff);
  }

  lemma EarlierAccount(l: Ledger, k: nat, e: Event, i: nat, cutoff: int)
    requires UniqueIds(l) && i < |l| && EarlierDecision(l, k, e, l[i].id, cutoff)
    ensures l[i].account == e.account
  {
  }

  lemma {:induction false} CreditedKept(observations: seq<Observation>, account: string, decision: EventId)
    requires forall o :: o in observations && Attributable(o) && o.decision == Some(decision) ==> o.account == account
    ensures CreditedTo(FromAccount(observations, account), decision) == CreditedTo(observations, decision)
  {
    if observations != [] {
      var init, last := observations[..|observations| - 1], observations[|observations| - 1];
      CreditedKept(init, account, decision);
      assert last in observations;
      var kept := FromAccount(init, account);
      assert (kept + [last])[..|kept|] == kept;
    }
  }

  /** For every decision of the population, the facts computed inside its own account are
      its entry in the facts computed over everything. */
  lemma ScopedIsGlobal(l: Ledger, cutoff: int, k: nat)
    requires Reachable(l) && ValidateCutoff(l, cutoff).Done? && k < |Population(l, cutoff, |l|)|
    ensures GlobalFacts(l, cutoff).Done?
    ensures var i := Population(l, cutoff, |l|)[k];
      && i < |l| && k < |GlobalFacts(l, cutoff).value|
      && ScopedFacts(l, cutoff, l[i].id) == Done(GlobalFacts(l, cutoff).value[k])
  {
    hide Reachable, IsSelected, EffectiveVersions, Observe, ObserveAll, CreditedTo, UniqueIds, Distinct, Find;
    PopulationRows(l, cutoff, |l|);
    var i := Population(l, cutoff, |l|)[k];
    var a := l[i].account;
    ReachableUnique(l);
    FindAt(l, i);
    SelectionExact(l, cutoff, None);
    ScopedSelection(l, cutoff, a, |l|);
    var ids := EffectiveVersions(l, cutoff, None, |l|).value;
    AllObserved(l, ids, cutoff, None);
    ScopedObservations(l, ids, cutoff, a);
    var observations := ObserveAll(l, ids, cutoff).value;
    forall o | o in observations && Attributable(o) && o.decision == Some(l[i].id) ensures o.account == a {
      var j :| 0 <= j < |observations| && observations[j] == o;
      assert ids[j] in ids;
      CreditedAccount(l, ids[j], cutoff, None, i);
    }
    CreditedKept(observations, a, l[i].id);
  }

  // --- A cutoff's metrics never change ------------------------------------------------------------------

  lemma {:induction false} SelectionSnapshot(l: Ledger, more: Ledger, cutoff: int, account: Option<string>, n: nat)
    requires Reachable(l) && cutoff <= |l| && n <= |l + more|
    ensures EffectiveVersions(l + more, cutoff, account, n)
         == EffectiveVersions(l, cutoff, account, if n <= |l| then n else |l|)
  {
    hide Reachable, EffectiveVersion, LoadOutcome, UniqueIds;
    if n > 0 {
      SelectionSnapshot(l, more, cutoff, account, n - 1);
      if n <= |l| && n <= cutoff && IsOutcome(l[n - 1]) {
        ReachableUnique(l);
        FindAt(l, n - 1);
        RecordedLoads(l, n - 1, cutoff);
        VersionSnapshot(l, more, l[n - 1].id, cutoff);
      }
    }
  }

  lemma ObserveSnapshot(l: Ledger, more: Ledger, id: EventId, cutoff: int)
    requires cutoff <= |l| && Observe(l, id, cutoff).Done?
    ensures Observe(l + more, id, cutoff) == Observe(l, id, cutoff)
  {
    EffectiveSnapshot(l, more, id, POLICY_VERSION, cutoff);
    OutcomeSnapshot(l, more, id, cutoff);
    hide EffectiveAttribution, LoadOutcome;
  }

  lemma {:induction false} ObserveAllSnapshot(l: Ledger, more: Ledger, ids: seq<EventId>, cutoff: int)
    requires cutoff <= |l| && ObserveAll(l, ids, cutoff).Done?
    ensures ObserveAll(l + more, ids, cutoff) == ObserveAll(l, ids, cutoff)
  {
    hide Observe;
    if ids != [] {
      ObserveAllSnapshot(l, more, ids[..|ids| - 1], cutoff);
      ObserveSnapshot(l, more, ids[|ids| - 1], cutoff);
    }
  }

  lemma {:induction false} PopulationSnapshot(l: Ledger, more: Ledger, cutoff: int, n: nat)
    requires cutoff <= |l| && n <= |l + more|
    ensures Population(l + more, cutoff, n) == Population(l, cutoff, if n <= |l| then n else |l|)
  {
    if n > 0 {
      PopulationSnapshot(l, more, cutoff, n - 1);
    }
  }

  lemma ReplayKept(l: Ledger, more: Ledger, i: nat)
    requires Reachable(l) && i < |l| && l[i].body.Decided?
    ensures ReplayOf(l + more, l[i].id) == ReplayOf(l, l[i].id)
  {
    hide Reachable, DecisionReplay.Reconstruct, DecisionReplay.Preserved;
    DecisionReplay.ReconstructKept(l, more, i);
  }

  /** The facts at a cutoff, replays included, are the same on every later ledger. */
  lemma FactsSnapshot(l: Ledger, more: Ledger, cutoff: int)
    requires Reachable(l) && ValidateCutoff(l, cutoff).Done?
    ensures GlobalFacts(l, cutoff).Done?
    ensures GlobalFacts(l + more, cutoff) == GlobalFacts(l, cutoff)
  {
    hide Reachable, IsSelected, EffectiveVersions, Observe, ObserveAll, CreditedTo, Distinct, ReplayOf,
      AvailableValues, ConsumedKeys;
    SelectionExact(l, cutoff, None);
    SelectionSnapshot(l, more, cutoff, None, |l + more|);
    var ids := EffectiveVersions(l, cutoff, None, |l|).value;
    AllObserved(l, ids, cutoff, None);
    ObserveAllSnapshot(l, more, ids, cutoff);
    PopulationSnapshot(l, more, cutoff, |l + more|);
    PopulationRows(l, cutoff, |l|);
    PopulationRows(l + more, cutoff, |l + more|);
    var rows, observations := Population(l, cutoff, |l|), ObserveAll(l, ids, cutoff).value;
    forall k | 0 <= k < |rows| ensures FactsAt(l + more, rows[k], observations) == FactsAt(l, rows[k], observations) {
      ReplayKept(l, more, rows[k]);
    }
    assert FactsOf(l + more, rows, observations) == FactsOf(l, rows, observations);
  }

  // --- Standings, rates and partitions ----------------------------------------------------------------------

  datatype DecisionStanding = Evaluated | UnknownOutcome | OpenOutcome | Unattributed

  predicate HasState(observations: seq<Observation>, state: ObservationState) {
    exists k :: 0 <= k < |observations| && observations[k].state == state
  }

  function StandingOf(f: Facts): DecisionStanding {
    if HasState(f.observations, ClosedKnown) then Evaluated
    else if HasState(f.observations, ClosedUnknown) then UnknownOutcome
    else if f.observations != [] then OpenOutcome
    else Unattributed
  }

  predicate HasQualifying(f: Facts) {
    exists k :: 0 <= k < |f.observations| && Qualifying(f.observations[k])
  }

  predicate HasWon(f: Facts) {
    exists k :: 0 <= k < |f.observations| && Qualifying(f.observations[k]) && f.observations[k].won == Some(true)
  }

  predicate EligibleDecision(f: Facts) {
    f.replay.Some? && HasQualifying(f)
  }

  predicate Positive(f: Facts) {
    EligibleDecision(f) && HasWon(f)
  }

  datatype Exclusion = OtherPeriodOnly | ReplayUnavailable | NotEvaluated

  predicate Excluded(f: Facts, why: Exclusion) {
    match why
    case OtherPeriodOnly => StandingOf(f) == Evaluated && !HasQualifying(f)
    case ReplayUnavailable => f.replay.None?
    case NotEvaluated => StandingOf(f) != Evaluated
  }

  /** Eligible decisions are exactly those with none of the three exclusion reasons. */
  lemma EligibleIffNotExcluded(f: Facts)
    ensures EligibleDecision(f) <==> forall why :: !Excluded(f, why)
  {
    if HasQualifying(f) {
      var k :| 0 <= k < |f.observations| && Qualifying(f.observations[k]);
      assert HasState(f.observations, ClosedKnown);
    }
    assert !Excluded(f, OtherPeriodOnly) && !Excluded(f, ReplayUnavailable) && !Excluded(f, NotEvaluated)
      <==> forall why :: !Excluded(f, why);
  }

  datatype Rate = Rate(
    total: nat, eligible: nat, positives: nat, otherPeriodOnly: nat, replayFailed: nat, notEvaluated: nat)

  function RateOf(facts: seq<Facts>): Rate {
    if facts == [] then Rate(0, 0, 0, 0, 0, 0)
    else
      var r := RateOf(facts[..|facts| - 1]);
      var f := facts[|facts| - 1];
      Rate(
        r.total + 1,
        r.eligible + (if EligibleDecision(f) then 1 else 0),
        r.positives + (if Positive(f) then 1 else 0),
        r.otherPeriodOnly + (if Excluded(f, OtherPeriodOnly) then 1 else 0),
        r.replayFailed + (if Excluded(f, ReplayUnavailable) then 1 else 0),
        r.notEvaluated + (if Excluded(f, NotEvaluated) then 1 else 0))
  }

  /** Every decision of a cohort is eligible or excluded for at least one reason; the period
      and evaluation reasons never overlap; and positives are eligible. */
  lemma {:induction false} RateAddsUp(facts: seq<Facts>)
    ensures var r := RateOf(facts);
      && r.total == |facts| && r.positives <= r.eligible
      && r.eligible + r.otherPeriodOnly + r.notEvaluated <= r.total
      && r.total <= r.eligible + r.otherPeriodOnly + r.replayFailed + r.notEvaluated
      && (r.replayFailed == 0 ==> r.total == r.eligible + r.otherPeriodOnly + r.notEvaluated)
  {
    hide HasQualifying, HasWon, StandingOf;
    if facts != [] {
      RateAddsUp(facts[..|facts| - 1]);
      EligibleIffNotExcluded(facts[|facts| - 1]);
      EligibleMeans(facts[|facts| - 1]);
    }
  }

  lemma EligibleMeans(f: Facts)
    ensures EligibleDecision(f) ==> StandingOf(f) == Evaluated && HasQualifying(f) && f.replay.Some?
    ensures f.replay.Some? && !EligibleDecision(f) ==> Excluded(f, OtherPeriodOnly) != Excluded(f, NotEvaluated)
  {
    EligibleIffNotExcluded(f);
  }

  datatype Standings = Standings(evaluated: nat, unknown: nat, open: nat, unattributed: nat)

  /** The four counts, filled in one pass. */
  method CountStandings(facts: seq<Facts>) returns (r: Standings)
    ensures r == StandingsOf(facts)
    ensures r.evaluated + r.unknown + r.open + r.unattributed == |facts|
  {
    r := Standings(0, 0, 0, 0);
    for i := 0 to |facts|
      invariant r == StandingsOf(facts[..i])
      invariant r.evaluated + r.unknown + r.open + r.unattributed == i
    {
      assert facts[..i + 1][..i] == facts[..i];
      match StandingOf(facts[i]) {
        case Evaluated => r := r.(evaluated := r.evaluated + 1);
        case UnknownOutcome => r := r.(unknown := r.unknown + 1);
        case OpenOutcome => r := r.(open := r.open + 1);
        case Unattributed => r := r.(unattributed := r.unattributed + 1);
      }
    }
    assert facts[..|facts|] == facts;
  }

  function WithStanding(facts: seq<Facts>, standing: DecisionStanding): nat {
    if facts == [] then 0
    else WithStanding(facts[..|facts| - 1], standing) + if StandingOf(facts[|facts| - 1]) == standing then 1 else 0
  }

  function StandingsOf(facts: seq<Facts>): Standings {
    Standings(
      WithStanding(facts, Evaluated), WithStanding(facts, UnknownOutcome),
      WithStanding(facts, OpenOutcome), WithStanding(facts, Unattributed))
  }

  function InState(facts: seq<Facts>, signal: Signal, state: SignalState): nat {
    if facts == [] then 0
    else InState(facts[..|facts| - 1], signal, state) + if SignalOf(signal, facts[|facts| - 1]) == state then 1 else 0
  }

  /** The six states of a signal partition the population. */
  lemma {:induction false} SignalPartition(facts: seq<Facts>, signal: Signal)
    ensures InState(facts, signal, KnownTrue) + InState(facts, signal, KnownFalse)
          + InState(facts, signal, SignalUnavailable) + InState(facts, signal, SignalAbsent)
          + InState(facts, signal, NotApplicable) + InState(facts, signal, ReplayFailed) == |facts|
  {
    hide SignalOf;
    if facts != [] {
      SignalPartition(facts[..|facts| - 1], signal);
    }
  }

  function Cohort(facts: seq<Facts>, version: string): seq<Facts> {
    if facts == [] then []
    else
      var before := Cohort(facts[..|facts| - 1], version);
      if facts[|facts| - 1].workflow == version then before + [facts[|facts| - 1]] else before
  }

  function CohortTotal(facts: seq<Facts>, versions: seq<string>): nat {
    if versions == [] then 0
    else CohortTotal(facts, versions[..|versions| - 1]) + |Cohort(facts, versions[|versions| - 1])|
  }

  lemma {:induction false} CohortTotalStep(before: seq<Facts>, f: Facts, versions: seq<string>)
    requires Distinct(versions)
    ensures CohortTotal(before + [f], versions)
         == CohortTotal(before, versions) + if f.workflow in versions then 1 else 0
  {
    if versions != [] {
      CohortTotalStep(before, f, versions[..|versions| - 1]);
      assert (before + [f])[..|before|] == before;
      assert f.workflow in versions <==>
        f.workflow in versions[..|versions| - 1] || f.workflow == versions[|versions| - 1];
    }
  }

  lemma {:induction false} CohortsOfNone(versions: seq<string>)
    ensures CohortTotal([], versions) == 0
  {
    if versions != [] {
      CohortsOfNone(versions[..|versions| - 1]);
    }
  }

  /** The workflow cohorts over the versions that occur partition the population. */
  lemma {:induction false} CohortPartition(facts: seq<Facts>, versions: seq<string>)
    requires Distinct(versions) && forall f :: f in facts ==> f.workflow in versions
    ensures CohortTotal(facts, versions) == |facts|
  {
    if facts == [] {
      CohortsOfNone(versions);
    } else {
      var before, f := facts[..|facts| - 1], facts[|facts| - 1];
      CohortPartition(before, versions);
      assert facts == before + [f] && f in facts;
      CohortTotalStep(before, f, versions);
    }
  }

  // --- One member names the rule of its artifact ----------------------------------------------------------------

  /** Two replays of the same artifact have the same factor text on every key, so any one
      decision of an artifact names the rule for all of them. */
  lemma SameArtifactSameRule(
    a: E.Artifact, c: seq<E.ContextInput<string>>, d: seq<E.ContextInput<string>>, x: int, y: int, key: string)
    requires E.Evaluate(a, c, x).Done? && E.Evaluate(a, d, y).Done?
    ensures var f := FirstFactor(E.Evaluate(a, c, x).value.factors, key);
      var g := FirstFactor(E.Evaluate(a, d, y).value.factors, key);
      (f.Some? <==> g.Some?) && (f.Some? ==> f.value.rule == g.value.rule && f.value.weight == g.value.weight)
  {
    TextKept(a, c, x);
    TextKept(a, d, y);
    hide E.Evaluate;
    FirstAlike(E.Evaluate(a, c, x).value.factors, E.Evaluate(a, d, y).value.factors, key);
  }

  lemma TextKept(a: E.Artifact, c: seq<E.ContextInput<string>>, x: int)
    requires E.Evaluate(a, c, x).Done?
    ensures var r := E.Evaluate(a, c, x).value.factors;
      |r| == |a.factors| && forall i :: 0 <= i < |r| ==>
        r[i].key == a.factors[i].key && r[i].rule == a.factors[i].rule && r[i].weight == a.factors[i].weight
  {
    hide E.EvaluateFactor, E.ParseAll, E.States, E.IgnoredKeys, E.UniqueKeys;
    var r := E.Evaluate(a, c, x).value.factors;
    forall i | 0 <= i < |r|
      ensures r[i].key == a.factors[i].key && r[i].rule == a.factors[i].rule && r[i].weight == a.factors[i].weight
    {
      CF.FactorKept(a.factors[i], r[i], c, x);
    }
  }

  lemma {:induction false} FirstAlike(x: seq<E.FactorResult<string>>, y: seq<E.FactorResult<string>>, key: string)
    requires |x| == |y| && forall i :: 0 <= i < |x| ==>
        x[i].key == y[i].key && x[i].rule == y[i].rule && x[i].weight == y[i].weight
    ensures var f, g := FirstFactor(x, key), FirstFactor(y, key);
      (f.Some? <==> g.Some?) && (f.Some? ==> f.value.rule == g.value.rule && f.value.weight == g.value.weight)
  {
    if x != [] && x[0].key != key {
      FirstAlike(x[1..], y[1..], key);
    }
  }
}
