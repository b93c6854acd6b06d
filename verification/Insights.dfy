/** Decision metrics over effective selections at one cutoff, with every decision replayed
    from what it preserved. */
module Insights {
  import opened Outcome
  import opened Ledger
  import opened AttributionPolicy
  import opened Collector
  import opened AttributionSafety
  import opened AttributionCredit
  import DecisionReplay
  import E = Evaluator
  import R = Rules

  const QUALIFYING_DAYS := 90
  const DAY := 24 * 3600 * 1_000_000

  datatype ObservationState = Open | ClosedKnown | ClosedUnknown

  /** One effective outcome version; no standing while it awaits attribution. */
  datatype Observation = Observation(
    outcome: EventId,
    account: string,
    standing: Option<Status>,
    state: ObservationState,
    ninetyDays: bool,
    won: Option<bool>,
    decision: Option<EventId>)

  predicate Attributable(o: Observation) {
    o.standing == Some(Direct) || o.standing == Some(Inferred)
  }

  predicate Qualifying(o: Observation) {
    Attributable(o) && o.state == ClosedKnown && o.ninetyDays
  }

  function StateOf(e: Event): ObservationState {
    match e.body
    case OutcomeV2(_, _, closed, _, _, _, _, opportunity) =>
      if !closed then Open else if opportunity.Some? then ClosedKnown else ClosedUnknown
    case _ => ClosedKnown
  }

  predicate ExactlyNinetyDays(e: Event) {
    match e.body
    case OutcomeV1(_, days, _) => days == QUALIFYING_DAYS
    case OutcomeV2(opens, closes, _, _, _, _, _, _) => closes - opens == QUALIFYING_DAYS * DAY
    case _ => false
  }

  function WonOf(e: Event): Option<bool> {
    match e.body
    case OutcomeV1(_, _, won) => Some(won)
    case OutcomeV2(_, _, _, _, _, _, _, opportunity) => opportunity
    case _ => None
  }

  function ObservationOf(e: Event, result: Option<Event>): Observation
    requires result.Some? ==> result.value.body.Attributed?
  {
    Observation(
      e.id, e.account,
      if result.Some? then Some(result.value.body.result.status) else None,
      StateOf(e), ExactlyNinetyDays(e), WonOf(e),
      if result.Some? then result.value.body.result.decision else None)
  }

  /** The effective result of one version, read as an observation. */
  function Observe(l: Ledger, id: EventId, cutoff: int): Outcome<Observation> {
    var result :- EffectiveAttribution(l, id, POLICY_VERSION, cutoff);
    var e :- LoadOutcome(l, id, cutoff);
    var _ :- Require(result.Some? ==> result.value.body.Attributed?, "not a result");
    Done(ObservationOf(e, result))
  }

  function ObserveAll(l: Ledger, ids: seq<EventId>, cutoff: int): Outcome<seq<Observation>> {
    if ids == [] then Done([])
    else
      var before :- ObserveAll(l, ids[..|ids| - 1], cutoff);
      var last :- Observe(l, ids[|ids| - 1], cutoff);
      Done(before + [last])
  }

  /** Effective versions, then the effective result of each. */
  function Observations(l: Ledger, cutoff: int, account: Option<string>): Outcome<seq<Observation>> {
    var ids :- EffectiveVersions(l, cutoff, account, |l|);
    ObserveAll(l, ids, cutoff)
  }

  method ReadObservations(l: Ledger, cutoff: int, account: Option<string>) returns (r: Outcome<seq<Observation>>)
    ensures r == Observations(l, cutoff, account)
  {
    hide Observe, EffectiveVersions;
    var ids := SelectVersions(l, cutoff, account);
    if ids.Refused? {
      return Refused(ids.reason);
    }
    var facts: seq<Observation> := [];
    for i := 0 to |ids.value|
      invariant ObserveAll(l, ids.value[..i], cutoff) == Done(facts)
    {
      assert ids.value[..i + 1][..i] == ids.value[..i];
      ObserveStops(l, ids.value, i + 1, cutoff);
      var one := Observe(l, ids.value[i], cutoff);
      if one.Refused? {
        return Refused(one.reason);
      }
      facts := facts + [one.value];
    }
    assert ids.value[..|ids.value|] == ids.value;
    r := Done(facts);
  }

  lemma ObserveStops(l: Ledger, ids: seq<EventId>, n: nat, cutoff: int)
    requires n <= |ids|
    ensures ObserveAll(l, ids[..n], cutoff).Refused? ==> ObserveAll(l, ids, cutoff) == ObserveAll(l, ids[..n], cutoff)
    decreases |ids| - n
  {
    hide Observe;
    if n < |ids| {
      assert ids[..n + 1][..n] == ids[..n];
      ObserveStops(l, ids, n + 1, cutoff);
    } else {
      assert ids[..n] == ids;
    }
  }

  /** The observations credited to one decision. */
  function CreditedTo(observations: seq<Observation>, decision: EventId): seq<Observation> {
    if observations == [] then []
    else
      var before := CreditedTo(observations[..|observations| - 1], decision);
      var last := observations[|observations| - 1];
      if Attributable(last) && last.decision == Some(decision) then before + [last] else before
  }

  /** The table of credited observations, filled in one pass. */
  method Group(decisions: set<EventId>, observations: seq<Observation>) returns (groups: map<EventId, seq<Observation>>)
    ensures groups.Keys == decisions
    ensures forall d :: d in decisions ==> groups[d] == CreditedTo(observations, d)
  {
    groups := map d | d in decisions :: [];
    for i := 0 to |observations|
      invariant groups.Keys == decisions
      invariant forall d :: d in decisions ==> groups[d] == CreditedTo(observations[..i], d)
    {
      assert observations[..i + 1][..i] == observations[..i];
      var o := observations[i];
      if Attributable(o) && o.decision.Some? && o.decision.value in groups {
        groups := groups[o.decision.value := groups[o.decision.value] + [o]];
      }
    }
    assert observations[..|observations|] == observations;
  }

  // --- The population and its facts --------------------------------------------------------

  /** Row i is a prioritization decision of a prospect recorded by the cutoff. */
  predicate InPopulation(l: Ledger, i: nat, cutoff: int) {
    && i < |l| && i < cutoff
    && l[i].body.Decided? && l[i].body.kind == PRIORITIZATION && l[i].account != SYSTEM_ACCOUNT
  }

  function Population(l: Ledger, cutoff: int, n: nat): seq<nat>
    requires n <= |l|
  {
    if n == 0 then []
    else
      var before := Population(l, cutoff, n - 1);
      if InPopulation(l, n - 1, cutoff) then before + [n - 1] else before
  }

  datatype SignalKind = RuleSignal(rule: string) | ValueSignal(equals: R.Scalar)

  datatype Signal = Signal(id: string, kind: SignalKind, key: string)

  datatype SignalState = KnownTrue | KnownFalse | SignalUnavailable | SignalAbsent | NotApplicable | ReplayFailed

  function FirstFactor(factors: seq<E.FactorResult<string>>, key: string): Option<E.FactorResult<string>> {
    if factors == [] then None
    else if factors[0].key == key then Some(factors[0])
    else FirstFactor(factors[1..], key)
  }

  function FirstExact(factors: seq<E.FactorResult<string>>, key: string, rule: string): Option<E.FactorResult<string>> {
    if factors == [] then None
    else if factors[0].key == key && factors[0].rule == rule then Some(factors[0])
    else FirstExact(factors[1..], key, rule)
  }

  /** The values a decision's context preserved, by key. */
  function AvailableValues(context: seq<ContextEntry>): map<string, R.Scalar> {
    if context == [] then map[]
    else
      var before := AvailableValues(context[..|context| - 1]);
      var last := context[|context| - 1];
      if last.available then before[last.key := last.value] else before - {last.key}
  }

  function ConsumedKeys(consumed: seq<UsedInput>): set<string> {
    set i | 0 <= i < |consumed| :: consumed[i].key
  }

  /** What is known of one decision at a cutoff; no replay where reconstruction refused. */
  datatype Facts = Facts(
    decision: EventId,
    account: string,
    workflow: string,
    replay: Option<E.Evaluation<string>>,
    preserved: map<string, R.Scalar>,
    consumed: set<string>,
    observations: seq<Observation>)

  function SignalOf(signal: Signal, f: Facts): SignalState {
    match f.replay
    case None => ReplayFailed
    case Some(result) =>
      match signal.kind
      case RuleSignal(rule) =>
        (match FirstExact(result.factors, signal.key, rule)
         case None => NotApplicable
         case Some(factor) =>
           if factor.state == E.Absent then SignalAbsent
           else if factor.state == E.Unavailable then SignalUnavailable
           else if factor.matched then KnownTrue else KnownFalse)
      case ValueSignal(equals) =>
        if signal.key !in result.states then SignalAbsent
        else if result.states[signal.key] == E.Unavailable then SignalUnavailable
        else if signal.key in f.preserved && f.preserved[signal.key] == equals then KnownTrue else KnownFalse
  }

  function ReplayOf(l: Ledger, id: EventId): Option<E.Evaluation<string>> {
    match DecisionReplay.Reconstruct(l, id)
    case Done(result) => Some(result)
    case Refused(_) => None
  }

  function FactsAt(l: Ledger, i: nat, observations: seq<Observation>): Facts
    requires i < |l| && l[i].body.Decided?
  {
    Facts(
      l[i].id, l[i].account, l[i].body.workflow, ReplayOf(l, l[i].id),
      AvailableValues(l[i].body.record.context), ConsumedKeys(l[i].body.record.consumed),
      CreditedTo(observations, l[i].id))
  }

  function FactsOf(l: Ledger, rows: seq<nat>, observations: seq<Observation>): (r: seq<Facts>)
    requires forall k :: 0 <= k < |rows| ==> rows[k] < |l| && l[rows[k]].body.Decided?
    ensures |r| == |rows| && forall k :: 0 <= k < |rows| ==> r[k] == FactsAt(l, rows[k], observations)
  {
    seq(|rows|, k requires 0 <= k < |rows| => FactsAt(l, rows[k], observations))
  }

  lemma {:induction false} PopulationRows(l: Ledger, cutoff: int, n: nat)
    requires n <= |l|
    ensures forall i: nat :: i in Population(l, cutoff, n) <==> i < n && InPopulation(l, i, cutoff)
    ensures forall k :: 0 <= k < |Population(l, cutoff, n)| ==> InPopulation(l, Population(l, cutoff, n)[k], cutoff)
  {
    if n > 0 {
      PopulationRows(l, cutoff, n - 1);
    }
  }

  /** Every decision's facts, from all effective observations. */
  function GlobalFacts(l: Ledger, cutoff: int): Outcome<seq<Facts>> {
    var _ :- ValidateCutoff(l, cutoff);
    var observations :- Observations(l, cutoff, None);
    PopulationRows(l, cutoff, |l|);
    Done(FactsOf(l, Population(l, cutoff, |l|), observations))
  }

  /** One decision's facts, with the selections scoped to its own account. */
  function ScopedFacts(l: Ledger, cutoff: int, decision: EventId): Outcome<Facts> {
    var _ :- ValidateCutoff(l, cutoff);
    match Find(l, decision)
    case None => Refused("decision not in the population")
    case Some(i) =>
      var _ :- Require(InPopulation(l, i, cutoff), "decision not in the population");
      var observations :- Observations(l, cutoff, Some(l[i].account));
      Done(FactsAt(l, i, observations))
  }
}
