/** The deterministic attribution policy: every read keeps only rows whose ingest
    sequence is at or below the snapshot cutoff. */
module AttributionPolicy {
  import opened Outcome
  import opened Ledger

  const POLICY_VERSION := "outcome-attribution-v1"
  const LOOKBACK_DAYS := 90
  /** Instants are microseconds. */
  const LOOKBACK := LOOKBACK_DAYS * 24 * 3600 * 1_000_000

  /** The ledger's maximum ingest sequence is its length; none when it is empty. */
  function ValidateCutoff(l: Ledger, cutoff: int): Outcome<int> {
    var _ :- Require(l != [] && cutoff <= |l|, "ingest_cutoff_above_ledger_maximum");
    var _ :- Require(1 <= cutoff, "ingest_cutoff_not_found");
    Done(cutoff)
  }

  function LoadOutcome(l: Ledger, id: EventId, cutoff: int): (r: Outcome<Event>)
    ensures r.Done? <==> exists i {:trigger l[i]} ::
      0 <= i < |l| && Find(l, id) == Some(i) && IsOutcome(l[i]) && i + 1 <= cutoff
    ensures r.Done? ==> r.value.id == id && IsOutcome(r.value)
  {
    match Find(l, id)
    case None => Refused("unknown_outcome_event_id")
    case Some(i) =>
      var _ :- Require(IsOutcome(l[i]), "unknown_outcome_event_id");
      var _ :- Require(i + 1 <= cutoff, "ingest_cutoff_excludes_the_outcome");
      Done(l[i])
  }

  /** An action as the snapshot records it; its decision only if recorded by the cutoff. */
  datatype Candidate = Candidate(
    id: EventId,
    account: string,
    decision: EventId,
    status: ActionStatus,
    occurredAt: int,
    sequence: nat,
    linked: Option<(string, string)>)

  function LoadDecision(l: Ledger, id: EventId, cutoff: int): (r: Option<Event>)
    ensures r.Some? ==> r.value.id == id && r.value.body.Decided?
  {
    match Find(l, id)
    case None => None
    case Some(i) => if i + 1 <= cutoff && l[i].body.Decided? then Some(l[i]) else None
  }

  function CandidateAt(l: Ledger, i: nat, cutoff: int): Candidate
    requires i < |l| && l[i].body.Acted?
  {
    var decision := LoadDecision(l, l[i].body.decision, cutoff);
    Candidate(
      l[i].id, l[i].account, l[i].body.decision, l[i].body.status, l[i].occurredAt, i + 1,
      if decision.Some? then Some((decision.value.body.kind, decision.value.account)) else None)
  }

  function LoadAction(l: Ledger, id: EventId, cutoff: int): (r: Option<Candidate>)
    ensures r.Some? ==> r.value.id == id
  {
    match Find(l, id)
    case None => None
    case Some(i) => if i + 1 <= cutoff && l[i].body.Acted? then Some(CandidateAt(l, i, cutoff)) else None
  }

  /** Every action of the account recorded by the cutoff, among the first n rows. */
  function AccountActions(l: Ledger, account: string, cutoff: int, n: nat): seq<Candidate>
    requires n <= |l|
  {
    if n == 0 then []
    else
      var before := AccountActions(l, account, cutoff, n - 1);
      if n <= cutoff && l[n - 1].body.Acted? && l[n - 1].account == account
      then before + [CandidateAt(l, n - 1, cutoff)]
      else before
  }

  function ActionProblem(action: Option<Candidate>, account: string, observed: int): Option<Problem> {
    match action
    case None => Some(ActionNotRecordedByCutoff)
    case Some(a) =>
      if a.account != account then Some(ActionOtherAccount)
      else if a.status != Sent && a.status != Completed then Some(Problem.ActionFailed)
      else if a.linked != Some((PRIORITIZATION, account)) then Some(ActionNotLinkedToPrioritization)
      else if !(a.occurredAt < observed) then Some(ActionNotBeforeObservation)
      else if observed - a.occurredAt > LOOKBACK then Some(ActionOutsideLookback)
      else None
  }

  function DecisionProblem(decision: Option<Event>, account: string, observed: int): Option<Problem>
    requires decision.Some? ==> decision.value.body.Decided?
  {
    match decision
    case None => Some(DecisionNotRecordedByCutoff)
    case Some(d) =>
      if d.account != account then Some(DecisionOtherAccount)
      else if d.body.kind != PRIORITIZATION then Some(DecisionNotPrioritization)
      else if !(d.body.boundary < observed) then Some(DecisionNotBeforeObservation)
      else None
  }

  predicate Later(a: Candidate, b: Candidate) {
    a.occurredAt > b.occurredAt || (a.occurredAt == b.occurredAt && a.sequence > b.sequence)
  }

  /** The latest occurrence instant, ties broken by the higher ingest sequence. */
  function MostRecent(candidates: seq<Candidate>): Option<Candidate> {
    if candidates == [] then None
    else
      var last := candidates[|candidates| - 1];
      match MostRecent(candidates[..|candidates| - 1])
      case None => Some(last)
      case Some(best) => if Later(last, best) then Some(last) else Some(best)
  }

  function Eligible(candidates: seq<Candidate>, account: string, observed: int): seq<Candidate> {
    if candidates == [] then []
    else
      var before := Eligible(candidates[..|candidates| - 1], account, observed);
      var last := candidates[|candidates| - 1];
      if ActionProblem(Some(last), account, observed) == None then before + [last] else before
  }

  function Problems(problem: Option<Problem>): seq<Problem> {
    if problem.Some? then [problem.value] else []
  }

  /** The policy's answer for a recorded outcome, given what the snapshot answers
      about its claims and its account's actions. */
  function Resolve(
    e: Event, cutoff: int, action: Option<Candidate>, decision: Option<Event>, candidates: seq<Candidate>): Result
    requires decision.Some? ==> decision.value.body.Decided?
  {
    var observed := ObservedAt(e);
    var actionProblems := if ActionClaim(e).Some? then Problems(ActionProblem(action, e.account, observed)) else [];
    var decisionProblems :=
      if DecisionClaim(e).Some? then Problems(DecisionProblem(decision, e.account, observed)) else [];
    var problems := actionProblems + decisionProblems;
    if problems != [] then FallBack(e, cutoff, problems, candidates)
    else
      match (action, decision)
      case (Some(a), Some(d)) =>
        if a.decision == d.id then Credit(e, cutoff, Some(a.id), d.id, ValidActionAndDecision)
        else FallBack(e, cutoff, [SourceReferencesDisagree], candidates)
      case (Some(a), None) => Credit(e, cutoff, Some(a.id), a.decision, ValidAction)
      case (None, Some(d)) => Credit(e, cutoff, None, d.id, ValidDecision)
      case (None, None) => FallBack(e, cutoff, [], candidates)
  }

  /** A valid explicit source reference. */
  function Credit(e: Event, cutoff: int, action: Option<EventId>, decision: EventId, reason: Reason): Result {
    Result(e.id, POLICY_VERSION, ExplicitReference, LOOKBACK_DAYS, action, Some(decision), Direct, reason, cutoff)
  }

  /** The most recent eligible action of the account, or no resolution. */
  function FallBack(e: Event, cutoff: int, claims: seq<Problem>, candidates: seq<Candidate>): Result {
    match MostRecent(Eligible(candidates, e.account, ObservedAt(e)))
    case Some(chosen) =>
      Result(e.id, POLICY_VERSION, MostRecentEligible, LOOKBACK_DAYS, Some(chosen.id), Some(chosen.decision),
             Inferred, Fallback(claims, true), cutoff)
    case None =>
      Result(e.id, POLICY_VERSION, NoResolution, LOOKBACK_DAYS, None, None, Unresolved, Fallback(claims, false), cutoff)
  }

  function Attribute(l: Ledger, id: EventId, cutoff: int, policy: string): Outcome<Result> {
    var _ :- Require(policy == POLICY_VERSION, "unsupported_policy_version");
    var _ :- ValidateCutoff(l, cutoff);
    var e :- LoadOutcome(l, id, cutoff);
    Done(Resolve(
      e, cutoff,
      if ActionClaim(e).Some? then LoadAction(l, ActionClaim(e).value, cutoff) else None,
      if DecisionClaim(e).Some? then LoadDecision(l, DecisionClaim(e).value, cutoff) else None,
      AccountActions(l, e.account, cutoff, |l|)))
  }

  // --- Selection ---------------------------------------------------------------------

  /** The versions recorded by the cutoff, among the first n rows, that replace `current`. */
  function Successors(l: Ledger, current: EventId, cutoff: int, n: nat): (r: seq<EventId>)
    requires n <= |l|
  {
    if n == 0 then []
    else
      var before := Successors(l, current, cutoff, n - 1);
      if n <= cutoff && IsOutcome(l[n - 1]) && SupersededBy(l[n - 1]) == Some(current)
      then before + [l[n - 1].id]
      else before
  }

  function Ids(l: Ledger): set<EventId> {
    set i | 0 <= i < |l| :: l[i].id
  }

  lemma SuccessorsRecorded(l: Ledger, current: EventId, cutoff: int, n: nat)
    requires n <= |l|
    ensures forall s :: s in Successors(l, current, cutoff, n) <==>
              exists i :: 0 <= i < n && i < cutoff && IsOutcome(l[i]) && SupersededBy(l[i]) == Some(current)
                && l[i].id == s
  {
  }

  /** Following the chain forward from `current`, having seen `seen`. */
  function Walk(l: Ledger, current: EventId, seen: set<EventId>, cutoff: int): Outcome<EventId>
    decreases Ids(l) - seen
  {
    var successors := Successors(l, current, cutoff, |l|);
    if |successors| > 1 then Refused("ambiguous_effective_selection")
    else if successors == [] then Done(current)
    else if successors[0] in seen then Refused("ambiguous_effective_selection")
    else
      SuccessorsRecorded(l, current, cutoff, |l|);
      assert successors[0] in successors;
      Walk(l, successors[0], seen + {successors[0]}, cutoff)
  }

  function EffectiveVersion(l: Ledger, id: EventId, cutoff: int): Outcome<EventId> {
    var _ :- LoadOutcome(l, id, cutoff);
    Walk(l, id, {id}, cutoff)
  }

  /** The forward walk as the loop it is. */
  method FollowChain(l: Ledger, id: EventId, cutoff: int) returns (r: Outcome<EventId>)
    ensures r == EffectiveVersion(l, id, cutoff)
  {
    var loaded := LoadOutcome(l, id, cutoff);
    if loaded.Refused? {
      return Refused(loaded.reason);
    }
    var current, seen := id, {id};
    while true
      invariant EffectiveVersion(l, id, cutoff) == Walk(l, current, seen, cutoff)
      decreases Ids(l) - seen
    {
      var successors := Successors(l, current, cutoff, |l|);
      if |successors| > 1 {
        return Refused("ambiguous_effective_selection");
      }
      if successors == [] {
        return Done(current);
      }
      SuccessorsRecorded(l, current, cutoff, |l|);
      assert successors[0] in successors;
      current := successors[0];
      if current in seen {
        return Refused("ambiguous_effective_selection");
      }
      seen := seen + {current};
    }
  }

  /** Every effective version among the first n rows, keyed by first appearance of its
      chain, restricted to one account when given. */
  function EffectiveVersions(l: Ledger, cutoff: int, account: Option<string>, n: nat): Outcome<seq<EventId>>
    requires n <= |l|
  {
    if n == 0 then Done([])
    else
      var before :- EffectiveVersions(l, cutoff, account, n - 1);
      var e := l[n - 1];
      if n <= cutoff && IsOutcome(e) && (account == None || account == Some(e.account)) then
        var version :- EffectiveVersion(l, e.id, cutoff);
        Done(if version in before then before else before + [version])
      else Done(before)
  }

  /** The loop that fills the ordered selection. */
  method SelectVersions(l: Ledger, cutoff: int, account: Option<string>) returns (r: Outcome<seq<EventId>>)
    ensures r == EffectiveVersions(l, cutoff, account, |l|)
  {
    var effective := [];
    for n := 0 to |l|
      invariant EffectiveVersions(l, cutoff, account, n) == Done(effective)
    {
      VersionsRefusedStays(l, cutoff, account, n + 1);
      if n + 1 <= cutoff && IsOutcome(l[n]) && (account == None || account == Some(l[n].account)) {
        var version := FollowChain(l, l[n].id, cutoff);
        if version.Refused? {
          return Refused(version.reason);
        }
        if version.value !in effective {
          effective := effective + [version.value];
        }
      }
    }
    r := Done(effective);
  }

  lemma VersionsRefusedStays(l: Ledger, cutoff: int, account: Option<string>, n: nat)
    requires n <= |l|
    ensures EffectiveVersions(l, cutoff, account, n).Refused? ==>
              EffectiveVersions(l, cutoff, account, |l|) == EffectiveVersions(l, cutoff, account, n)
    decreases |l| - n
  {
    if n < |l| {
      VersionsRefusedStays(l, cutoff, account, n + 1);
    }
  }

  /** The stored results of one outcome version and policy, among the first n rows. */
  predicate IsResultFor(e: Event, outcome: EventId, policy: string) {
    e.body.Attributed? && e.body.result.outcome == outcome && e.body.result.policy == policy
  }

  function Results(l: Ledger, outcome: EventId, policy: string, cutoff: int, n: nat): seq<Event>
    requires n <= |l|
  {
    if n == 0 then []
    else
      var before := Results(l, outcome, policy, cutoff, n - 1);
      if n <= cutoff && IsResultFor(l[n - 1], outcome, policy) then before + [l[n - 1]] else before
  }

  predicate Replaced(rows: seq<Event>, id: EventId) {
    exists k :: 0 <= k < |rows| && rows[k].body.Attributed? && rows[k].body.supersedesResult == Some(id)
  }

  function Tips(rows: seq<Event>, among: seq<Event>): seq<Event> {
    if among == [] then []
    else
      var before := Tips(rows, among[..|among| - 1]);
      var last := among[|among| - 1];
      if Replaced(rows, last.id) then before else before + [last]
  }

  /** The result of this exact version and policy that nothing supersedes, if any. */
  function EffectiveAttribution(l: Ledger, outcome: EventId, policy: string, cutoff: int): Outcome<Option<Event>> {
    var rows := Results(l, outcome, policy, cutoff, |l|);
    var tips := Tips(rows, rows);
    if |tips| > 1 then Refused("ambiguous_effective_selection")
    else if tips == [] then Done(None)
    else Done(Some(tips[0]))
  }
}
