/** The collector's atomic append: idempotency first, then the account rules and the
    cross-event references, then one new row or none. */
module Collector {
  import opened Outcome
  import opened Ledger
  import opened AttributionPolicy
  import D = DecisionRecords

  datatype Answer = Created | Duplicate

  /** The account row the first discovery of an account left. */
  function AccountRow(l: Ledger, account: string): Option<(string, string)> {
    if l == [] then None
    else
      var before := AccountRow(l[..|l| - 1], account);
      var last := l[|l| - 1];
      if before.Some? then before
      else if last.account == account && last.body.Discovered? then Some((last.body.name, last.body.domain))
      else None
  }

  function CheckAccount(l: Ledger, e: Event): Outcome<()> {
    match e.body
    case ArtifactRegistered(_) => Done(())
    case Discovered(name, domain) =>
      var row := AccountRow(l, e.account);
      Require(row == None || row == Some((name, domain)), "account_identity_mismatch")
    case _ => Require(AccountRow(l, e.account).Some?, "unknown_account_ref")
  }

  /** A persona selection or an action follows a decision of the same account. */
  function CheckDecisionReference(l: Ledger, e: Event, decision: EventId): Outcome<()> {
    var row := LoadDecision(l, decision, |l|);
    var _ :- Require(row.Some?, "unknown_decision_event_id");
    var _ :- Require(row.value.account == e.account, "decision_belongs_to_another_account");
    Require(row.value.body.boundary <= e.occurredAt, "decision_is_later_than_the_event")
  }

  /** A version 1 outcome strictly follows an action of the same account. */
  function CheckActionReference(l: Ledger, e: Event, action: EventId): Outcome<()> {
    var row := LoadAction(l, action, |l|);
    var _ :- Require(row.Some?, "unknown_action_event_id");
    var _ :- Require(row.value.account == e.account, "action_belongs_to_another_account");
    Require(row.value.occurredAt < e.occurredAt, "action_is_not_before_the_outcome")
  }

  /** A replacement names the current effective version of a chain of its own account. */
  function CheckOutcomeSupersession(l: Ledger, e: Event, superseded: EventId): Outcome<()> {
    var target := LoadOutcome(l, superseded, |l|);
    var _ :- Require(target.Done?, "unknown_superseded_outcome");
    var _ :- Require(target.value.account == e.account, "superseded_outcome_belongs_to_another_account");
    var effective :- EffectiveVersion(l, superseded, |l|);
    Require(effective == superseded, "superseded_outcome_is_not_effective")
  }

  /** A first result, or a replacement of the current one at a strictly newer cutoff. */
  function CheckResultSupersession(l: Ledger, result: Result, supersedes: Option<EventId>): Outcome<()> {
    var current :- EffectiveAttribution(l, result.outcome, result.policy, |l|);
    match supersedes
    case None => Require(current == None, "attribution_already_recorded")
    case Some(superseded) =>
      var found := Find(l, superseded);
      var _ :- Require(found.Some? && l[found.value].body.Attributed?, "unknown_superseded_attribution");
      var target := l[found.value];
      var _ :- Require(target.body.result.outcome == result.outcome, "superseded_attribution_is_for_another_outcome");
      var _ :- Require(target.body.result.policy == result.policy, "superseded_attribution_is_for_another_policy");
      var _ :- Require(
        current.Some? && current.value.id == superseded, "superseded_attribution_is_not_effective");
      Require(target.body.result.cutoff < result.cutoff, "replacement_attribution_cutoff_is_not_newer")
  }

  /** Resolved references are real records of the account. */
  function CheckResolved(l: Ledger, result: Result, account: string): Outcome<()> {
    var _ :-
      match result.action
      case None => Done(())
      case Some(id) =>
        var row := LoadAction(l, id, |l|);
        var _ :- Require(row.Some?, "unknown_resolved_action");
        Require(row.value.account == account, "resolved_action_belongs_to_another_account");
    match result.decision
    case None => Done(())
    case Some(id) =>
      var row := LoadDecision(l, id, |l|);
      var _ :- Require(row.Some?, "unknown_resolved_decision");
      Require(row.value.account == account, "resolved_decision_belongs_to_another_account")
  }

  function SameOperation(e: Event, r: Result): bool {
    IsResultFor(e, r.outcome, r.policy) && e.body.result.cutoff == r.cutoff
  }

  predicate Recorded(l: Ledger, r: Result) {
    exists i :: 0 <= i < |l| && SameOperation(l[i], r)
  }

  /** A result is accepted only when the policy, recomputed at its cutoff, agrees. */
  function CheckAttribution(l: Ledger, e: Event): Outcome<()>
    requires e.body.Attributed?
  {
    var r := e.body.result;
    var outcome := LoadOutcome(l, r.outcome, |l|);
    var _ :- Require(outcome.Done?, "unknown_outcome_event_id");
    var _ :- Require(outcome.value.account == e.account, "attributed_outcome_belongs_to_another_account");
    var effective :- EffectiveVersion(l, r.outcome, |l|);
    var _ :- Require(effective == r.outcome, "attributed_outcome_version_is_superseded");
    var _ :- Require(r.policy == POLICY_VERSION, "unsupported_policy_version");
    var _ :- ValidateCutoff(l, r.cutoff);
    var _ :- LoadOutcome(l, r.outcome, r.cutoff);
    var _ :- Require(!Recorded(l, r), "attribution_operation_already_recorded");
    var _ :- Require(
      e.id == AttributionId(r.outcome, r.policy, r.cutoff), "attribution_event_id_is_not_the_operation_identity");
    var _ :- CheckResultSupersession(l, r, e.body.supersedesResult);
    var _ :- CheckResolved(l, r, e.account);
    var recomputed :- Attribute(l, r.outcome, r.cutoff, r.policy);
    Require(recomputed == r, "attribution_disagrees_with_policy")
  }

  function CheckReferences(l: Ledger, e: Event): Outcome<()> {
    match e.body
    case ArtifactRegistered(artifact) => D.CheckArtifact(l, artifact)
    case EvidenceRecorded(_, items) => D.CheckItems(l, e, items)
    case Decided(_, _, _, _) => D.CheckDecision(l, e)
    case PersonaSelected(decision) => CheckDecisionReference(l, e, decision)
    case Acted(decision, _) => CheckDecisionReference(l, e, decision)
    case OutcomeV1(action, _, _) => CheckActionReference(l, e, action)
    case OutcomeV2(_, _, _, _, _, _, supersedes, _) =>
      if supersedes.Some? then CheckOutcomeSupersession(l, e, supersedes.value) else Done(())
    case Attributed(_, _, _) => CheckAttribution(l, e)
    case _ => Done(())
  }

  /** A new row is admitted: its id is fresh and every check passes. */
  function Admit(l: Ledger, e: Event): Outcome<()> {
    var _ :- Require(WireValid(e), "invalid_envelope");
    var _ :- Require(Find(l, e.id) == None, "event_id_reused_with_different_content");
    var _ :- CheckAccount(l, e);
    CheckReferences(l, e)
  }

  /** One ingest call: the ledger afterwards and the answer, or the refusal. */
  function Ingest(l: Ledger, e: Event): Outcome<(Ledger, Answer)> {
    var _ :- Require(WireValid(e), "invalid_envelope");
    match Find(l, e.id)
    case Some(i) =>
      var _ :- Require(l[i] == e, "event_id_reused_with_different_content");
      Done((l, Duplicate))
    case None =>
      var _ :- Admit(l, e);
      Done((l + [e], Created))
  }

  /** The ledgers the collector can reach: every row was admitted by its own prefix. */
  ghost predicate Reachable(l: Ledger) {
    forall i :: 0 <= i < |l| ==> Admit(l[..i], l[i]).Done?
  }

  /** The ledger as the mutable store it is. */
  class Store {
    var events: Ledger

    ghost predicate Valid()
      reads this
    {
      Reachable(events)
    }

    constructor ()
      ensures Valid() && events == []
    {
      events := [];
    }

    method Submit(e: Event) returns (r: Outcome<Answer>)
      requires Valid()
      modifies this
      ensures Valid()
      ensures match Ingest(old(events), e)
        case Done((l, answer)) => events == l && r == Done(answer)
        case Refused(why) => events == old(events) && r == Refused(why)
    {
      IngestReachable(events, e);
      if !WireValid(e) {
        return Refused("invalid_envelope");
      }
      var existing := Find(events, e.id);
      if existing.Some? {
        return if events[existing.value] == e then Done(Duplicate)
          else Refused("event_id_reused_with_different_content");
      }
      var account := CheckAccount(events, e);
      if account.Refused? {
        return Refused(account.reason);
      }
      var references := CheckReferences(events, e);
      if references.Refused? {
        return Refused(references.reason);
      }
      events := events + [e];
      r := Done(Created);
    }
  }

  lemma ReachableAppend(l: Ledger, e: Event)
    requires Reachable(l) && Admit(l, e).Done?
    ensures Reachable(l + [e])
  {
    hide Admit;
    forall i | 0 <= i < |l + [e]| ensures Admit((l + [e])[..i], (l + [e])[i]).Done? {
      if i < |l| {
        assert (l + [e])[..i] == l[..i];
      } else {
        assert (l + [e])[..i] == l;
      }
    }
  }

  lemma ReachablePrefix(l: Ledger, n: nat)
    requires Reachable(l) && n <= |l|
    ensures Reachable(l[..n])
  {
    hide Admit;
    forall i | 0 <= i < n ensures Admit(l[..n][..i], l[..n][i]).Done? {
      assert l[..n][..i] == l[..i];
    }
  }

  lemma IngestReachable(l: Ledger, e: Event)
    requires Reachable(l)
    ensures Ingest(l, e).Done? ==> Reachable(Ingest(l, e).value.0)
  {
    hide CheckAccount, CheckReferences, Reachable;
    if Ingest(l, e).Done? && Find(l, e.id).None? {
      ReachableAppend(l, e);
    }
  }
}
