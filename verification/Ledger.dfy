/** The append-only event ledger. The event at position i carries ingest sequence i + 1;
    an event's projected row lives in the event itself and is never rewritten. */
module Ledger {
  import opened Outcome
  import E = Evaluator
  import R = Rules

  /** Attribution operations derive their id from the operation; the hash is injective.
      Nothing stops another kind of event from carrying such an id. */
  datatype EventId =
    | Named(name: string)
    | AttributionId(outcome: EventId, policy: string, cutoff: int)

  datatype ActionStatus = Sent | Completed | Failed

  datatype Problem =
    | ActionNotRecordedByCutoff
    | ActionOtherAccount
    | ActionFailed
    | ActionNotLinkedToPrioritization
    | ActionNotBeforeObservation
    | ActionOutsideLookback
    | DecisionNotRecordedByCutoff
    | DecisionOtherAccount
    | DecisionNotPrioritization
    | DecisionNotBeforeObservation
    | SourceReferencesDisagree

  datatype Reason =
    | ValidAction
    | ValidDecision
    | ValidActionAndDecision
    | Fallback(problems: seq<Problem>, found: bool)

  datatype How = ExplicitReference | MostRecentEligible | NoResolution

  datatype Status = Direct | Inferred | Unresolved

  /** An attribution result with the snapshot cutoff it was computed at. */
  datatype Result = Result(
    outcome: EventId,
    policy: string,
    how: How,
    windowDays: int,
    action: Option<EventId>,
    decision: Option<EventId>,
    status: Status,
    reason: Reason,
    cutoff: int)

  /** One evidence version as its event mints it. */
  datatype EvidenceItem = EvidenceItem(
    version: string,
    kind: string,
    value: R.Scalar,
    observedAt: Option<int>,
    basis: Option<seq<string>>,
    supersedes: Option<string>)

  /** One input a decision preserved. */
  datatype ContextEntry = ContextEntry(key: string, available: bool, value: R.Scalar, version: Option<string>)

  /** One input a decision consumed. */
  datatype UsedInput = UsedInput(key: string, value: R.Scalar, version: string, contribution: int)

  /** What a decision recorded beside its boundary. An artifact hash is the artifact. */
  datatype DecisionRecord = DecisionRecord(
    context: seq<ContextEntry>,
    consumed: seq<UsedInput>,
    artifact: E.Artifact,
    artifactId: string,
    logicVersion: string,
    evaluatorVersion: string,
    score: int,
    threshold: int,
    output: string)

  datatype Body =
    | Discovered(name: string, domain: string)
    | ArtifactRegistered(artifact: E.Artifact)
    | EvidenceRecorded(source: string, items: seq<EvidenceItem>)
    | PersonaSelected(decision: EventId)
    | Decided(kind: string, boundary: int, workflow: string, record: DecisionRecord)
    | Acted(decision: EventId, status: ActionStatus)
    | OutcomeV1(action: EventId, windowDays: int, won: bool)
    | OutcomeV2(
        opens: int, closes: int, closed: bool, observedAt: int,
        sourceAction: Option<EventId>, sourceDecision: Option<EventId>, supersedes: Option<EventId>,
        opportunity: Option<bool>)
    | Attributed(result: Result, attributedAt: int, supersedesResult: Option<EventId>)
    | Other(content: string)

  datatype Event = Event(id: EventId, account: string, occurredAt: int, recordedAt: int, body: Body)

  type Ledger = seq<Event>

  const SYSTEM_ACCOUNT := "_system"
  const PRIORITIZATION := "account_prioritization"

  predicate IsOutcome(e: Event) {
    e.body.OutcomeV1? || e.body.OutcomeV2?
  }

  /** The outcome version this event replaces; version 1 outcomes replace none. */
  function SupersededBy(e: Event): Option<EventId> {
    if e.body.OutcomeV2? then e.body.supersedes else None
  }

  /** The one instant every temporal rule compares against. */
  function ObservedAt(e: Event): int {
    if e.body.OutcomeV2? then e.body.observedAt else e.occurredAt
  }

  function ActionClaim(e: Event): Option<EventId> {
    match e.body
    case OutcomeV1(action, _, _) => Some(action)
    case OutcomeV2(_, _, _, _, action, _, _, _) => action
    case _ => None
  }

  function DecisionClaim(e: Event): Option<EventId> {
    if e.body.OutcomeV2? then e.body.sourceDecision else None
  }

  /** The position of the event with this id. */
  function Find(l: Ledger, id: EventId): (r: Option<nat>)
    ensures r.Some? ==> r.value < |l| && l[r.value].id == id
    ensures r.None? ==> forall i :: 0 <= i < |l| ==> l[i].id != id
  {
    if l == [] then None
    else
      var before := Find(l[..|l| - 1], id);
      if before.Some? then before
      else if l[|l| - 1].id == id then Some(|l| - 1)
      else None
  }

  ghost predicate UniqueIds(l: Ledger) {
    forall i, j :: 0 <= i < j < |l| ==> l[i].id != l[j].id
  }

  lemma FindAt(l: Ledger, i: nat)
    requires UniqueIds(l) && i < |l|
    ensures Find(l, l[i].id) == Some(i)
  {
  }

  /** A lookup answers from the earliest rows, so appending never changes an answer. */
  lemma {:induction false} FindAppend(l: Ledger, more: Ledger, id: EventId)
    ensures Find(l, id).Some? ==> Find(l + more, id) == Find(l, id)
    ensures Find(l, id).None? && Find(l + more, id).Some? ==> Find(l + more, id).value >= |l|
    decreases |more|
  {
    if more == [] {
      assert l + more == l;
    } else {
      var init := more[..|more| - 1];
      FindAppend(l, init, id);
      assert (l + more)[..|l + more| - 1] == l + init;
    }
  }

  predicate MintedOnce(items: seq<EvidenceItem>) {
    items != [] && forall i, j :: 0 <= i < j < |items| ==> items[i].version != items[j].version
  }

  /** An available input names its evidence; an unavailable one carries nothing. */
  predicate EntryCoherent(x: ContextEntry) {
    if x.available then x.version.Some? else x.version == None && x.value == R.NullValue
  }

  /** A consumed input is an available preserved one, unchanged. */
  predicate UsedFrom(x: UsedInput, context: seq<ContextEntry>) {
    ContextEntry(x.key, true, x.value, Some(x.version)) in context
  }

  predicate RecordCoherent(r: DecisionRecord) {
    && r.context != [] && r.consumed != []
    && (forall i, j :: 0 <= i < j < |r.context| ==> r.context[i].key != r.context[j].key)
    && (forall i, j :: 0 <= i < j < |r.consumed| ==> r.consumed[i].key != r.consumed[j].key)
    && (forall i :: 0 <= i < |r.context| ==> EntryCoherent(r.context[i]))
    && (forall i :: 0 <= i < |r.consumed| ==> UsedFrom(r.consumed[i], r.context))
  }

  /** The rules one envelope must meet on its own. */
  predicate WireValid(e: Event) {
    && e.occurredAt <= e.recordedAt
    && (e.body.ArtifactRegistered? <==> e.account == SYSTEM_ACCOUNT)
    && match e.body
       case ArtifactRegistered(a) => E.WellFormed(a) && a.kind == PRIORITIZATION
       case EvidenceRecorded(_, items) => MintedOnce(items)
       case Decided(kind, boundary, _, record) =>
         kind == PRIORITIZATION && boundary == e.occurredAt && RecordCoherent(record)
       case OutcomeV2(opens, closes, closed, observed, _, _, _, _) =>
         && opens < closes
         && opens <= observed == e.occurredAt
         && (closed <==> closes <= observed)
       case Attributed(result, at, _) =>
         && at == e.occurredAt
         && (result.status == Direct ==> result.decision.Some?)
         && (result.status == Inferred ==> result.action.Some? && result.decision.Some?)
         && (result.status == Unresolved ==> result.action.None? && result.decision.None?)
       case _ => true
  }
}
