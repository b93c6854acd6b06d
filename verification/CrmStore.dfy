/** The CRM ledger as the mutable store it is: one admitted event appends its row and its
    projections, table by table, and a refused one leaves every table as it was. */
module CrmStores {
  import opened Outcome
  import opened CrmModel
  import opened CrmProvenance
  import opened CrmReplay
  import opened CrmMonotone
  import opened CrmReplaySafety
  import opened CrmOperations
  import opened CrmOperationSafety
  import E = Evaluator

  datatype Answer = Created | Duplicate

  /** A trace begins with the discovery of its account. */
  predicate Known(events: seq<Event>, account: Account) {
    exists i :: 0 <= i < |events| && events[i].body.Discovered? && events[i].account == account
  }

  function CheckReferences(db: Db, e: Event): Outcome<()> {
    if e.body.Operation? then ValidateOperation(db, e) else Validate(db, e)
  }

  /** One ingest call: the tables afterwards and the answer, or the refusal. */
  function Ingest(db: Db, e: Event): Outcome<(Db, Answer)> {
    var _ :- Require(WireValid(e), "invalid_envelope");
    match FindEvent(db.events, e.id)
    case Some(i) =>
      var _ :- Require(db.events[i] == e, "event_id_reused_with_different_content");
      Done((db, Duplicate))
    case None =>
      var _ :- Require(
        e.body.ArtifactRegistered? || e.body.Discovered? || Known(db.events, e.account), "unknown_account_ref");
      var _ :- CheckReferences(db, e);
      Done((Project(db, e), Created))
  }

  lemma IngestAdmits(db: Db, e: Event)
    requires Ingest(db, e).Done? && Ingest(db, e).value.1 == Created
    ensures Admits(db, e) && Ingest(db, e).value.0 == Project(db, e)
  {
    hide WireValid, FindEvent, Project, Known, CheckDecision, CheckItems, ValidateOperation;
  }

  class CrmStore {
    var events: seq<Event>
    var captures: seq<CaptureRow>
    var evidence: seq<EvidenceRow>
    var decisions: seq<DecisionRow>
    var context: seq<Listed>
    var consumed: seq<Listed>
    var artifacts: seq<E.Artifact>
    var operations: seq<OperationRow>

    function State(): Db
      reads this
    {
      Db(events, captures, evidence, decisions, context, consumed, artifacts, operations)
    }

    /** Every record reconstructs and every operation history verifies. */
    ghost predicate Valid()
      reads this
    {
      Sound(State())
    }

    constructor ()
      ensures Valid() && State() == EMPTY
    {
      events, captures, evidence, decisions := [], [], [], [];
      context, consumed, artifacts, operations := [], [], [], [];
      new;
      EmptySound();
    }

    method Submit(e: Event) returns (r: Outcome<Answer>)
      requires Valid()
      modifies this
      ensures Valid()
      ensures match Ingest(old(State()), e)
        case Done((db, answer)) => State() == db && r == Done(answer)
        case Refused(why) => State() == old(State()) && r == Refused(why)
    {
      hide Sound, WireValid, FindEvent, CheckReferences, Project;
      ghost var db := State();
      if !WireValid(e) {
        return Refused("invalid_envelope");
      }
      var existing := FindEvent(events, e.id);
      if existing.Some? {
        return if events[existing.value] == e then Done(Duplicate)
          else Refused("event_id_reused_with_different_content");
      }
      if !(e.body.ArtifactRegistered? || e.body.Discovered? || Known(events, e.account)) {
        return Refused("unknown_account_ref");
      }
      var references := CheckReferences(State(), e);
      if references.Refused? {
        return Refused(references.reason);
      }
      IngestAdmits(db, e);
      AdmitKeepsSound(db, e);
      Append(e);
      r := Done(Created);
    }

    /** Writes the event and the rows it projects. */
    method Append(e: Event)
      modifies this
      ensures State() == Project(old(State()), e)
    {
      hide WithCapture, MintedRows, Listing;
      var sequence := |events| + 1;
      events := events + [e];
      match e.body {
        case EvidenceRecorded(items, cap) =>
          BindCapture(e.account, cap, e.id);
          Mint(e.account, cap, items, e.id);
        case DecisionRecorded(p, cap) =>
          BindCapture(e.account, cap, e.id);
          decisions := decisions + [DecisionRowOf(e, sequence)];
          ListContext(e.id, p.context);
          ListConsumed(e.id, p.consumed);
        case ArtifactRegistered(a) =>
          if a !in artifacts {
            artifacts := artifacts + [a];
          }
        case Operation(o) =>
          operations := operations + [OperationRow(e.id, e.account, o, sequence)];
        case _ =>
      }
    }

    method BindCapture(account: Account, cap: Capture, source: EventId)
      modifies `captures
      ensures captures == WithCapture(old(captures), account, cap, source)
    {
      if FindCapture(captures, cap).None? {
        captures := captures + [CaptureRow(cap, account, source)];
      }
    }

    method Mint(account: Account, cap: Capture, items: seq<Item>, source: EventId)
      modifies `evidence
      ensures evidence == old(evidence) + MintedRows(account, cap, items, source)
    {
      for i := 0 to |items|
        invariant evidence == old(evidence) + MintedRows(account, cap, items[..i], source)
      {
        evidence := evidence + [RowOf(account, cap, items[i], source)];
        assert MintedRows(account, cap, items[..i + 1], source)
            == MintedRows(account, cap, items[..i], source) + [RowOf(account, cap, items[i], source)];
      }
      assert items[..|items|] == items;
    }

    method ListContext(id: EventId, entries: seq<Entry>)
      modifies `context
      ensures context == old(context) + Listing(id, entries)
    {
      for i := 0 to |entries|
        invariant context == old(context) + Listing(id, entries[..i])
      {
        context := context + [Listed(id, entries[i])];
        assert Listing(id, entries[..i + 1]) == Listing(id, entries[..i]) + [Listed(id, entries[i])];
      }
      assert entries[..|entries|] == entries;
    }

    method ListConsumed(id: EventId, entries: seq<Entry>)
      modifies `consumed
      ensures consumed == old(consumed) + Listing(id, entries)
    {
      for i := 0 to |entries|
        invariant consumed == old(consumed) + Listing(id, entries[..i])
      {
        consumed := consumed + [Listed(id, entries[i])];
        assert Listing(id, entries[..i + 1]) == Listing(id, entries[..i]) + [Listed(id, entries[i])];
      }
      assert entries[..|entries|] == entries;
    }
  }
}
