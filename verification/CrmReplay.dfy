/** Reading back: the whole recorded lineage is re-verified, then the pinned rules are run
    again over the preserved context and compared with the record. */
module CrmReplay {
  import opened Outcome
  import opened Rules
  import opened CrmModel
  import opened CrmProvenance
  import E = Evaluator

  /** One recorded decision with everything its verification established. */
  datatype Verified = Verified(
    row: DecisionRow, payload: Payload, capture: Capture, context: seq<Entry>, consumed: seq<Entry>,
      prior: Option<DecisionRow>)

  function CheckPredecessor(db: Db, row: DecisionRow, cap: Capture): Outcome<Option<DecisionRow>> {
    match cap.reprocesses
    case None => Done(None)
    case Some(unit) =>
      var found := FindDecision(db.decisions, OfUnit(unit));
      var _ :- Require(found.Some?, "missing recorded predecessor");
      var prior := found.value;
      var was :- OriginalCapture(db, prior.capture);
      var event :- VerifiedEvent(db.events, prior.id);
      var _ :- Require(
        && event.body.DecisionRecorded? && event.account == row.account
        && event.body.capture == prior.capture && event.body.capture == was.capture
        && prior.account == row.account
        && prior.unit == UnitOf(was.capture)
        && prior.logical == was.capture.observed && prior.processing == was.capture.processing
        && was.capture.observed == cap.observed
        && was.capture.processing != cap.processing
        && was.capture.sequence < cap.sequence
        && was.capture.boundary <= cap.boundary,
        "invalid recorded predecessor lineage");
      Done(Some(prior))
  }

  function CrmDecision(db: Db, id: EventId): Outcome<(nat, Event, DecisionRow)> {
    var found := FindEvent(db.events, id);
    var _ :- Require(
      id.DecisionId? && found.Some? && db.events[found.value].body.DecisionRecorded?, "not a v3 decision");
    var row := FindDecision(db.decisions, OfId(id));
    var _ :- Require(row.Some?, "known v3 decision projection is missing");
    Done((found.value, db.events[found.value], row.value))
  }

  /** Verifies one complete preserved record and its immediate predecessor. */
  function HistoryStep(db: Db, id: EventId): Outcome<Verified> {
    var (i, _, row) :- CrmDecision(db, id);
    var minted :- VerifiedEvent(db.events, id);
    var _ :- Require(minted.body.DecisionRecorded?, "not a v3 decision");
    var p := minted.body.payload;
    var captured :- OriginalCapture(db, row.capture);
    var cap := captured.capture;
    var _ :- Require(row == DecisionRowOf(minted, i + 1), "decision projection differs from canonical minting event");
    var _ :- Require(
      && minted.body.capture == cap
      && AccountOf(cap) == row.account
      && row.boundary == cap.boundary
      && row.workflow == cap.processing
      && row.artifact == cap.processing.artifact
      && row.evaluatorVersion == cap.processing.evaluatorVersion,
      "decision differs from preserved capture binding");
    var context := SortKeyed(EntriesOf(db.context, id));
    var consumed := SortKeyed(EntriesOf(db.consumed, id));
    var _ :- Require(
      context == SortKeyed(p.context) && consumed == SortKeyed(p.consumed),
      "historical projection differs from canonical minting event");
    var _ :- CheckContext(db, row.account, cap, context);
    var prior :- CheckPredecessor(db, row, cap);
    Done(Verified(row, p, cap, context, consumed, prior))
  }

  /** What a verified record was checked against. */
  lemma StepParts(db: Db, id: EventId)
    requires HistoryStep(db, id).Done?
    ensures var v := HistoryStep(db, id).value;
      && CrmDecision(db, id).Done? && CrmDecision(db, id).value.2 == v.row
      && var (minted, captured) := (VerifiedEvent(db.events, id), OriginalCapture(db, v.row.capture));
      && minted.Done? && captured.Done? && captured.value.capture == v.capture
      && minted.value.body == DecisionRecorded(v.payload, v.capture)
      && v.row == DecisionRowOf(minted.value, CrmDecision(db, id).value.0 + 1)
      && v.row.boundary == v.capture.boundary
      && v.context == SortKeyed(EntriesOf(db.context, id)) == SortKeyed(v.payload.context)
      && v.consumed == SortKeyed(EntriesOf(db.consumed, id)) == SortKeyed(v.payload.consumed)
      && CheckContext(db, v.row.account, v.capture, v.context).Done?
      && CheckPredecessor(db, v.row, v.capture) == Done(v.prior)
  {
    hide CrmDecision, CheckContext, CheckPredecessor, OriginalCapture, VerifiedEvent, SortKeyed, EntriesOf,
      DecisionRowOf, AccountOf, WireValid;
  }

  /** A record with these parts verifies. */
  lemma StepBuilds(db: Db, id: EventId, i: nat, minted: Event, row: DecisionRow, prior: Option<DecisionRow>)
    requires CrmDecision(db, id) == Done((i, minted, row)) && VerifiedEvent(db.events, id) == Done(minted)
    requires minted.body.DecisionRecorded? && row == DecisionRowOf(minted, i + 1)
    requires var (p, cap) := (minted.body.payload, minted.body.capture);
      && OriginalCapture(db, cap).Done? && OriginalCapture(db, cap).value.capture == cap
      && AccountOf(cap) == row.account && row.boundary == cap.boundary && row.workflow == cap.processing
      && row.artifact == cap.processing.artifact && row.evaluatorVersion == cap.processing.evaluatorVersion
      && EntriesOf(db.context, id) == p.context && EntriesOf(db.consumed, id) == p.consumed
      && CheckContext(db, row.account, cap, SortKeyed(p.context)).Done?
      && CheckPredecessor(db, row, cap) == Done(prior)
    ensures var (p, cap) := (minted.body.payload, minted.body.capture);
      HistoryStep(db, id) == Done(Verified(row, p, cap, SortKeyed(p.context), SortKeyed(p.consumed), prior))
  {
    hide CrmDecision, CheckContext, CheckPredecessor, OriginalCapture, VerifiedEvent, SortKeyed, EntriesOf,
      AccountOf, WireValid;
  }

  function DecisionIds(db: Db): set<EventId> {
    set i | 0 <= i < |db.decisions| :: db.decisions[i].id
  }

  /** The remaining chain from a predecessor, having visited these decisions. */
  function WalkBack(db: Db, prior: Option<DecisionRow>, visited: set<EventId>): Outcome<()>
    decreases DecisionIds(db) - visited
  {
    match prior
    case None => Done(())
    case Some(row) =>
      var _ :- Require(row.id !in visited, "cyclic recorded predecessor lineage");
      hide HistoryStep;
      var step :- HistoryStep(db, row.id);
      StepIsRecorded(db, row.id);
      WalkBack(db, step.prior, visited + {row.id})
  }

  function VerifiedHistory(db: Db, id: EventId): Outcome<Verified> {
    var original :- HistoryStep(db, id);
    var _ :- WalkBack(db, original.prior, {id});
    Done(original)
  }

  /** The chain walk as its loop: no recursion limit and no truncation. */
  method VerifyHistory(db: Db, id: EventId) returns (r: Outcome<Verified>)
    ensures r == VerifiedHistory(db, id)
  {
    hide HistoryStep;
    var original := HistoryStep(db, id);
    if original.Refused? {
      return Refused(original.reason);
    }
    var visited := {id};
    var prior := original.value.prior;
    while prior.Some?
      invariant WalkBack(db, original.value.prior, {id}) == WalkBack(db, prior, visited)
      decreases DecisionIds(db) - visited
    {
      if prior.value.id in visited {
        return Refused("cyclic recorded predecessor lineage");
      }
      StepIsRecorded(db, prior.value.id);
      visited := visited + {prior.value.id};
      var step := HistoryStep(db, prior.value.id);
      if step.Refused? {
        return Refused(step.reason);
      }
      prior := step.value.prior;
    }
    r := original;
  }

  lemma StepIsRecorded(db: Db, id: EventId)
    ensures HistoryStep(db, id).Done? ==> id in DecisionIds(db) && HistoryStep(db, id).value.row in db.decisions
  {
    hide HistoryStep, DecisionRowOf, FindEvent, FindDecision, WireValid;
    if HistoryStep(db, id).Done? {
      StepParts(db, id);
      var row := HistoryStep(db, id).value.row;
      var i :| 0 <= i < |db.decisions| && db.decisions[i] == row;
      assert db.decisions[i].id == id;
    }
  }

  datatype Reconstruction = Reconstruction(row: DecisionRow, artifact: E.Artifact, result: E.Evaluation<EvidenceId>)

  type Triple = (string, Option<EvidenceId>, int)

  function RecordedTriples(consumed: seq<Entry>): set<Triple> {
    set e | e in consumed && e.mark.Contribution? :: (e.key, e.version, e.mark.amount)
  }

  function EvaluatedTriples(factors: seq<E.FactorResult<EvidenceId>>): set<Triple> {
    set f | f in factors && f.state == E.Consumed :: (f.key, f.version, f.contribution)
  }

  predicate AllContributions(consumed: seq<Entry>) {
    forall e :: e in consumed ==> e.mark.Contribution?
  }

  function CompareWithRecorded(result: E.Evaluation<EvidenceId>, row: DecisionRow, consumed: seq<Entry>): Outcome<()> {
    var _ :- Require(row.score == result.score, "score");
    var _ :- Require(row.threshold == result.threshold, "threshold");
    var _ :- Require(row.output == result.output, "output");
    Require(
      AllContributions(consumed) && RecordedTriples(consumed) == EvaluatedTriples(result.factors), "consumed_inputs")
  }

  /** Reproduces one recorded decision exactly, or refuses. */
  function Reconstruct(db: Db, id: EventId): Outcome<Reconstruction> {
    var (_, _, row) :- CrmDecision(db, id);
    var artifact :- VerifyArtifact(db, row.artifact);
    var _ :- Require(
      row.logicVersion == artifact.logicVersion && row.kind == artifact.kind
        && row.evaluatorVersion == artifact.evaluatorVersion,
      "decision logic identity");
    var history :- VerifiedHistory(db, id);
    var result :- E.Evaluate(artifact, InputsOf(db, history.context), row.boundary);
    var _ :- CompareWithRecorded(result, row, history.consumed);
    Done(Reconstruction(row, artifact, result))
  }
}
