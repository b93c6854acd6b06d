/** Ingest of CRM evidence and decisions: every binding is checked against preserved
    rows and the pinned rules are evaluated before a row is written. */
module CrmProvenance {
  import opened Outcome
  import opened Rules
  import opened CrmModel
  import E = Evaluator

  // --- Lookups: the earliest row that answers -------------------------------------------

  function FindEvent(events: seq<Event>, id: EventId): (r: Option<nat>)
    ensures r.Some? ==> r.value < |events| && events[r.value].id == id
    ensures r.None? ==> forall i :: 0 <= i < |events| ==> events[i].id != id
  {
    if events == [] then None
    else
      var before := FindEvent(events[..|events| - 1], id);
      if before.Some? then before
      else if events[|events| - 1].id == id then Some(|events| - 1)
      else None
  }

  function FindCapture(rows: seq<CaptureRow>, cap: Capture): (r: Option<CaptureRow>)
    ensures r.Some? ==> r.value in rows && r.value.capture == cap
    ensures r.None? ==> forall i :: 0 <= i < |rows| ==> rows[i].capture != cap
  {
    if rows == [] then None
    else
      var before := FindCapture(rows[..|rows| - 1], cap);
      if before.Some? then before
      else if rows[|rows| - 1].capture == cap then Some(rows[|rows| - 1])
      else None
  }

  function FindEvidence(rows: seq<EvidenceRow>, id: EvidenceId): (r: Option<EvidenceRow>)
    ensures r.Some? ==> r.value in rows && r.value.id == id
    ensures r.None? ==> forall i :: 0 <= i < |rows| ==> rows[i].id != id
  {
    if rows == [] then None
    else
      var before := FindEvidence(rows[..|rows| - 1], id);
      if before.Some? then before
      else if rows[|rows| - 1].id == id then Some(rows[|rows| - 1])
      else None
  }

  /** The three questions the code asks of the decision rows. */
  datatype Question = OfUnit(unit: UnitId) | OfId(id: EventId) | OfKey(account: Account, logical: Observed)

  predicate Answers(row: DecisionRow, q: Question) {
    match q
    case OfUnit(unit) => row.unit == unit
    case OfId(id) => row.id == id
    case OfKey(account, logical) => row.account == account && row.logical == logical
  }

  function FindDecision(rows: seq<DecisionRow>, q: Question): (r: Option<DecisionRow>)
    ensures r.Some? ==> r.value in rows && Answers(r.value, q)
    ensures r.None? ==> forall i :: 0 <= i < |rows| ==> !Answers(rows[i], q)
  {
    if rows == [] then None
    else
      var before := FindDecision(rows[..|rows| - 1], q);
      if before.Some? then before
      else if Answers(rows[|rows| - 1], q) then Some(rows[|rows| - 1])
      else None
  }

  function EntriesOf(rows: seq<Listed>, id: EventId): seq<Entry> {
    if rows == [] then []
    else
      var before := EntriesOf(rows[..|rows| - 1], id);
      if rows[|rows| - 1].decision == id then before + [rows[|rows| - 1].entry] else before
  }

  function Listing(id: EventId, entries: seq<Entry>): (r: seq<Listed>)
    ensures |r| == |entries| && forall i :: 0 <= i < |r| ==> r[i] == Listed(id, entries[i])
  {
    seq(|entries|, i requires 0 <= i < |entries| => Listed(id, entries[i]))
  }

  // --- Verification shared by ingest and replay -------------------------------------------

  /** Two captures that may not both be bound: same hash, same unit, or same account and sequence. */
  predicate Touches(row: CaptureRow, account: Account, cap: Capture) {
    || row.capture == cap
    || UnitOf(row.capture) == UnitOf(cap)
    || (row.account == account && row.capture.sequence == cap.sequence)
  }

  /** Whatever this capture touches is already bound to exactly the same bytes. */
  predicate CaptureAgrees(rows: seq<CaptureRow>, account: Account, cap: Capture) {
    forall i :: 0 <= i < |rows| && Touches(rows[i], account, cap) ==>
      rows[i].capture == cap && rows[i].account == account
  }

  function VerifiedEvent(events: seq<Event>, id: EventId): (r: Outcome<Event>)
    ensures r.Done? ==> r.value.id == id && WireValid(r.value)
  {
    match FindEvent(events, id)
    case None => Refused("missing minting event")
    case Some(i) =>
      var _ :- Require(WireValid(events[i]), "minting event content/hash mismatch");
      Done(events[i])
  }

  function OriginalCapture(db: Db, cap: Capture): Outcome<CaptureRow> {
    match FindCapture(db.captures, cap)
    case None => Refused("missing capture projection")
    case Some(row) =>
      var _ :- Require(
        CaptureValid(row.capture) && AccountOf(row.capture) == row.account, "capture projection identity mismatch");
      var event :- VerifiedEvent(db.events, row.source);
      var _ :- Require(
        IsCrm(event) && event.account == row.account && CaptureOf(event) == row.capture,
        "capture minting event/projection mismatch");
      Done(row)
  }

  function RowOf(account: Account, cap: Capture, item: Item, source: EventId): EvidenceRow {
    EvidenceRow(
      item.version, account, item.kind, item.semantic, EligibleAt(cap.observed), item.supersedes, cap,
      ObservationOf(account, cap, item.kind, item.semantic, item.supersedes), source)
  }

  /** The stored version is the complete observation this capture binds the item to. */
  predicate EvidenceMatches(row: EvidenceRow, account: Account, cap: Capture, item: Item) {
    && row == RowOf(account, cap, item, row.source).(capture := row.capture)
    && row.availableAt <= cap.boundary
  }

  function VerifyOrigin(db: Db, row: EvidenceRow): Outcome<Capture> {
    var captured :- OriginalCapture(db, row.capture);
    var cap := captured.capture;
    var input := FindInput(cap.inputs, row.kind);
    var _ :- Require(input.Some?, "evidence differs from complete captured observation");
    var item := BoundItem(AccountOf(cap), cap, input.value, row.supersedes);
    var _ :- Require(EvidenceMatches(row, AccountOf(cap), cap, item),
      "evidence differs from complete captured observation");
    var event :- VerifiedEvent(db.events, row.source);
    var _ :- Require(
      event.body.EvidenceRecorded? && event.account == AccountOf(cap) && event.body.capture == row.capture
      && item in event.body.items,
      "evidence minting event/projection mismatch");
    Done(cap)
  }

  /** One available input of the context: its preserved version, wholly verified. */
  function CheckInput(
    db: Db, account: Account, cap: Capture, input: Input, submitted: seq<Entry>): Outcome<Option<EvidenceId>>
  {
    var entry := LookupKey(submitted, input.key);
    var _ :- Require(entry.Some? && entry.value.version.Some?, "available captured input missing from context");
    var row := FindEvidence(db.evidence, entry.value.version.value);
    var _ :- Require(row.Some?, "context references missing CRM evidence");
    var _ :- Require(
      EvidenceMatches(row.value, account, cap, BoundItem(account, cap, input, row.value.supersedes)),
      "evidence differs from complete captured observation");
    var original :- VerifyOrigin(db, row.value);
    var _ :- Require(original.observed.target == cap.observed.target, "cross-target evidence reuse");
    Done(row.value.supersedes)
  }

  /** The context this capture must preserve, in key order. */
  function ExpectedContext(
    db: Db, account: Account, cap: Capture, inputs: seq<Input>, submitted: seq<Entry>): Outcome<seq<Entry>>
  {
    if inputs == [] then Done([])
    else
      var input := inputs[0];
      match input.state
      case Absent => ExpectedContext(db, account, cap, inputs[1..], submitted)
      case Unavailable =>
        var rest :- ExpectedContext(db, account, cap, inputs[1..], submitted);
        Done([Entry(input.key, NullValue, None, Availability(false))] + rest)
      case Available =>
        var supersedes :- CheckInput(db, account, cap, input, submitted);
        var rest :- ExpectedContext(db, account, cap, inputs[1..], submitted);
        var item := BoundItem(account, cap, input, supersedes);
        Done([Entry(input.key, input.value, Some(item.version), Availability(true))] + rest)
  }

  function CheckContext(db: Db, account: Account, cap: Capture, submitted: seq<Entry>): Outcome<seq<Entry>> {
    var expected :- ExpectedContext(db, account, cap, cap.inputs, submitted);
    var _ :- Require(SortKeyed(submitted) == expected, "context differs from captured non-absent inputs");
    Done(expected)
  }

  // --- Reprocessing ---------------------------------------------------------------------------

  function CheckLineage(db: Db, account: Account, cap: Capture): Outcome<()> {
    match cap.reprocesses
    case None =>
      Require(
        FindDecision(db.decisions, OfKey(account, cap.observed)) == None,
        "same observation requires explicit reprocessing lineage")
    case Some(unit) =>
      var prior := FindDecision(db.decisions, OfUnit(unit));
      var _ :- Require(
        && prior.Some? && prior.value.account == account
        && prior.value.logical == cap.observed && prior.value.processing != cap.processing,
        "reprocessing requires accepted same-target observation under different processing");
      var was :- OriginalCapture(db, prior.value.capture);
      var event :- VerifiedEvent(db.events, prior.value.id);
      Require(
        && event.body.DecisionRecorded? && event.account == account
        && event.body.capture == prior.value.capture
        && was.capture.observed == cap.observed
        && was.capture.sequence < cap.sequence
        && was.capture.boundary <= cap.boundary
        && UnitOf(was.capture) == prior.value.unit
        && was.capture.observed == prior.value.logical
        && was.capture.processing == prior.value.processing,
        "invalid preserved reprocessing lineage")
  }

  // --- The pinned evaluation -------------------------------------------------------------------

  /** An artifact hash is the artifact, so a stored row is what its hash names. */
  function VerifyArtifact(db: Db, hash: E.Artifact): Outcome<E.Artifact> {
    var _ :- Require(hash in db.artifacts, "artifact_missing");
    var _ :- Require(hash.evaluatorVersion == E.EVALUATOR_VERSION, "evaluator_version");
    Done(hash)
  }

  function InputOf(db: Db, entry: Entry): E.ContextInput<EvidenceId> {
    var row := if entry.version.Some? then FindEvidence(db.evidence, entry.version.value) else None;
    E.ContextInput(
      entry.key, entry.mark == Availability(true), entry.value, entry.version,
      if row.Some? then row.value.semantic.observedAt else None)
  }

  function InputsOf(db: Db, context: seq<Entry>): (r: seq<E.ContextInput<EvidenceId>>)
    ensures |r| == |context| && forall i :: 0 <= i < |r| ==> r[i] == InputOf(db, context[i])
  {
    seq(|context|, i requires 0 <= i < |context| => InputOf(db, context[i]))
  }

  function UsedInputs(context: seq<Entry>, factors: seq<E.FactorResult<EvidenceId>>): seq<Entry> {
    if factors == [] then []
    else
      var before := UsedInputs(context, factors[..|factors| - 1]);
      var f := factors[|factors| - 1];
      if f.state == E.Consumed then
        var entry := LookupKey(context, f.key);
        before + [Entry(f.key, if entry.Some? then entry.value.value else NullValue, f.version,
          Contribution(f.contribution))]
      else before
  }

  function CheckEvaluation(db: Db, p: Payload, cap: Capture, context: seq<Entry>): Outcome<E.Evaluation<EvidenceId>> {
    var artifact :- VerifyArtifact(db, p.artifact);
    var _ :- Require(
      && artifact.id == p.artifactId && artifact.logicVersion == p.logicVersion
      && artifact.evaluatorVersion == p.evaluatorVersion && artifact.kind == p.kind,
      "registered artifact identity mismatch");
    var result :- E.Evaluate(artifact, InputsOf(db, context), cap.boundary);
    var used := UsedInputs(context, result.factors);
    var _ :- Require(used != [], "no usable consumed inputs");
    var _ :- Require(
      SortKeyed(p.consumed) == SortKeyed(used), "consumed values/contributions differ from pinned evaluation");
    var _ :- Require(
      p.score == result.score && p.threshold == result.threshold && p.output == result.output,
      "result differs from pinned evaluation");
    Done(result)
  }

  // --- The two events ----------------------------------------------------------------------------

  function CheckItem(db: Db, account: Account, cap: Capture, item: Item): Outcome<()> {
    var _ :- Require(FindEvidence(db.evidence, item.version) == None,
      "evidence already minted; reference verified version instead");
    match item.supersedes
    case None => Done(())
    case Some(id) =>
      var prior := FindEvidence(db.evidence, id);
      var _ :- Require(prior.Some?, "missing superseded evidence");
      var was :- VerifyOrigin(db, prior.value);
      Require(
        && prior.value.id != item.version && prior.value.account == account && prior.value.kind == item.kind
        && was.observed.target == cap.observed.target
        && was.processing.mapping == cap.processing.mapping
        && was.sequence < cap.sequence
        && prior.value.availableAt <= EligibleAt(cap.observed),
        "supersession requires earlier same-target/type/mapping evidence")
  }

  function CheckItems(db: Db, account: Account, cap: Capture, items: seq<Item>): Outcome<()> {
    if items == [] then Done(())
    else
      var _ :- CheckItems(db, account, cap, items[..|items| - 1]);
      CheckItem(db, account, cap, items[|items| - 1])
  }

  function CheckDecision(db: Db, e: Event, p: Payload, cap: Capture): Outcome<()> {
    var _ :- Require(
      FindDecision(db.decisions, OfUnit(UnitOf(cap))) == None, "unit already has accepted original decision");
    var _ :- CheckLineage(db, e.account, cap);
    var context :- CheckContext(db, e.account, cap, p.context);
    var _ :- CheckEvaluation(db, p, cap, context);
    Done(())
  }

  function Validate(db: Db, e: Event): Outcome<()> {
    match e.body
    case EvidenceRecorded(items, cap) =>
      var _ :- Require(CaptureAgrees(db.captures, e.account, cap),
        "capture hash/unit/account-sequence already bound to other bytes");
      CheckItems(db, e.account, cap, items)
    case DecisionRecorded(p, cap) =>
      var _ :- Require(CaptureAgrees(db.captures, e.account, cap),
        "capture hash/unit/account-sequence already bound to other bytes");
      CheckDecision(db, e, p, cap)
    case _ => Done(())
  }

  function DecisionRowOf(e: Event, sequence: nat): DecisionRow
    requires e.body.DecisionRecorded?
  {
    var (p, cap) := (e.body.payload, e.body.capture);
    DecisionRow(
      e.id, e.account, p.kind, p.boundary, p.workflow, p.artifact, p.evaluatorVersion, p.logicVersion,
      p.score, p.threshold, p.output, p.explanation, sequence,
      UnitOf(cap), cap.observed, cap.processing, cap, cap.reprocesses)
  }

  function MintedRows(account: Account, cap: Capture, items: seq<Item>, source: EventId): (r: seq<EvidenceRow>)
    ensures |r| == |items| && forall i :: 0 <= i < |r| ==> r[i] == RowOf(account, cap, items[i], source)
  {
    seq(|items|, i requires 0 <= i < |items| => RowOf(account, cap, items[i], source))
  }

  function WithCapture(rows: seq<CaptureRow>, account: Account, cap: Capture, source: EventId): seq<CaptureRow> {
    if FindCapture(rows, cap).Some? then rows else rows + [CaptureRow(cap, account, source)]
  }

  /** The rows an admitted event appends. */
  function Project(db: Db, e: Event): Db {
    var sequence := |db.events| + 1;
    var db' := db.(events := db.events + [e]);
    match e.body
    case EvidenceRecorded(items, cap) =>
      db'.(captures := WithCapture(db.captures, e.account, cap, e.id),
           evidence := db.evidence + MintedRows(e.account, cap, items, e.id))
    case DecisionRecorded(p, cap) =>
      db'.(captures := WithCapture(db.captures, e.account, cap, e.id),
           decisions := db.decisions + [DecisionRowOf(e, sequence)],
           context := db.context + Listing(e.id, p.context),
           consumed := db.consumed + Listing(e.id, p.consumed))
    case ArtifactRegistered(a) =>
      if a in db.artifacts then db' else db'.(artifacts := db.artifacts + [a])
    case Operation(o) => db'.(operations := db.operations + [OperationRow(e.id, e.account, o, sequence)])
    case _ => db'
  }
}
