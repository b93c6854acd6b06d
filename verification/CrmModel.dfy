/** The CRM ledger: captures, evidence, decisions and operation observations. A content
    hash is the content itself, so a derived identity is an injective constructor. */
module CrmModel {
  import opened Outcome
  import opened Rules
  import E = Evaluator
  import C = Counterfactual

  type Target = string

  /** A CRM account reference is derived from its one target. */
  datatype Account = CrmAccount(target: Target) | OtherAccount(name: string)

  datatype Origin = Fixture | InjectedTransport | ProviderHttp

  /** The observed part of a capture; its hash is both the observation id and, with the
      target it contains, the logical key. */
  datatype Observed = Observed(
    target: Target,
    connection: string,
    origin: Origin,
    readStarted: int,
    readFinished: int,
    sourceUpdated: int,
    precondition: Option<string>,
    content: string)

  datatype Processing = Processing(
    mapping: string,
    artifact: E.Artifact,
    evaluatorVersion: string,
    selection: string,
    adapter: string)

  datatype UnitId = UnitId(logical: Observed, processing: Processing, reprocesses: Option<UnitId>)

  datatype Presence = Available | Unavailable | Absent

  datatype Input = Input(
    key: string, state: Presence, value: Scalar, observedAt: Option<int>, basis: Option<seq<string>>)

  /** The inputs are listed in key order, as the canonical document holds them. */
  datatype Capture = Capture(
    observed: Observed,
    boundary: int,
    inputs: seq<Input>,
    processing: Processing,
    sequence: nat,
    generation: nat,
    reprocesses: Option<UnitId>)

  datatype Semantic = Semantic(value: Scalar, observedAt: Option<int>, basis: Option<seq<string>>)

  datatype Observation = Observation(
    account: Account, observed: Observed, mapping: string, kind: string, semantic: Semantic,
      supersedes: Option<EvidenceId>)

  datatype EvidenceId = EvidenceId(body: Observation)

  datatype Item = Item(kind: string, semantic: Semantic, supersedes: Option<EvidenceId>, version: EvidenceId)

  /** What a per-key row says beside its value: whether the input was available, or what
      the consumed input contributed. */
  datatype Mark = Availability(available: bool) | Contribution(amount: int)

  /** A row of a decision's context, or of its consumed inputs. */
  datatype Entry = Entry(key: string, value: Scalar, version: Option<EvidenceId>, mark: Mark)

  datatype Payload = Payload(
    kind: string,
    boundary: int,
    workflow: Processing,
    context: seq<Entry>,
    artifact: E.Artifact,
    artifactId: string,
    logicVersion: string,
    evaluatorVersion: string,
    consumed: seq<Entry>,
    score: int,
    threshold: int,
    output: string,
    explanation: Option<string>)

  datatype WriteTuple = WriteTuple(
    score: int, output: string, logicVersion: string, decisionRef: EventId, revision: nat)

  /** The operation id is the digest of the whole intent, so the intent is the identity. */
  datatype Intent = Intent(
    target: Target,
    connection: string,
    decision: EventId,
    capture: Capture,
    captureSequence: nat,
    artifact: E.Artifact,
    evaluatorVersion: string,
    mapping: string,
    selection: string,
    policyGeneration: nat,
    revision: nat,
    precondition: Option<string>,
    createdAt: int,
    intended: WriteTuple)

  datatype RequestHash = RequestOf(intent: Intent) | OtherRequest(text: string)

  datatype Response = Response(
    request: RequestHash, startedAt: int, finishedAt: int, status: Option<int>, complete: bool, body: Option<string>)

  datatype Values = Exactly(tuple: WriteTuple, operation: Intent) | Different(text: string)

  datatype OutputRead = OutputRead(target: Target, values: Values, startedAt: int, finishedAt: int, body: string)

  datatype Phase = Prepared | SendStarted | Responded | OutputObserved | Refusal

  datatype OpState = OpPrepared | OpRefused | OpUnknown | AwaitingObservation | ObservedApplied | RefusedNoEffect

  datatype Observing = Observing(
    origin: Origin,
    intent: Intent,
    number: nat,
    phase: Phase,
    state: OpState,
    observedAt: int,
    response: Option<Response>,
    read: Option<OutputRead>,
    reason: Option<string>)

  datatype EventId =
    | DecisionId(unit: UnitId)
    | EvidenceEventId(unit: UnitId)
    | ObservationId(intent: Intent, number: nat)
    | Named(name: string)

  datatype Body =
    | Discovered
    | ArtifactRegistered(artifact: E.Artifact)
    | EvidenceRecorded(items: seq<Item>, capture: Capture)
    | DecisionRecorded(payload: Payload, capture: Capture)
    | Operation(observing: Observing)
    | Other(content: string)

  datatype Event = Event(id: EventId, account: Account, occurredAt: int, recordedAt: int, body: Body)

  datatype CaptureRow = CaptureRow(capture: Capture, account: Account, source: EventId)

  datatype EvidenceRow = EvidenceRow(
    id: EvidenceId,
    account: Account,
    kind: string,
    semantic: Semantic,
    availableAt: int,
    supersedes: Option<EvidenceId>,
    capture: Capture,
    observation: Observation,
    source: EventId)

  datatype DecisionRow = DecisionRow(
    id: EventId,
    account: Account,
    kind: string,
    boundary: int,
    workflow: Processing,
    artifact: E.Artifact,
    evaluatorVersion: string,
    logicVersion: string,
    score: int,
    threshold: int,
    output: string,
    explanation: Option<string>,
    sequence: nat,
    unit: UnitId,
    logical: Observed,
    processing: Processing,
    capture: Capture,
    reprocesses: Option<UnitId>)

  datatype Listed = Listed(decision: EventId, entry: Entry)

  datatype OperationRow = OperationRow(event: EventId, account: Account, observing: Observing, sequence: nat)

  datatype Db = Db(
    events: seq<Event>,
    captures: seq<CaptureRow>,
    evidence: seq<EvidenceRow>,
    decisions: seq<DecisionRow>,
    context: seq<Listed>,
    consumed: seq<Listed>,
    artifacts: seq<E.Artifact>,
    operations: seq<OperationRow>)

  const EMPTY := Db([], [], [], [], [], [], [], [])

  /** Why a prepared write may be refused before it is sent. */
  const REFUSALS := {
    "policy_disabled", "policy_changed", "authorization_unavailable", "newer_capture", "target_unallowlisted"}

  const DATED := {"funding_event", "head_of_platform_start_date"}
  const PRESSURE := "verified_integration_pressure"

  function UnitOf(cap: Capture): UnitId {
    UnitId(cap.observed, cap.processing, cap.reprocesses)
  }

  function AccountOf(cap: Capture): Account {
    CrmAccount(cap.observed.target)
  }

  /** When the observation became eligible for a decision. */
  function EligibleAt(o: Observed): int {
    if o.readFinished < o.sourceUpdated then o.sourceUpdated else o.readFinished
  }

  predicate InputsOrdered(inputs: seq<Input>) {
    forall i, j :: 0 <= i < j < |inputs| ==> C.Less(inputs[i].key, inputs[j].key)
  }

  predicate CaptureValid(cap: Capture) {
    && cap.observed.readStarted <= cap.observed.readFinished <= cap.boundary
    && cap.observed.sourceUpdated <= cap.boundary
    && cap.sequence > 0 && cap.generation > 0
    && InputsOrdered(cap.inputs)
  }

  function FindInput(inputs: seq<Input>, key: string): (r: Option<Input>)
    ensures r.Some? ==> r.value in inputs && r.value.key == key
  {
    if inputs == [] then None
    else if inputs[0].key == key then Some(inputs[0])
    else FindInput(inputs[1..], key)
  }

  function SemanticOf(input: Input): Semantic {
    Semantic(
      input.value,
      if input.key in DATED then input.observedAt else None,
      if input.key == PRESSURE then input.basis else None)
  }

  function ObservationOf(
    account: Account, cap: Capture, kind: string, semantic: Semantic, supersedes: Option<EvidenceId>): Observation
  {
    Observation(account, cap.observed, cap.processing.mapping, kind, semantic, supersedes)
  }

  /** The one evidence item a captured input can be minted as. */
  function BoundItem(account: Account, cap: Capture, input: Input, supersedes: Option<EvidenceId>): Item {
    var semantic := SemanticOf(input);
    Item(input.key, semantic, supersedes, EvidenceId(ObservationOf(account, cap, input.key, semantic, supersedes)))
  }

  function AvailableInputs(inputs: seq<Input>): seq<Input> {
    if inputs == [] then []
    else
      var rest := AvailableInputs(inputs[1..]);
      if inputs[0].state == Available then [inputs[0]] + rest else rest
  }

  predicate KeysUnique(entries: seq<Entry>) {
    forall i, j :: 0 <= i < j < |entries| ==> entries[i].key != entries[j].key
  }

  function LookupKey(entries: seq<Entry>, key: string): (r: Option<Entry>)
    ensures r.Some? ==> r.value in entries && r.value.key == key
    ensures r.None? ==> forall e :: e in entries ==> e.key != key
  {
    if entries == [] then None
    else if entries[0].key == key then Some(entries[0])
    else LookupKey(entries[1..], key)
  }

  /** The items are exactly the available inputs, each bound to this capture. */
  predicate ItemsBound(account: Account, cap: Capture, items: seq<Item>) {
    var inputs := AvailableInputs(cap.inputs);
    && items != [] && |items| == |inputs|
    && forall i :: 0 <= i < |items| ==> items[i] == BoundItem(account, cap, inputs[i], items[i].supersedes)
  }

  predicate IsCrm(e: Event) {
    e.body.EvidenceRecorded? || e.body.DecisionRecorded?
  }

  function CaptureOf(e: Event): Capture
    requires IsCrm(e)
  {
    if e.body.EvidenceRecorded? then e.body.capture else e.body.capture
  }

  predicate WireValid(e: Event) {
    && e.occurredAt <= e.recordedAt
    && match e.body
       case EvidenceRecorded(items, cap) =>
         && CaptureValid(cap) && e.account == AccountOf(cap)
         && e.id == EvidenceEventId(UnitOf(cap)) && e.occurredAt == cap.observed.readFinished
         && ItemsBound(e.account, cap, items)
       case DecisionRecorded(p, cap) =>
         && CaptureValid(cap) && e.account == AccountOf(cap)
         && e.id == DecisionId(UnitOf(cap)) && e.occurredAt == p.boundary == cap.boundary
         && p.workflow == cap.processing
         && p.artifact == cap.processing.artifact && p.evaluatorVersion == cap.processing.evaluatorVersion
         && p.context != [] && p.consumed != [] && KeysUnique(p.context) && KeysUnique(p.consumed)
         && (forall i :: 0 <= i < |p.context| ==> p.context[i].mark.Availability?)
         && forall i :: 0 <= i < |p.consumed| ==>
              && var entry := LookupKey(p.context, p.consumed[i].key);
              && entry.Some? && entry.value.mark == Availability(true)
              && entry.value.value == p.consumed[i].value
              && entry.value.version == p.consumed[i].version
              && p.consumed[i].mark.Contribution?
       case Operation(o) =>
         && e.account == CrmAccount(o.intent.target)
         && e.id == ObservationId(o.intent, o.number) && o.number > 0
         && e.occurredAt == o.observedAt && o.intent.createdAt <= o.observedAt
         && o.intent.revision == o.intent.intended.revision && o.intent.revision > 0
         && (o.reason.Some? ==> o.reason.value in REFUSALS)
         && (o.response.Some? ==>
               && o.response.value.startedAt <= o.response.value.finishedAt
               && (o.response.value.status.Some? ==> 100 <= o.response.value.status.value <= 599)
               && (o.response.value.complete ==> o.response.value.status.Some? && o.response.value.body.Some?))
         && (o.read.Some? ==> o.read.value.startedAt <= o.read.value.finishedAt)
       case ArtifactRegistered(a) => E.WellFormed(a)
       case _ => true
  }

  // --- Per-key listings in sorted order -----------------------------------------------------

  function InsertKeyed(x: Entry, entries: seq<Entry>): seq<Entry> {
    if entries == [] then [x]
    else if C.Less(entries[0].key, x.key) then [entries[0]] + InsertKeyed(x, entries[1..])
    else [x] + entries
  }

  function SortKeyed(entries: seq<Entry>): seq<Entry> {
    if entries == [] then [] else InsertKeyed(entries[0], SortKeyed(entries[1..]))
  }

  predicate SortedKeyed(entries: seq<Entry>) {
    forall i, j :: 0 <= i < j < |entries| ==> C.Less(entries[i].key, entries[j].key)
  }

  lemma {:induction false} InsertKeyedMembers(x: Entry, entries: seq<Entry>)
    ensures forall e :: e in InsertKeyed(x, entries) <==> e == x || e in entries
    ensures |InsertKeyed(x, entries)| == |entries| + 1
  {
    if entries != [] && C.Less(entries[0].key, x.key) {
      InsertKeyedMembers(x, entries[1..]);
    }
  }

  lemma {:induction false} SortKeyedMembers(entries: seq<Entry>)
    ensures forall e :: e in SortKeyed(entries) <==> e in entries
    ensures |SortKeyed(entries)| == |entries|
  {
    if entries != [] {
      SortKeyedMembers(entries[1..]);
      InsertKeyedMembers(entries[0], SortKeyed(entries[1..]));
    }
  }

  lemma {:induction false} InsertKeyedSorts(x: Entry, entries: seq<Entry>)
    requires SortedKeyed(entries) && forall e :: e in entries ==> e.key != x.key
    ensures SortedKeyed(InsertKeyed(x, entries))
  {
    if entries != [] {
      C.LessTotal(entries[0].key, x.key);
      if C.Less(entries[0].key, x.key) {
        InsertKeyedSorts(x, entries[1..]);
        InsertKeyedMembers(x, entries[1..]);
        var rest := InsertKeyed(x, entries[1..]);
        forall j | 0 <= j < |rest| ensures C.Less(entries[0].key, rest[j].key) {
          assert rest[j] in rest;
          if rest[j] != x {
            var k :| 0 <= k < |entries[1..]| && entries[1..][k] == rest[j];
            assert entries[k + 1] == rest[j];
          }
        }
      } else {
        assert entries[0] in entries;
        forall j | 0 <= j < |entries| ensures C.Less(x.key, entries[j].key) {
          if j > 0 { C.LessTransitive(x.key, entries[0].key, entries[j].key); }
        }
      }
    }
  }

  lemma {:induction false} SortKeyedSorts(entries: seq<Entry>)
    requires KeysUnique(entries)
    ensures SortedKeyed(SortKeyed(entries))
  {
    if entries != [] {
      SortKeyedSorts(entries[1..]);
      SortKeyedMembers(entries[1..]);
      forall e | e in entries[1..] ensures e.key != entries[0].key {
        var k :| 0 <= k < |entries[1..]| && entries[1..][k] == e;
        assert entries[k + 1] == e;
      }
      InsertKeyedSorts(entries[0], SortKeyed(entries[1..]));
    }
  }

  lemma {:induction false} SortSorted(entries: seq<Entry>)
    requires SortedKeyed(entries)
    ensures SortKeyed(entries) == entries
  {
    if entries != [] {
      SortSorted(entries[1..]);
      if |entries| > 1 {
        C.LessTotal(entries[0].key, entries[1].key);
      }
    }
  }

  /** A lookup by key does not depend on the order of the listing. */
  lemma LookupSorted(entries: seq<Entry>, key: string)
    requires KeysUnique(entries)
    ensures LookupKey(SortKeyed(entries), key) == LookupKey(entries, key)
  {
    SortKeyedMembers(entries);
    var a, b := LookupKey(SortKeyed(entries), key), LookupKey(entries, key);
    if a.Some? && b.Some? {
      assert a.value in entries && b.value in entries;
      var i :| 0 <= i < |entries| && entries[i] == a.value;
      var j :| 0 <= j < |entries| && entries[j] == b.value;
    }
  }
}
