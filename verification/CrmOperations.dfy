/** Writes to a CRM record, as observations bound to the original decision. Reading back
    re-verifies the whole log of an account from scratch. */
module CrmOperations {
  import opened Outcome
  import opened Rules
  import opened CrmModel
  import opened CrmProvenance
  import opened CrmReplay
  import E = Evaluator

  const FIELDS := {
    "employee_count", "industry", "headquarters_country", "funding_event",
    "open_platform_engineering_roles", "head_of_platform_start_date", "verified_integration_pressure"}

  predicate Terminal(state: OpState) {
    state == OpRefused || state == RefusedNoEffect || state == ObservedApplied
  }

  /** Every input of the mapping was available in this capture. */
  predicate FullyAvailable(cap: Capture) {
    forall key :: key in FIELDS ==>
      FindInput(cap.inputs, key).Some? && FindInput(cap.inputs, key).value.state == Available
  }

  /** The intent repeats exactly what the original decision and its capture say. */
  predicate BoundTo(intent: Intent, row: DecisionRow, cap: Capture, r: Reconstruction) {
    && intent.target == cap.observed.target
    && intent.connection == cap.observed.connection
    && intent.capture == row.capture && intent.captureSequence == cap.sequence
    && intent.artifact == cap.processing.artifact && intent.evaluatorVersion == cap.processing.evaluatorVersion
    && intent.mapping == cap.processing.mapping && intent.selection == cap.processing.selection
    && intent.precondition == cap.observed.precondition
    && intent.intended == WriteTuple(r.result.score, r.result.output, r.artifact.logicVersion, row.id, intent.revision)
  }

  /** The original decision, its lineage and its result, verified again before the cutoff. */
  function VerifyOriginal(db: Db, account: Account, intent: Intent, before: nat): Outcome<Capture> {
    var history :- VerifiedHistory(db, intent.decision);
    var r :- Reconstruct(db, history.row.id);
    var (_, event, _) :- CrmDecision(db, history.row.id);
    var _ :- Require(
      && history.row.account == account && history.row.sequence < before
      && BoundTo(intent, history.row, history.capture, r)
      && event.recordedAt <= intent.createdAt && history.capture.boundary <= intent.createdAt
      && FullyAvailable(history.capture),
      "crm_operation_original_binding");
    Done(history.capture)
  }

  /** Row a is the account's and its minting event precedes the cutoff. */
  predicate CaptureBefore(db: Db, row: CaptureRow, account: Account, cutoff: nat) {
    row.account == account && FindEvent(db.events, row.source).Some?
      && FindEvent(db.events, row.source).value + 1 < cutoff
  }

  /** The account's capture with the highest sequence, among the first n rows. */
  function LatestCapture(db: Db, account: Account, cutoff: nat, n: nat): Option<Capture>
    requires n <= |db.captures|
  {
    if n == 0 then None
    else
      var best := LatestCapture(db, account, cutoff, n - 1);
      var row := db.captures[n - 1];
      if CaptureBefore(db, row, account, cutoff) && (best.None? || best.value.sequence < row.capture.sequence)
      then Some(row.capture)
      else best
  }

  /** The account's most recently ingested decision before the cutoff. */
  function LatestDecision(rows: seq<DecisionRow>, account: Account, cutoff: nat): Option<DecisionRow> {
    if rows == [] then None
    else
      var best := LatestDecision(rows[..|rows| - 1], account, cutoff);
      var row := rows[|rows| - 1];
      if row.account == account && row.sequence < cutoff && (best.None? || best.value.sequence < row.sequence)
      then Some(row)
      else best
  }

  function CheckLatest(db: Db, account: Account, intent: Intent, cutoff: nat): Outcome<()> {
    var decision := LatestDecision(db.decisions, account, cutoff);
    Require(
      && LatestCapture(db, account, cutoff, |db.captures|) == Some(intent.capture)
      && decision.Some? && decision.value.id == intent.decision,
      "crm_operation_newer_capture")
  }

  type Log = seq<Observing>

  /** The log entries of one operation, in order. */
  function Own(log: Log, intent: Intent): (r: Log)
    ensures forall d :: d in r ==> d.intent == intent && d in log
  {
    if log == [] then []
    else
      var before := Own(log[..|log| - 1], intent);
      if log[|log| - 1].intent == intent then before + [log[|log| - 1]] else before
  }

  /** The last entry of entry d's operation. */
  function LastOf(log: Log, d: Observing): Observing {
    var own := Own(log, d.intent);
    if own == [] then d else own[|own| - 1]
  }

  function HighestRevision(log: Log): nat {
    if log == [] then 0
    else
      var before := HighestRevision(log[..|log| - 1]);
      if before < log[|log| - 1].intent.revision then log[|log| - 1].intent.revision else before
  }

  /** A first observation opens an operation only on an idle target, with the next revision
      and an original no operation used before. */
  function CheckOpening(log: Log, o: Observing): Outcome<()> {
    var _ :- Require(
      && o.number == 1 && o.phase == Prepared && o.state == OpPrepared
      && o.response == None && o.read == None && o.reason == None,
      "crm_operation_integrity");
    var _ :- Require(forall i :: 0 <= i < |log| ==> Terminal(LastOf(log, log[i]).state), "crm_operation_target_held");
    var _ :- Require(
      forall i :: 0 <= i < |log| ==> LastOf(log, log[i]).observedAt <= o.observedAt, "crm_operation_time_order");
    var _ :- Require(o.intent.revision == HighestRevision(log) + 1, "crm_operation_integrity");
    Require(
      forall i :: 0 <= i < |log| ==> log[i].intent.decision != o.intent.decision,
      "crm_operation_original_already_used")
  }

  /** What a response allows to be concluded. */
  function AfterResponse(r: Response): OpState {
    if !r.complete || r.status.None? then OpUnknown
    else if 200 <= r.status.value < 300 then AwaitingObservation
    else if r.status.value == 412 then RefusedNoEffect
    else OpUnknown
  }

  function FirstWith(own: Log, phase: Phase): Option<Observing> {
    if own == [] then None
    else if own[0].phase == phase then Some(own[0])
    else FirstWith(own[1..], phase)
  }

  /** The response that was a complete success, if any was recorded. */
  function CompleteResponse(own: Log): Option<Response> {
    if own == [] then None
    else if own[0].phase == Responded && own[0].state == AwaitingObservation then own[0].response
    else CompleteResponse(own[1..])
  }

  function CheckRead(own: Log, previous: Observing, o: Observing): Outcome<()> {
    var _ :- Require(
      && (previous.state == OpUnknown || previous.state == AwaitingObservation)
      && (previous.phase == SendStarted || previous.phase == Responded || previous.phase == OutputObserved)
      && o.response == None && o.read.Some? && o.reason == None
      && o.read.value.target == o.intent.target,
      "crm_operation_integrity");
    var read := o.read.value;
    var marker := FirstWith(own, SendStarted);
    var _ :- Require(
      && marker.Some?
      && marker.value.observedAt <= read.startedAt <= read.finishedAt <= o.observedAt,
      "crm_operation_integrity");
    var complete := CompleteResponse(own);
    var _ :- Require(complete.Some? ==> complete.value.finishedAt <= read.startedAt, "crm_operation_integrity");
    var matches := read.values == Exactly(o.intent.intended, o.intent);
    Require(o.state == (if complete.Some? && matches then ObservedApplied else previous.state),
      "crm_operation_integrity")
  }

  /** A later observation of an operation follows its previous one. */
  function CheckContinuation(own: Log, o: Observing): Outcome<()>
    requires own != []
  {
    var previous := own[|own| - 1];
    var _ :- Require(
      o.origin == previous.origin && o.number == previous.number + 1 && previous.observedAt <= o.observedAt,
      "crm_operation_integrity");
    var _ :- Require(!Terminal(previous.state), "crm_operation_already_terminal");
    match o.phase
    case SendStarted =>
      Require(
        previous.phase == Prepared && o.state == OpUnknown && o.response == None && o.read == None && o.reason == None,
        "crm_operation_integrity")
    case Refusal =>
      Require(
        previous.phase == Prepared && o.state == OpRefused && o.reason.Some? && o.response == None && o.read == None,
        "crm_operation_integrity")
    case Responded =>
      Require(
        && previous.phase == SendStarted && o.response.Some? && o.read == None && o.reason == None
        && o.response.value.request == RequestOf(o.intent)
        && previous.observedAt <= o.response.value.startedAt <= o.response.value.finishedAt <= o.observedAt
        && o.state == AfterResponse(o.response.value),
        "crm_operation_integrity")
    case OutputObserved => CheckRead(own, previous, o)
    case Prepared => Refused("crm_operation_integrity")
  }

  /** The transition check of one observation against the log before it. */
  function CheckTransition(log: Log, o: Observing): Outcome<()> {
    var own := Own(log, o.intent);
    if own == [] then CheckOpening(log, o) else CheckContinuation(own, o)
  }

  /** The whole step: the original again, then the transition, then that nothing newer was
      captured or decided before it. */
  function CheckStep(db: Db, account: Account, recordedAt: int, log: Log, o: Observing, cutoff: nat): Outcome<()> {
    var cap :- VerifyOriginal(db, account, o.intent, cutoff);
    var _ :- Require(
      o.origin == cap.observed.origin && o.intent.createdAt <= o.observedAt <= recordedAt, "crm_operation_integrity");
    var _ :- CheckTransition(log, o);
    if o.phase == Prepared || o.phase == SendStarted then CheckLatest(db, account, o.intent, cutoff) else Done(())
  }

  predicate IsOperationOf(e: Event, account: Account) {
    e.account == account && e.body.Operation?
  }

  function FindOperation(rows: seq<OperationRow>, id: EventId): (r: Option<OperationRow>)
    ensures r.Some? ==> r.value in rows && r.value.event == id
  {
    if rows == [] then None
    else
      var before := FindOperation(rows[..|rows| - 1], id);
      if before.Some? then before
      else if rows[|rows| - 1].event == id then Some(rows[|rows| - 1])
      else None
  }

  function EventIds(events: seq<Event>, account: Account): set<EventId> {
    set e | e in events && IsOperationOf(e, account) :: e.id
  }

  function RowIds(rows: seq<OperationRow>, account: Account): set<EventId> {
    set r | r in rows && r.account == account :: r.event
  }

  /** The verified log of an account over the first n events. */
  function VerifyLog(db: Db, account: Account, n: nat): Outcome<Log>
    requires n <= |db.events|
  {
    if n == 0 then Done([])
    else
      var log :- VerifyLog(db, account, n - 1);
      var e := db.events[n - 1];
      if !IsOperationOf(e, account) then Done(log)
      else
        var _ :- Require(WireValid(e), "operation_event_integrity");
        var _ :- Require(
          FindOperation(db.operations, e.id) == Some(OperationRow(e.id, account, e.body.observing, n)),
          "crm_operation_integrity");
        var _ :- CheckStep(db, account, e.recordedAt, log, e.body.observing, n);
        Done(log + [e.body.observing])
  }

  /** Every preserved observation, original and projection of an account, verified again. */
  function OperationHistory(db: Db, account: Account): Outcome<Log> {
    var _ :- Require(EventIds(db.events, account) == RowIds(db.operations, account), "crm_operation_integrity");
    VerifyLog(db, account, |db.events|)
  }

  /** The loop that re-verifies and rebuilds the log. */
  method ReadHistory(db: Db, account: Account) returns (r: Outcome<Log>)
    ensures r == OperationHistory(db, account)
  {
    hide CheckStep, WireValid, FindOperation, EventIds, RowIds;
    if EventIds(db.events, account) != RowIds(db.operations, account) {
      return Refused("crm_operation_integrity");
    }
    var prior: Log := [];
    for n := 0 to |db.events|
      invariant VerifyLog(db, account, n) == Done(prior)
    {
      LogRefusedStays(db, account, n + 1);
      var e := db.events[n];
      if IsOperationOf(e, account) {
        if !WireValid(e) {
          return Refused("operation_event_integrity");
        }
        if FindOperation(db.operations, e.id) != Some(OperationRow(e.id, account, e.body.observing, n + 1)) {
          return Refused("crm_operation_integrity");
        }
        var step := CheckStep(db, account, e.recordedAt, prior, e.body.observing, n + 1);
        if step.Refused? {
          return Refused(step.reason);
        }
        prior := prior + [e.body.observing];
      }
    }
    r := Done(prior);
  }

  lemma LogRefusedStays(db: Db, account: Account, n: nat)
    requires n <= |db.events|
    ensures VerifyLog(db, account, n).Refused? ==> VerifyLog(db, account, |db.events|) == VerifyLog(db, account, n)
    decreases |db.events| - n
  {
    hide CheckStep, WireValid, FindOperation;
    if n < |db.events| {
      LogRefusedStays(db, account, n + 1);
    }
  }

  /** The collector's check of one new observation. */
  function ValidateOperation(db: Db, e: Event): Outcome<()>
    requires e.body.Operation?
  {
    var log :- OperationHistory(db, e.account);
    CheckStep(db, e.account, e.recordedAt, log, e.body.observing, |db.events| + 1)
  }
}
