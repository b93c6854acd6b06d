/** The tables of the poll queue and the queue's operations as state functions.

    One connection, one pinned configuration. A canonical hash is an injective
    constructor: a claim identity is its four fields, a terminal identity is the
    terminal record itself. */
module PollTables {
  import opened Outcome

  type TickId = string
  type TargetKey = string

  datatype Config = Config(
    connection: string,
    binding: string,
    connectionBinding: string,
    selection: string,
    targets: seq<TargetKey>)
  {
    /** Configuration validation: at least one record, strictly sorted, so distinct. */
    ghost predicate Valid() {
      && targets != []
      && forall i, j :: 0 <= i < j < |targets| ==> targets[i] != targets[j]
    }
  }

  datatype ClaimId = ClaimId(connection: string, tick: TickId, target: TargetKey, binding: string)

  datatype Owner = Owner(target: TargetKey, claim: ClaimId, generation: nat)

  datatype Progress = Active | Waiting | Coalesced | Complete

  datatype Tick = Tick(
    ordinal: nat,
    id: TickId,
    binding: string,
    receivedAt: int,
    disposition: Progress,
    targets: seq<TargetKey>)

  datatype MemberState = Queued | Claimed | ReadStarted | Blocked | Terminated

  datatype Member = Member(
    claim: ClaimId,
    generation: Option<nat>,
    state: MemberState,
    reason: Option<string>,
    terminal: Option<Terminal>)

  datatype TerminalState = Completed | InputsUnchanged | RefusedWork

  datatype Terminal = Terminal(
    tick: TickId,
    target: TargetKey,
    claim: ClaimId,
    generation: nat,
    binding: string,
    state: TerminalState,
    reason: Option<string>,
    unit: string,
    decision: Option<string>,
    submission: Option<string>)

  datatype Hold = Held | Released

  datatype Ownership = Ownership(claim: ClaimId, generation: nat, hold: Hold)

  datatype FactState = Captured | Unchanged

  /** A frozen source observation; written once per owner and never rewritten. */
  datatype Fact = Fact(
    configBinding: string,
    selection: string,
    connection: string,
    unit: string,
    state: FactState)

  datatype Stage = Stage(name: string, eventId: string)

  /** A frozen submission plan; its last stage is the decision. */
  datatype Submission = Submission(hash: string, stages: seq<Stage>)

  /** What the submission history says: how many leading stages were accepted,
      and whether one was rejected. */
  datatype History = History(accepted: nat, failed: bool)

  datatype Recovery = Recovery(
    target: TargetKey,
    claim: ClaimId,
    generation: nat,
    tick: TickId,
    nextGeneration: nat)

  datatype Db = Db(
    ticks: seq<Tick>,
    progress: map<TickId, Progress>,
    members: map<(TickId, TargetKey), Member>,
    ownership: map<TargetKey, Ownership>,
    facts: map<Owner, Fact>,
    submissions: map<Owner, Submission>,
    histories: map<Owner, History>,
    terminals: set<Terminal>,
    recoveries: set<Recovery>)

  const EMPTY := Db([], map[], map[], map[], map[], map[], map[], {}, {})

  const ALLOWED_REASONS := {"no_usable_inputs", "mixed_evidence_reuse_unsupported"}

  function ClaimOf(cfg: Config, tick: TickId, target: TargetKey): ClaimId {
    ClaimId(cfg.connection, tick, target, cfg.binding)
  }

  // --- Reads ---------------------------------------------------------------

  function FindTick(ticks: seq<Tick>, id: TickId): (r: Option<nat>)
    ensures r.Some? ==> r.value < |ticks| && ticks[r.value].id == id
    ensures r.None? ==> forall i :: 0 <= i < |ticks| ==> ticks[i].id != id
  {
    if ticks == [] then None
    else if ticks[|ticks| - 1].id == id then Some(|ticks| - 1)
    else FindTick(ticks[..|ticks| - 1], id)
  }

  function ReadTick(db: Db, cfg: Config, id: TickId): Outcome<(Tick, Progress)> {
    match FindTick(db.ticks, id)
    case None => Refused("unknown_poll_tick")
    case Some(i) =>
      var d := db.ticks[i];
      var _ :- Require(d.binding == cfg.binding, "poll_config_conflict");
      var _ :- Require(
        && d.disposition != Complete
        && d.targets == (if d.disposition == Coalesced then [] else cfg.targets),
        "poll_integrity");
      var _ :- Require(id in db.progress, "poll_integrity");
      var state := db.progress[id];
      var _ :- Require(
        && (d.disposition == Coalesced <==> state == Coalesced)
        && !(d.disposition == Active && state == Waiting),
        "poll_integrity");
      Done((d, state))
  }

  function ReadMember(db: Db, cfg: Config, id: TickId, target: TargetKey): (r: Outcome<Member>)
    ensures r.Done? ==> (id, target) in db.members && r.value == db.members[(id, target)]
    ensures r.Done? ==> MemberShape(cfg, id, target, r.value)
  {
    var (d, _) :- ReadTick(db, cfg, id);
    var _ :- Require(target in d.targets, "target_not_allowlisted");
    var _ :- Require((id, target) in db.members, "poll_integrity");
    var row := db.members[(id, target)];
    var _ :- Require(MemberShape(cfg, id, target, row), "poll_integrity");
    Done(row)
  }

  predicate MemberShape(cfg: Config, id: TickId, target: TargetKey, row: Member) {
    && row.claim == ClaimOf(cfg, id, target)
    && (row.generation.None? <==> row.state == Queued)
    && (row.terminal.Some? <==> row.state == Terminated)
    && (row.generation.Some? ==> row.generation.value > 0)
  }

  /** Every frozen stage accepted and none rejected. */
  predicate Delivered(
    submissions: map<Owner, Submission>, histories: map<Owner, History>, owner: Owner)
  {
    && owner in submissions
    && owner in histories
    && !histories[owner].failed
    && histories[owner].accepted == |submissions[owner].stages|
    && submissions[owner].stages != []
  }

  predicate TerminalReasonOk(state: TerminalState, reason: Option<string>) {
    match state
    case Completed => reason == None
    case InputsUnchanged => reason == Some("scoring_inputs_unchanged")
    case RefusedWork => reason.Some? && reason.value in ALLOWED_REASONS
  }

  /** What the reader re-verifies about a terminal against the owner's frozen records. */
  predicate RecordsVerify(
    facts: map<Owner, Fact>, submissions: map<Owner, Submission>, histories: map<Owner, History>,
    owner: Owner, t: Terminal)
  {
    && owner in facts
    && t.unit == facts[owner].unit
    && TerminalReasonOk(t.state, t.reason)
    && if t.state == Completed then
         && Delivered(submissions, histories, owner)
         && t.submission == Some(submissions[owner].hash)
         && t.decision == Some(LastEvent(submissions[owner]))
       else
         && owner !in submissions
         && t.decision == None
         && t.submission == None
         && (t.state == InputsUnchanged <==> facts[owner].state == Unchanged)
  }

  function OwnerOf(t: Terminal): Owner {
    Owner(t.target, t.claim, t.generation)
  }

  /** Everything the reader re-verifies about the terminal of a member row. */
  predicate TerminalVerifies(db: Db, cfg: Config, id: TickId, target: TargetKey, row: Member, t: Terminal) {
    && t in db.terminals
    && t.tick == id && t.target == target && t.claim == row.claim
    && row.generation == Some(t.generation) && t.binding == cfg.binding
    && RecordsVerify(db.facts, db.submissions, db.histories, OwnerOf(t), t)
  }

  function LastEvent(s: Submission): string {
    if s.stages == [] then "" else s.stages[|s.stages| - 1].eventId
  }

  datatype MemberProgress = MemberProgress(
    target: TargetKey,
    state: MemberState,
    reason: Option<string>,
    terminal: Option<Terminal>)

  function ReportMembers(db: Db, cfg: Config, id: TickId, targets: seq<TargetKey>): Outcome<seq<MemberProgress>> {
    if targets == [] then Done([])
    else
      var before :- ReportMembers(db, cfg, id, targets[..|targets| - 1]);
      var target := targets[|targets| - 1];
      var row :- ReadMember(db, cfg, id, target);
      var _ :- Require(
        row.state == Terminated ==> TerminalVerifies(db, cfg, id, target, row, row.terminal.value),
        "poll_integrity");
      Done(before + [MemberProgress(target, row.state, row.reason, row.terminal)])
  }

  datatype Report = Report(tick: TickId, disposition: Progress, members: seq<MemberProgress>)

  predicate AllTerminated(members: seq<MemberProgress>) {
    forall i :: 0 <= i < |members| ==> members[i].state == Terminated
  }

  function ReadReport(db: Db, cfg: Config, id: TickId): Outcome<Report> {
    var (d, state) :- ReadTick(db, cfg, id);
    var rows := set key | key in db.members && key.0 == id :: key.1;
    var _ :- Require(rows == set target | target in d.targets, "poll_integrity");
    var members :- ReportMembers(db, cfg, id, d.targets);
    var _ :- Require(
      state == Complete <==> members != [] && AllTerminated(members),
      "poll_integrity");
    Done(Report(id, state, members))
  }

  /** The rows `SELECT state ... WHERE state IN ('active','waiting')`, in ordinal order. */
  function Pending(ticks: seq<Tick>, progress: map<TickId, Progress>): seq<(TickId, Progress)> {
    if ticks == [] then []
    else
      var before := Pending(ticks[..|ticks| - 1], progress);
      var id := ticks[|ticks| - 1].id;
      if id in progress && (progress[id] == Active || progress[id] == Waiting)
      then before + [(id, progress[id])]
      else before
  }

  /** The scan of the whole queue in ordinal order, over the first `n` ticks. */
  function ScanQueue(db: Db, cfg: Config, n: nat): Outcome<seq<(TickId, Progress)>>
    requires n <= |db.ticks|
  {
    if n == 0 then Done([])
    else
      var pending :- ScanQueue(db, cfg, n - 1);
      var report :- ReadReport(db, cfg, db.ticks[n - 1].id);
      if report.disposition == Coalesced then Done(pending)
      else if report.disposition == Complete then
        var _ :- Require(pending == [], "poll_queue_order_integrity");
        Done(pending)
      else Done(pending + [(db.ticks[n - 1].id, report.disposition)])
  }

  predicate PendingShape(pending: seq<(TickId, Progress)>) {
    && |pending| <= 2
    && (|pending| >= 1 ==> pending[0].1 == Active)
    && (|pending| == 2 ==> pending[1].1 == Waiting)
  }

  function ValidateQueue(db: Db, cfg: Config): Outcome<seq<(TickId, Progress)>> {
    var pending :- ScanQueue(db, cfg, |db.ticks|);
    var _ :- Require(PendingShape(pending), "poll_queue_order_integrity");
    Done(pending)
  }

  predicate Holds(ownership: map<TargetKey, Ownership>, owner: Owner) {
    && owner.target in ownership
    && ownership[owner.target] == Ownership(owner.claim, owner.generation, Held)
  }

  function AssertOwner(db: Db, owner: Owner): Outcome<()> {
    Require(Holds(db.ownership, owner), "stale_ownership")
  }

  // --- Writes --------------------------------------------------------------

  function CountOf(pending: seq<(TickId, Progress)>, state: Progress): nat {
    if pending == [] then 0
    else CountOf(pending[..|pending| - 1], state) + (if pending[|pending| - 1].1 == state then 1 else 0)
  }

  function MaxOrdinal(ticks: seq<Tick>): (m: nat)
    ensures forall i :: 0 <= i < |ticks| ==> ticks[i].ordinal <= m
    ensures m == 0 || exists i :: 0 <= i < |ticks| && ticks[i].ordinal == m
  {
    if ticks == [] then 0
    else
      var before := MaxOrdinal(ticks[..|ticks| - 1]);
      var last := ticks[|ticks| - 1].ordinal;
      if last > before then last else before
  }

  function QueuedMembers(cfg: Config, id: TickId, targets: seq<TargetKey>): map<(TickId, TargetKey), Member> {
    map key: (TickId, TargetKey) | key in (set target | target in targets :: (id, target)) ::
      Member(ClaimOf(cfg, id, key.1), None, Queued, None, None)
  }

  function Admit(db: Db, cfg: Config, id: TickId, receivedAt: int): Outcome<Db> {
    var _ :- ValidateQueue(db, cfg);
    if FindTick(db.ticks, id).Some? then
      var _ :- ReadTick(db, cfg, id);
      Done(db)
    else
      var pending := Pending(db.ticks, db.progress);
      var _ :- Require(
        |pending| <= 2 && CountOf(pending, Active) <= 1 && CountOf(pending, Waiting) <= 1,
        "poll_integrity");
      var state := if |pending| == 2 then Coalesced else if pending != [] then Waiting else Active;
      var targets := if state == Coalesced then [] else cfg.targets;
      var tick := Tick(MaxOrdinal(db.ticks) + 1, id, cfg.binding, receivedAt, state, targets);
      Done(db.(
        ticks := db.ticks + [tick],
        progress := db.progress[id := state],
        members := db.members + QueuedMembers(cfg, id, targets)))
  }

  function Claim(db: Db, cfg: Config, id: TickId, target: TargetKey): Outcome<(Db, Owner)> {
    var (_, state) :- ReadTick(db, cfg, id);
    var _ :- Require(state == Active, "poll_tick_not_active");
    var member :- ReadMember(db, cfg, id, target);
    var _ :- Require(member.state != Terminated, "poll_member_terminal");
    if member.state == Queued then
      var _ :- Require(
        target !in db.ownership || db.ownership[target].hold != Held,
        "target_busy");
      var generation := if target in db.ownership then db.ownership[target].generation + 1 else 1;
      Done((
        db.(
          ownership := db.ownership[target := Ownership(member.claim, generation, Held)],
          members := db.members[(id, target) :=
            member.(generation := Some(generation), state := Claimed, reason := None)]),
        Owner(target, member.claim, generation)))
    else
      var generation := member.generation.value;
      var owner := Owner(target, member.claim, generation);
      var _ :- AssertOwner(db, owner);
      if (member.state == ReadStarted || member.state == Blocked) && owner !in db.facts then
        Done((
          db.(
            recoveries := db.recoveries + {Recovery(target, member.claim, generation, id, generation + 1)},
            ownership := db.ownership[target := db.ownership[target].(generation := generation + 1)],
            members := db.members[(id, target) :=
              member.(generation := Some(generation + 1), state := Claimed, reason := None)]),
          Owner(target, member.claim, generation + 1)))
      else Done((db, owner))
  }

  function MarkReadStarted(db: Db, cfg: Config, id: TickId, owner: Owner): Outcome<Db> {
    var _ :- AssertOwner(db, owner);
    var row :- ReadMember(db, cfg, id, owner.target);
    var _ :- Require(
      row.claim == owner.claim && row.generation == Some(owner.generation) && row.state == Claimed,
      "poll_integrity");
    Done(db.(members := db.members[(id, owner.target) := row.(state := ReadStarted)]))
  }

  function Block(db: Db, cfg: Config, id: TickId, owner: Owner, reason: string): Outcome<Db> {
    var _ :- AssertOwner(db, owner);
    var row :- ReadMember(db, cfg, id, owner.target);
    var _ :- Require(
      row.claim == owner.claim && row.generation == Some(owner.generation) && row.state != Terminated,
      "poll_integrity");
    Done(db.(members := db.members[(id, owner.target) := row.(state := Blocked, reason := Some(reason))]))
  }

  /** The terminal record a settlement would store, or why it may not. `domainVerified`
      is the outside verdict that the collector's own records match the frozen plan. */
  function SettlementRecord(
    db: Db, cfg: Config, id: TickId, owner: Owner,
    state: TerminalState, reason: Option<string>, domainVerified: bool): Outcome<Terminal>
  {
    var _ :- Require(owner in db.facts, "poll_integrity");
    var fact := db.facts[owner];
    var _ :- Require(
      && fact.configBinding == cfg.connectionBinding
      && fact.selection == cfg.selection
      && fact.connection == cfg.connection,
      "poll_integrity");
    match state
    case Completed =>
      var _ :- Require(owner in db.submissions, "missing_frozen_submission");
      var _ :- Require(Delivered(db.submissions, db.histories, owner), "submission_incomplete");
      var _ :- Require(domainVerified, "submission_domain");
      var _ :- Require(reason == None, "poll_integrity");
      Done(Terminal(id, owner.target, owner.claim, owner.generation, cfg.binding, state, reason, fact.unit,
                    Some(LastEvent(db.submissions[owner])), Some(db.submissions[owner].hash)))
    case InputsUnchanged =>
      var _ :- Require(
        fact.state == Unchanged && reason == Some("scoring_inputs_unchanged") && owner !in db.submissions,
        "poll_integrity");
      Done(Terminal(id, owner.target, owner.claim, owner.generation, cfg.binding, state, reason, fact.unit, None, None))
    case RefusedWork =>
      var _ :- Require(
        && reason.Some? && reason.value in ALLOWED_REASONS
        && fact.state == Captured
        && owner !in db.submissions,
        "poll_integrity");
      Done(Terminal(id, owner.target, owner.claim, owner.generation, cfg.binding, state, reason, fact.unit, None, None))
  }

  predicate TickFinished(members: map<(TickId, TargetKey), Member>, id: TickId) {
    forall key | key in members && key.0 == id :: members[key].state == Terminated
  }

  /** Completing a tick promotes every waiting tick. */
  function Promote(progress: map<TickId, Progress>, id: TickId): map<TickId, Progress> {
    map t | t in progress ::
      if t == id then Complete
      else if progress[t] == Waiting then Active
      else progress[t]
  }

  function Settle(
    db: Db, cfg: Config, id: TickId, owner: Owner,
    state: TerminalState, reason: Option<string>, domainVerified: bool): Outcome<Db>
  {
    var _ :- AssertOwner(db, owner);
    var member :- ReadMember(db, cfg, id, owner.target);
    var _ :- Require(
      member.claim == owner.claim && member.generation == Some(owner.generation) && member.state != Terminated,
      "poll_integrity");
    var terminal :- SettlementRecord(db, cfg, id, owner, state, reason, domainVerified);
    var members := db.members[(id, owner.target) :=
      member.(state := Terminated, reason := reason, terminal := Some(terminal))];
    Done(db.(
      terminals := db.terminals + {terminal},
      members := members,
      ownership := db.ownership[owner.target := db.ownership[owner.target].(hold := Released)],
      progress := if TickFinished(members, id) then Promote(db.progress, id) else db.progress))
  }

  // --- The store's own owner-fenced records ---------------------------------

  function RecordFact(db: Db, owner: Owner, fact: Fact): Outcome<Db> {
    var _ :- AssertOwner(db, owner);
    if owner in db.facts then
      var _ :- Require(db.facts[owner] == fact, "capture_claim_conflict");
      Done(db)
    else Done(db.(facts := db.facts[owner := fact]))
  }

  function FreezeSubmission(db: Db, owner: Owner, submission: Submission): Outcome<Db> {
    var _ :- AssertOwner(db, owner);
    if owner in db.submissions then
      var _ :- Require(db.submissions[owner] == submission, "submission_plan_conflict");
      Done(db)
    else
      var _ :- Require(
        owner in db.facts && db.facts[owner].state == Captured && submission.stages != [],
        "submission_capture_mismatch");
      Done(db.(
        submissions := db.submissions[owner := submission],
        histories := db.histories[owner := History(0, false)]))
  }

  datatype Delivery = Accepted | Rejected | Inconclusive

  function Observe(db: Db, owner: Owner, delivery: Delivery): Outcome<Db> {
    var _ :- AssertOwner(db, owner);
    var _ :- Require(owner in db.submissions && owner in db.histories, "submission_integrity");
    var history := db.histories[owner];
    match delivery
    case Accepted =>
      var _ :- Require(history.accepted < |db.submissions[owner].stages|, "submission_stage_order_integrity");
      Done(db.(histories := db.histories[owner := history.(accepted := history.accepted + 1)]))
    case Rejected => Done(db.(histories := db.histories[owner := history.(failed := true)]))
    case Inconclusive => Done(db)
  }
}
