/** The queue as the mutable store it is.
    Every method is tied to the state functions of PollTables, whose invariant and
    run properties are proved in PollSteps and PollRuns. */
module PollStores {
  import opened Outcome
  import opened PollTables
  import opened PollInvariant
  import PollSteps
  import PollRuns

  /** What a call leaves: the new tables, or the old ones and the reason. */
  ghost predicate Became(was: Db, now: Db, spec: Outcome<Db>, refusal: Option<string>) {
    match spec
    case Done(db) => now == db && refusal == None
    case Refused(why) => now == was && refusal == Some(why)
  }

  class PollStore {
    const config: Config
    var ticks: seq<Tick>
    var progress: map<TickId, Progress>
    var members: map<(TickId, TargetKey), Member>
    var ownership: map<TargetKey, Ownership>
    var facts: map<Owner, Fact>
    var submissions: map<Owner, Submission>
    var histories: map<Owner, History>
    var terminals: set<Terminal>
    var recoveries: set<Recovery>

    function State(): Db
      reads this
    {
      Db(ticks, progress, members, ownership, facts, submissions, histories, terminals, recoveries)
    }

    ghost predicate Valid()
      reads this
    {
      Inv(State(), config)
    }

    constructor (config: Config)
      requires config.Valid()
      ensures Valid() && this.config == config && State() == EMPTY
    {
      this.config := config;
      ticks, progress, members, ownership := [], map[], map[], map[];
      facts, submissions, histories, terminals, recoveries := map[], map[], map[], {}, {};
      new;
      EmptyInv(config);
    }

    /** One tick's report, member by member in configuration order. */
    method Report(id: TickId) returns (r: Outcome<PollTables.Report>)
      ensures r == ReadReport(State(), config, id)
    {
      hide ReadTick, ReadMember, TerminalVerifies, AllTerminated;
      var read := ReadTick(State(), config, id);
      if read.Refused? {
        return Refused(read.reason);
      }
      var (d, state) := read.value;
      if (set key | key in members && key.0 == id :: key.1) != (set target | target in d.targets) {
        return Refused("poll_integrity");
      }
      var result := [];
      var finished := true;
      assert AllTerminated(result) by { NoneTerminated(); }
      for i := 0 to |d.targets|
        invariant ReportMembers(State(), config, id, d.targets[..i]) == Done(result)
        invariant finished == AllTerminated(result)
      {
        ghost var before := result;
        assert d.targets[..i + 1][..i] == d.targets[..i];
        ReportPrefix(State(), config, id, d.targets, i + 1);
        var row := ReadMember(State(), config, id, d.targets[i]);
        if row.Refused? {
          return Refused(row.reason);
        }
        if row.value.state == Terminated
           && !TerminalVerifies(State(), config, id, d.targets[i], row.value, row.value.terminal.value)
        {
          return Refused("poll_integrity");
        }
        result := result + [MemberProgress(d.targets[i], row.value.state, row.value.reason, row.value.terminal)];
        finished := finished && row.value.state == Terminated;
        TerminatedStep(before, result[|result| - 1]);
      }
      assert d.targets[..|d.targets|] == d.targets;
      if (state == Complete) != (result != [] && finished) {
        return Refused("poll_integrity");
      }
      r := Done(PollTables.Report(id, state, result));
    }

    /** The scan of the whole queue that precedes every admission and every report. */
    method Validate() returns (r: Outcome<seq<(TickId, Progress)>>)
      ensures r == ValidateQueue(State(), config)
    {
      hide ReadReport;
      var pending := [];
      for n := 0 to |ticks|
        invariant ScanQueue(State(), config, n) == Done(pending)
      {
        ScanPrefix(State(), config, n + 1);
        var report := Report(ticks[n].id);
        if report.Refused? {
          return Refused(report.reason);
        }
        if report.value.disposition == Coalesced {
        } else if report.value.disposition == Complete {
          if pending != [] {
            return Refused("poll_queue_order_integrity");
          }
        } else {
          pending := pending + [(ticks[n].id, report.value.disposition)];
        }
      }
      r := if PendingShape(pending) then Done(pending) else Refused("poll_queue_order_integrity");
    }

    method QueueMembers(id: TickId, targets: seq<TargetKey>)
      modifies `members
      ensures members == old(members) + QueuedMembers(config, id, targets)
    {
      hide QueuedMembers;
      QueuedNone(config, id);
      for i := 0 to |targets|
        invariant members == old(members) + QueuedMembers(config, id, targets[..i])
      {
        members := members[(id, targets[i]) := Member(ClaimOf(config, id, targets[i]), None, Queued, None, None)];
        QueuedStep(config, id, targets, i);
      }
      assert targets[..|targets|] == targets;
    }

    method Admit(id: TickId, receivedAt: int) returns (refusal: Option<string>)
      requires Valid()
      modifies this
      ensures Valid()
      ensures Became(old(State()), State(), PollTables.Admit(old(State()), config, id, receivedAt), refusal)
    {
      hide Inv, PollTables.ValidateQueue, ReadTick, QueuedMembers, FindTick, Pending, CountOf, MaxOrdinal;
      ghost var db := State();
      if PollTables.Admit(db, config, id, receivedAt).Done? {
        PollSteps.AdmitKeepsInv(db, config, id, receivedAt);
      }
      var queue := Validate();
      if queue.Refused? {
        return Some(queue.reason);
      }
      if FindTick(ticks, id).Some? {
        var known := ReadTick(State(), config, id);
        return if known.Done? then None else Some(known.reason);
      }
      var pending := Pending(ticks, progress);
      if !(|pending| <= 2 && CountOf(pending, Active) <= 1 && CountOf(pending, Waiting) <= 1) {
        return Some("poll_integrity");
      }
      var state := if |pending| == 2 then Coalesced else if pending != [] then Waiting else Active;
      var targets := if state == Coalesced then [] else config.targets;
      ticks := ticks + [Tick(MaxOrdinal(ticks) + 1, id, config.binding, receivedAt, state, targets)];
      progress := progress[id := state];
      QueueMembers(id, targets);
      refusal := None;
    }

    method Claim(id: TickId, target: TargetKey) returns (r: Outcome<Owner>)
      requires Valid()
      modifies this
      ensures Valid()
      ensures match PollTables.Claim(old(State()), config, id, target)
        case Done((db, owner)) => State() == db && r == Done(owner)
        case Refused(why) => State() == old(State()) && r == Refused(why)
      ensures r.Refused? ==> r.reason != "target_busy"
      ensures r.Done? ==> Holds(ownership, r.value)
    {
      hide Inv;
      ghost var db := State();
      ClaimNeverBusy(db, config, id, target);
      if PollTables.Claim(db, config, id, target).Done? {
        PollSteps.ClaimKeepsInv(db, config, id, target);
        ClaimedOwnerHolds(db, config, id, target);
      }
      var tick := ReadTick(State(), config, id);
      if tick.Refused? {
        return Refused(tick.reason);
      }
      if tick.value.1 != Active {
        return Refused("poll_tick_not_active");
      }
      var read := ReadMember(State(), config, id, target);
      if read.Refused? {
        return Refused(read.reason);
      }
      var member := read.value;
      if member.state == Terminated {
        return Refused("poll_member_terminal");
      }
      if member.state == Queued {
        if target in ownership && ownership[target].hold == Held {
          return Refused("target_busy");
        }
        var generation := if target in ownership then ownership[target].generation + 1 else 1;
        ownership := ownership[target := Ownership(member.claim, generation, Held)];
        members := members[(id, target) := member.(generation := Some(generation), state := Claimed, reason := None)];
        return Done(Owner(target, member.claim, generation));
      }
      var generation := member.generation.value;
      var owner := Owner(target, member.claim, generation);
      if !Holds(ownership, owner) {
        return Refused("stale_ownership");
      }
      if (member.state == ReadStarted || member.state == MemberState.Blocked) && owner !in facts {
        recoveries := recoveries + {Recovery(target, member.claim, generation, id, generation + 1)};
        generation := generation + 1;
        ownership := ownership[target := ownership[target].(generation := generation)];
        members := members[(id, target) := member.(generation := Some(generation), state := Claimed, reason := None)];
      }
      r := Done(Owner(target, member.claim, generation));
    }

    method MarkReadStarted(id: TickId, owner: Owner) returns (refusal: Option<string>)
      requires Valid()
      modifies `members
      ensures Valid()
      ensures Became(old(State()), State(), PollTables.MarkReadStarted(old(State()), config, id, owner), refusal)
    {
      hide Inv;
      ghost var db := State();
      if PollTables.MarkReadStarted(db, config, id, owner).Done? {
        PollSteps.MarkKeepsInv(db, config, id, owner);
      }
      if !Holds(ownership, owner) {
        return Some("stale_ownership");
      }
      var row := ReadMember(State(), config, id, owner.target);
      if row.Refused? {
        return Some(row.reason);
      }
      if !(row.value.claim == owner.claim && row.value.generation == Some(owner.generation)
        && row.value.state == Claimed) {
        return Some("poll_integrity");
      }
      members := members[(id, owner.target) := row.value.(state := ReadStarted)];
      refusal := None;
    }

    method Blocked(id: TickId, owner: Owner, reason: string) returns (refusal: Option<string>)
      requires Valid()
      modifies `members
      ensures Valid()
      ensures Became(old(State()), State(), Block(old(State()), config, id, owner, reason), refusal)
    {
      hide Inv;
      ghost var db := State();
      if Block(db, config, id, owner, reason).Done? {
        PollSteps.BlockKeepsInv(db, config, id, owner, reason);
      }
      if !Holds(ownership, owner) {
        return Some("stale_ownership");
      }
      var row := ReadMember(State(), config, id, owner.target);
      if row.Refused? {
        return Some(row.reason);
      }
      if !(row.value.claim == owner.claim && row.value.generation == Some(owner.generation)
        && row.value.state != Terminated) {
        return Some("poll_integrity");
      }
      members := members[(id, owner.target) := row.value.(state := MemberState.Blocked, reason := Some(reason))];
      refusal := None;
    }

    method Settle(id: TickId, owner: Owner, state: TerminalState, reason: Option<string>, domainVerified: bool)
      returns (refusal: Option<string>)
      requires Valid()
      modifies this
      ensures Valid()
      ensures Became(old(State()), State(),
                PollTables.Settle(old(State()), config, id, owner, state, reason, domainVerified), refusal)
    {
      hide Inv, SettlementRecord, ReadMember, TickFinished;
      ghost var db := State();
      if PollTables.Settle(db, config, id, owner, state, reason, domainVerified).Done? {
        PollSteps.SettleKeepsInv(db, config, id, owner, state, reason, domainVerified);
      }
      if !Holds(ownership, owner) {
        return Some("stale_ownership");
      }
      var read := ReadMember(State(), config, id, owner.target);
      if read.Refused? {
        return Some(read.reason);
      }
      var member := read.value;
      if !(member.claim == owner.claim && member.generation == Some(owner.generation) && member.state != Terminated) {
        return Some("poll_integrity");
      }
      var record := SettlementRecord(State(), config, id, owner, state, reason, domainVerified);
      if record.Refused? {
        return Some(record.reason);
      }
      terminals := terminals + {record.value};
      members := members[(id, owner.target) := member.(state := Terminated, reason := reason,
        terminal := Some(record.value))];
      ownership := ownership[owner.target := ownership[owner.target].(hold := Released)];
      if TickFinished(members, id) {
        progress := progress[id := Complete];
        progress := map t | t in progress :: if progress[t] == Waiting then Active else progress[t];
        assert id in db.progress ==> progress == Promote(db.progress, id);
        MemberHasProgress(db, config, id, owner.target);
      }
      refusal := None;
    }

    method RecordFact(owner: Owner, fact: Fact) returns (refusal: Option<string>)
      requires Valid()
      modifies `facts
      ensures Valid()
      ensures Became(old(State()), State(), PollTables.RecordFact(old(State()), owner, fact), refusal)
    {
      hide Inv;
      ghost var db := State();
      if PollTables.RecordFact(db, owner, fact).Done? {
        PollSteps.FactKeepsInv(db, config, owner, fact);
      }
      if !Holds(ownership, owner) {
        return Some("stale_ownership");
      }
      if owner in facts {
        return if facts[owner] == fact then None else Some("capture_claim_conflict");
      }
      facts := facts[owner := fact];
      refusal := None;
    }

    method FreezeSubmission(owner: Owner, submission: Submission) returns (refusal: Option<string>)
      requires Valid()
      modifies `submissions, `histories
      ensures Valid()
      ensures Became(old(State()), State(), PollTables.FreezeSubmission(old(State()), owner, submission), refusal)
    {
      hide Inv;
      ghost var db := State();
      if PollTables.FreezeSubmission(db, owner, submission).Done? {
        PollSteps.FreezeKeepsInv(db, config, owner, submission);
      }
      if !Holds(ownership, owner) {
        return Some("stale_ownership");
      }
      if owner in submissions {
        return if submissions[owner] == submission then None else Some("submission_plan_conflict");
      }
      if !(owner in facts && facts[owner].state == Captured && submission.stages != []) {
        return Some("submission_capture_mismatch");
      }
      submissions := submissions[owner := submission];
      histories := histories[owner := History(0, false)];
      refusal := None;
    }

    method Observe(owner: Owner, delivery: Delivery) returns (refusal: Option<string>)
      requires Valid()
      modifies `histories
      ensures Valid()
      ensures Became(old(State()), State(), PollTables.Observe(old(State()), owner, delivery), refusal)
    {
      hide Inv;
      ghost var db := State();
      if PollTables.Observe(db, owner, delivery).Done? {
        PollSteps.ObserveKeepsInv(db, config, owner, delivery);
      }
      if !Holds(ownership, owner) {
        return Some("stale_ownership");
      }
      if owner !in submissions || owner !in histories {
        return Some("submission_integrity");
      }
      var history := histories[owner];
      if delivery == Accepted {
        if history.accepted >= |submissions[owner].stages| {
          return Some("submission_stage_order_integrity");
        }
        histories := histories[owner := history.(accepted := history.accepted + 1)];
      } else if delivery == Rejected {
        histories := histories[owner := history.(failed := true)];
      }
      refusal := None;
    }
  }

  // --- Steps of the loops above ------------------------------------------------------

  lemma ReportPrefix(db: Db, cfg: Config, id: TickId, targets: seq<TargetKey>, n: nat)
    requires n <= |targets|
    ensures ReportMembers(db, cfg, id, targets[..n]).Refused? ==>
              ReportMembers(db, cfg, id, targets) == ReportMembers(db, cfg, id, targets[..n])
    decreases |targets|
  {
    if n < |targets| {
      assert targets[..|targets| - 1][..n] == targets[..n];
      ReportPrefix(db, cfg, id, targets[..|targets| - 1], n);
    } else {
      assert targets[..n] == targets;
    }
  }

  lemma ScanPrefix(db: Db, cfg: Config, n: nat)
    requires n <= |db.ticks|
    ensures ScanQueue(db, cfg, n).Refused? ==> ScanQueue(db, cfg, |db.ticks|) == ScanQueue(db, cfg, n)
    decreases |db.ticks| - n
  {
    if n < |db.ticks| {
      ScanPrefix(db, cfg, n + 1);
    }
  }

  lemma NoneTerminated()
    ensures AllTerminated([])
  {
  }

  lemma TerminatedStep(before: seq<MemberProgress>, last: MemberProgress)
    ensures AllTerminated(before + [last]) <==> AllTerminated(before) && last.state == Terminated
  {
    if AllTerminated(before + [last]) {
      forall i | 0 <= i < |before| ensures before[i].state == Terminated {
        assert (before + [last])[i] == before[i];
      }
      assert (before + [last])[|before|] == last;
    }
  }

  lemma QueuedNone(cfg: Config, id: TickId)
    ensures QueuedMembers(cfg, id, []) == map[]
  {
  }

  lemma QueuedStep(cfg: Config, id: TickId, targets: seq<TargetKey>, i: nat)
    requires i < |targets|
    ensures QueuedMembers(cfg, id, targets[..i + 1]) ==
      QueuedMembers(cfg, id, targets[..i])[
        (id, targets[i]) := Member(ClaimOf(cfg, id, targets[i]), None, Queued, None, None)]
  {
    assert targets[..i + 1] == targets[..i] + [targets[i]];
  }

  // --- What the callers rely on --------------------------------------------------------

  lemma ShapeCounts(pending: seq<(TickId, Progress)>)
    requires PendingShape(pending)
    ensures CountOf(pending, Active) <= 1 && CountOf(pending, Waiting) <= 1
  {
    assert |pending| == 1 ==> CountOf(pending[..0], Active) == 0;
    assert |pending| == 2 ==> pending[..1][..0] == [] && pending[..1][0] == pending[0];
  }

  /** Admission refuses no tick: a known one is left alone, and a new one always fits. */
  lemma AdmitNeverRefuses(db: Db, cfg: Config, id: TickId, at: int)
    requires Inv(db, cfg)
    ensures PollTables.Admit(db, cfg, id, at).Done?
  {
    PollRuns.QueueValidates(db, cfg);
    var found := FindTick(db.ticks, id);
    if found.Some? {
      PollRuns.TickHasProgress(db.ticks, db.progress, found.value);
      TickReads(db, cfg, id);
    } else {
      PollSteps.PendingIsShaped(db.ticks, db.progress);
      hide Inv;
      ShapeCounts(Pending(db.ticks, db.progress));
    }
  }

  /** Ownership never stands in the way of the active tick's own members. */
  lemma ClaimNeverBusy(db: Db, cfg: Config, id: TickId, target: TargetKey)
    requires Inv(db, cfg)
    ensures PollTables.Claim(db, cfg, id, target) != Refused("target_busy")
  {
    hide Inv, FindTick;
    ActiveReads(db, cfg, id);
    if ReadTick(db, cfg, id).Done? && ReadMember(db, cfg, id, target).Done?
       && db.progress[id] == Active && db.members[(id, target)].state == Queued
    {
      PollSteps.TargetNeverBusy(db, cfg, id, target);
    }
  }

  lemma ActiveReads(db: Db, cfg: Config, id: TickId)
    requires Inv(db, cfg)
    ensures ReadTick(db, cfg, id).Done? ==> id in db.progress && ReadTick(db, cfg, id).value.1 == db.progress[id]
  {
    hide TicksOk, ProgressOk, OrderOk, MembersOk, CompletionOk, HoldsOk, AccountsOk, RecordsUnique, FactsOk,
      SubmissionsOk, TerminalsOk, EvidenceOk;
    TickReads(db, cfg, id);
  }

  lemma ClaimedOwnerHolds(db: Db, cfg: Config, id: TickId, target: TargetKey)
    requires PollTables.Claim(db, cfg, id, target).Done?
    ensures var (db', owner) := PollTables.Claim(db, cfg, id, target).value;
      Holds(db'.ownership, owner)
  {
  }

  lemma MemberHasProgress(db: Db, cfg: Config, id: TickId, target: TargetKey)
    requires Inv(db, cfg) && (id, target) in db.members
    ensures id in db.progress
  {
    hide TicksOk, ProgressOk, OrderOk, CompletionOk, HoldsOk, AccountsOk, RecordsUnique, FactsOk, SubmissionsOk,
      TerminalsOk, EvidenceOk;
  }
}
