/** What holds over whole runs of the poll queue: reads never refuse, ownership is
    fenced for good, frozen work never moves, and every generation is accounted for. */
module PollRuns {
  import opened Outcome
  import opened PollTables
  import opened PollInvariant
  import PollSteps

  // --- The reader never refuses a sound queue ------------------------------------

  /** The report of a tick that reading a sound queue must produce. */
  function MemberLine(db: Db, id: TickId, target: TargetKey): MemberProgress
    requires (id, target) in db.members
  {
    var row := db.members[(id, target)];
    MemberProgress(target, row.state, row.reason, row.terminal)
  }

  lemma TerminalReads(db: Db, cfg: Config, id: TickId, target: TargetKey)
    requires TerminalsOk(db.members, db.terminals, cfg)
    requires EvidenceOk(db.facts, db.submissions, db.histories, db.terminals)
    requires (id, target) in db.members && db.members[(id, target)].state == Terminated
    ensures var row := db.members[(id, target)];
      row.terminal.Some? && TerminalVerifies(db, cfg, id, target, row, row.terminal.value)
  {
  }

  lemma {:induction false} MembersRead(db: Db, cfg: Config, id: TickId, targets: seq<TargetKey>)
    requires Inv(db, cfg)
    requires forall i :: 0 <= i < |targets| ==> (id, targets[i]) in db.members
    ensures var r := ReportMembers(db, cfg, id, targets);
      r.Done? && |r.value| == |targets|
      && forall i :: 0 <= i < |targets| ==> r.value[i] == MemberLine(db, id, targets[i])
  {
    hide TicksOk, ProgressOk, OrderOk, MembersOk, CompletionOk, HoldsOk, AccountsOk, RecordsUnique, FactsOk,
      SubmissionsOk, TerminalsOk, EvidenceOk;
    if targets != [] {
      MembersRead(db, cfg, id, targets[..|targets| - 1]);
      var target := targets[|targets| - 1];
      MemberReads(db, cfg, id, target);
      if db.members[(id, target)].state == Terminated {
        TerminalReads(db, cfg, id, target);
      }
    }
  }

  function TickTargets(db: Db, cfg: Config, id: TickId): seq<TargetKey>
    requires id in db.progress
  {
    if db.progress[id] == Coalesced then [] else cfg.targets
  }

  lemma MemberRows(db: Db, cfg: Config, id: TickId)
    requires MembersOk(db.progress, db.members, cfg) && id in db.progress
    ensures (set key | key in db.members && key.0 == id :: key.1)
         == (set target | target in TickTargets(db, cfg, id))
  {
    var rows := set key | key in db.members && key.0 == id :: key.1;
    forall k ensures k in rows <==> db.progress[id] != Coalesced && k in cfg.targets {
      if k in rows {
        var key :| key in db.members && key.0 == id && key.1 == k;
        assert key == (id, k);
      }
      if db.progress[id] != Coalesced && k in cfg.targets {
        assert (id, k) in db.members;
      }
    }
  }

  lemma CompleteMeans(db: Db, cfg: Config, id: TickId)
    requires cfg.Valid() && MembersOk(db.progress, db.members, cfg) && CompletionOk(db.progress, db.members)
    requires id in db.progress && db.progress[id] != Coalesced
    ensures db.progress[id] == Complete <==>
            forall k :: k in cfg.targets ==> (id, k) in db.members && db.members[(id, k)].state == Terminated
  {
    if forall k :: k in cfg.targets ==> (id, k) in db.members && db.members[(id, k)].state == Terminated {
      forall key | key in db.members && key.0 == id ensures db.members[key].state == Terminated {
        PollSteps.MemberTicks(db.progress, db.members, cfg, key);
        assert key == (id, key.1);
      }
      assert TickFinished(db.members, id);
    }
    forall k | k in cfg.targets ensures (id, k) in db.members {
    }
  }

  /** Reading back any admitted tick succeeds and reports exactly the stored rows. */
  lemma ReportReads(db: Db, cfg: Config, id: TickId)
    requires Inv(db, cfg) && id in db.progress
    ensures var r := ReadReport(db, cfg, id);
      && r.Done?
      && r.value.disposition == db.progress[id]
      && |r.value.members| == (if db.progress[id] == Coalesced then 0 else |cfg.targets|)
      && forall i :: 0 <= i < |r.value.members| ==>
           (id, cfg.targets[i]) in db.members && r.value.members[i] == MemberLine(db, id, cfg.targets[i])
  {
    hide TicksOk, ProgressOk, OrderOk, MembersOk, CompletionOk, HoldsOk, AccountsOk, RecordsUnique, FactsOk,
      SubmissionsOk, TerminalsOk, EvidenceOk;
    TickReads(db, cfg, id);
    MemberRows(db, cfg, id);
    var targets := ReadTick(db, cfg, id).value.0.targets;
    forall i | 0 <= i < |targets| ensures (id, targets[i]) in db.members {
      RowPresent(db, cfg, id, targets[i]);
    }
    MembersRead(db, cfg, id, targets);
    var members := ReportMembers(db, cfg, id, targets).value;
    if db.progress[id] != Coalesced {
      CompleteMeans(db, cfg, id);
      if AllTerminated(members) {
        forall k | k in cfg.targets ensures (id, k) in db.members && db.members[(id, k)].state == Terminated {
          var i :| 0 <= i < |cfg.targets| && cfg.targets[i] == k;
          assert members[i] == MemberLine(db, id, cfg.targets[i]);
        }
      }
    }
  }

  lemma RowPresent(db: Db, cfg: Config, id: TickId, k: TargetKey)
    requires MembersOk(db.progress, db.members, cfg)
    requires id in db.progress && db.progress[id] != Coalesced && k in cfg.targets
    ensures (id, k) in db.members
  {
  }

  lemma TickHasProgress(ticks: seq<Tick>, progress: Progresses, i: nat)
    requires ProgressOk(ticks, progress) && i < |ticks|
    ensures ticks[i].id in progress
  {
  }

  lemma {:induction false} ScanReads(db: Db, cfg: Config, n: nat)
    requires Inv(db, cfg) && n <= |db.ticks|
    ensures ScanQueue(db, cfg, n) == Done(Pending(db.ticks[..n], db.progress))
  {
    hide TicksOk, ProgressOk, OrderOk, MembersOk, CompletionOk, HoldsOk, AccountsOk, RecordsUnique, FactsOk,
      SubmissionsOk, TerminalsOk, EvidenceOk, ReadReport;
    if n > 0 {
      ScanReads(db, cfg, n - 1);
      assert db.ticks[..n][..n - 1] == db.ticks[..n - 1];
      var id := db.ticks[n - 1].id;
      TickHasProgress(db.ticks, db.progress, n - 1);
      ReportReads(db, cfg, id);
      if db.progress[id] == Complete {
        CompletePrecedesPending(db, cfg, n);
      }
    }
  }

  lemma {:induction false} NothingPending(ticks: seq<Tick>, progress: Progresses)
    requires forall i :: 0 <= i < |ticks| && ticks[i].id in progress ==>
               progress[ticks[i].id] != Active && progress[ticks[i].id] != Waiting
    ensures Pending(ticks, progress) == []
  {
    if ticks != [] {
      NothingPending(ticks[..|ticks| - 1], progress);
    }
  }

  lemma CompletePrecedesPending(db: Db, cfg: Config, n: nat)
    requires ProgressOk(db.ticks, db.progress) && OrderOk(db.ticks, db.progress)
    requires 0 < n <= |db.ticks| && db.progress[db.ticks[n - 1].id] == Complete
    ensures Pending(db.ticks[..n - 1], db.progress) == []
  {
    forall i | 0 <= i < n - 1
      ensures db.ticks[i].id in db.progress && AllowedPair(db.progress[db.ticks[i].id], Complete)
    {
      PollSteps.PairAllowed(db.ticks, db.progress, i, n - 1);
    }
    NothingPending(db.ticks[..n - 1], db.progress);
  }

  /** The code's own queue validation accepts every sound queue and returns its pending rows. */
  lemma QueueValidates(db: Db, cfg: Config)
    requires Inv(db, cfg)
    ensures ValidateQueue(db, cfg) == Done(Pending(db.ticks, db.progress))
  {
    ScanReads(db, cfg, |db.ticks|);
    assert db.ticks[..|db.ticks|] == db.ticks;
    PollSteps.PendingIsShaped(db.ticks, db.progress);
  }

  // --- Runs ------------------------------------------------------------------------

  datatype Command =
    | DoAdmit(id: TickId, receivedAt: int)
    | DoClaim(id: TickId, target: TargetKey)
    | DoMark(id: TickId, owner: Owner)
    | DoBlock(id: TickId, owner: Owner, why: string)
    | DoSettle(id: TickId, owner: Owner, state: TerminalState, reason: Option<string>, verified: bool)
    | DoFact(owner: Owner, fact: Fact)
    | DoFreeze(owner: Owner, submission: Submission)
    | DoObserve(owner: Owner, delivery: Delivery)

  function Apply(db: Db, cfg: Config, c: Command): Outcome<Db> {
    match c
    case DoAdmit(id, at) => Admit(db, cfg, id, at)
    case DoClaim(id, target) => (var (db', _) :- Claim(db, cfg, id, target); Done(db'))
    case DoMark(id, owner) => MarkReadStarted(db, cfg, id, owner)
    case DoBlock(id, owner, why) => Block(db, cfg, id, owner, why)
    case DoSettle(id, owner, state, reason, verified) => Settle(db, cfg, id, owner, state, reason, verified)
    case DoFact(owner, fact) => RecordFact(db, owner, fact)
    case DoFreeze(owner, submission) => FreezeSubmission(db, owner, submission)
    case DoObserve(owner, delivery) => Observe(db, owner, delivery)
  }

  /** A refused command rolls back. */
  function Next(db: Db, cfg: Config, c: Command): Db {
    match Apply(db, cfg, c)
    case Done(db') => db'
    case Refused(_) => db
  }

  function Run(db: Db, cfg: Config, commands: seq<Command>): Db
    decreases |commands|
  {
    if commands == [] then db else Run(Next(db, cfg, commands[0]), cfg, commands[1..])
  }

  lemma NextKeepsInv(db: Db, cfg: Config, c: Command)
    requires Inv(db, cfg)
    ensures Inv(Next(db, cfg, c), cfg)
  {
    hide Inv;
    if Apply(db, cfg, c).Done? {
      match c
      case DoAdmit(id, at) => PollSteps.AdmitKeepsInv(db, cfg, id, at);
      case DoClaim(id, target) => PollSteps.ClaimKeepsInv(db, cfg, id, target);
      case DoMark(id, owner) => PollSteps.MarkKeepsInv(db, cfg, id, owner);
      case DoBlock(id, owner, why) => PollSteps.BlockKeepsInv(db, cfg, id, owner, why);
      case DoSettle(id, owner, state, reason, verified) =>
        PollSteps.SettleKeepsInv(db, cfg, id, owner, state, reason, verified);
      case DoFact(owner, fact) => PollSteps.FactKeepsInv(db, cfg, owner, fact);
      case DoFreeze(owner, submission) => PollSteps.FreezeKeepsInv(db, cfg, owner, submission);
      case DoObserve(owner, delivery) => PollSteps.ObserveKeepsInv(db, cfg, owner, delivery);
    }
  }

  lemma {:induction false} RunKeepsInv(db: Db, cfg: Config, commands: seq<Command>)
    requires Inv(db, cfg)
    ensures Inv(Run(db, cfg, commands), cfg)
    decreases |commands|
  {
    hide Inv;
    if commands != [] {
      NextKeepsInv(db, cfg, commands[0]);
      RunKeepsInv(Next(db, cfg, commands[0]), cfg, commands[1..]);
    }
  }

  // --- What only ever grows ----------------------------------------------------------

  predicate OwnershipLater(a: Ownership, b: Ownership) {
    && a.generation <= b.generation
    && (a.generation == b.generation ==> a.claim == b.claim && (a.hold == Released ==> b.hold == Released))
  }

  /** A member row only moves forward: generations never fall, a read that was marked
      or blocked is never un-marked within its generation, and a terminal row is final. */
  predicate MemberLater(a: Member, b: Member) {
    && a.claim == b.claim
    && (a.state == Terminated ==> b == a)
    && (a.generation.Some? ==>
          && b.generation.Some?
          && a.generation.value <= b.generation.value
          && (a.generation == b.generation && a.state != Claimed ==> b.state != Claimed))
  }

  predicate ProgressLater(a: Progress, b: Progress) {
    match a
    case Waiting => b != Coalesced
    case Active => b == Active || b == Complete
    case Coalesced => b == Coalesced
    case Complete => b == Complete
  }

  ghost predicate Later(a: Db, b: Db) {
    && (forall o :: o in a.facts ==> o in b.facts && b.facts[o] == a.facts[o])
    && (forall o :: o in a.submissions ==> o in b.submissions && b.submissions[o] == a.submissions[o])
    && (forall o :: o in a.histories && a.histories[o].failed ==> o in b.histories && b.histories[o].failed)
    && a.terminals <= b.terminals
    && a.recoveries <= b.recoveries
    && a.ticks <= b.ticks
    && (forall k :: k in a.ownership ==> k in b.ownership && OwnershipLater(a.ownership[k], b.ownership[k]))
    && (forall key :: key in a.members ==> key in b.members && MemberLater(a.members[key], b.members[key]))
    && (forall t :: t in a.progress ==> t in b.progress && ProgressLater(a.progress[t], b.progress[t]))
  }

  lemma LaterTransitive(a: Db, b: Db, c: Db)
    requires Later(a, b) && Later(b, c)
    ensures Later(a, c)
  {
    forall key | key in a.members ensures key in c.members && MemberLater(a.members[key], c.members[key]) {
      assert MemberLater(a.members[key], b.members[key]) && MemberLater(b.members[key], c.members[key]);
    }
  }

  lemma NextIsLater(db: Db, cfg: Config, c: Command)
    requires Inv(db, cfg)
    ensures Later(db, Next(db, cfg, c))
  {
    hide Inv, Later, Admit, Claim, MarkReadStarted, Block, Settle, RecordFact, FreezeSubmission, Observe;
    if Apply(db, cfg, c).Refused? {
      LaterReflexive(db);
    } else {
      match c
      case DoAdmit(id, at) => AdmitIsLater(db, cfg, id, at);
      case DoClaim(id, target) => ClaimIsLater(db, cfg, id, target);
      case DoMark(id, owner) => MarkIsLater(db, cfg, id, owner);
      case DoBlock(id, owner, why) => BlockIsLater(db, cfg, id, owner, why);
      case DoSettle(id, owner, state, reason, verified) =>
        SettleIsLater(db, cfg, id, owner, state, reason, verified);
      case DoFact(owner, fact) => FactIsLater(db, owner, fact);
      case DoFreeze(owner, submission) => FreezeIsLater(db, cfg, owner, submission);
      case DoObserve(owner, delivery) => ObserveIsLater(db, owner, delivery);
    }
  }

  lemma FactIsLater(db: Db, owner: Owner, fact: Fact)
    requires RecordFact(db, owner, fact).Done?
    ensures Later(db, RecordFact(db, owner, fact).value)
  {
  }

  lemma FreezeIsLater(db: Db, cfg: Config, owner: Owner, submission: Submission)
    requires Inv(db, cfg) && FreezeSubmission(db, owner, submission).Done?
    ensures Later(db, FreezeSubmission(db, owner, submission).value)
  {
    hide TicksOk, ProgressOk, OrderOk, MembersOk, CompletionOk, HoldsOk, AccountsOk, RecordsUnique, FactsOk,
      TerminalsOk, EvidenceOk;
  }

  lemma ObserveIsLater(db: Db, owner: Owner, delivery: Delivery)
    requires Observe(db, owner, delivery).Done?
    ensures Later(db, Observe(db, owner, delivery).value)
  {
  }

  lemma MarkIsLater(db: Db, cfg: Config, id: TickId, owner: Owner)
    requires MarkReadStarted(db, cfg, id, owner).Done?
    ensures Later(db, MarkReadStarted(db, cfg, id, owner).value)
  {
  }

  lemma AdmitIsLater(db: Db, cfg: Config, id: TickId, at: int)
    requires Inv(db, cfg) && Admit(db, cfg, id, at).Done?
    ensures Later(db, Admit(db, cfg, id, at).value)
  {
    hide TicksOk, ProgressOk, OrderOk, MembersOk, CompletionOk, HoldsOk, AccountsOk, RecordsUnique, FactsOk,
      SubmissionsOk, TerminalsOk, EvidenceOk, ValidateQueue, QueuedMembers;
    if FindTick(db.ticks, id).None? {
      var db' := Admit(db, cfg, id, at).value;
      PollSteps.UnknownTick(db.ticks, db.progress, id);
      PollSteps.AdmitMembers(db.progress, db.members, cfg, db'.ticks[|db.ticks|]);
    }
  }

  lemma LaterByClaim(db: Db, key: (TickId, TargetKey), m: Member, o: Ownership, recovered: set<Recovery>)
    requires key in db.members && MemberLater(db.members[key], m)
    requires key.1 in db.ownership ==> OwnershipLater(db.ownership[key.1], o)
    ensures Later(db, db.(
              ownership := db.ownership[key.1 := o],
              members := db.members[key := m],
              recoveries := db.recoveries + recovered))
  {
  }

  lemma ClaimIsLater(db: Db, cfg: Config, id: TickId, target: TargetKey)
    requires Inv(db, cfg) && Claim(db, cfg, id, target).Done?
    ensures Later(db, Claim(db, cfg, id, target).value.0)
  {
    hide TicksOk, ProgressOk, OrderOk, MembersOk, CompletionOk, HoldsOk, AccountsOk, RecordsUnique, FactsOk,
      SubmissionsOk, TerminalsOk, EvidenceOk, ReadTick, Later;
    PollSteps.RowShape(db, cfg, id, target);
    var db' := Claim(db, cfg, id, target).value.0;
    if db' == db {
      LaterReflexive(db);
    } else {
      LaterByClaim(db, (id, target), db'.members[(id, target)], db'.ownership[target], db'.recoveries - db.recoveries);
      assert db'.recoveries == db.recoveries + (db'.recoveries - db.recoveries);
    }
  }

  lemma BlockIsLater(db: Db, cfg: Config, id: TickId, owner: Owner, why: string)
    requires Inv(db, cfg) && Block(db, cfg, id, owner, why).Done?
    ensures Later(db, Block(db, cfg, id, owner, why).value)
  {
    hide Inv;
  }

  lemma SettleIsLater(
    db: Db, cfg: Config, id: TickId, owner: Owner, state: TerminalState, reason: Option<string>, verified: bool)
    requires Inv(db, cfg) && Settle(db, cfg, id, owner, state, reason, verified).Done?
    ensures Later(db, Settle(db, cfg, id, owner, state, reason, verified).value)
  {
    hide TicksOk, ProgressOk, OrderOk, MembersOk, CompletionOk, HoldsOk, AccountsOk, RecordsUnique, FactsOk,
      SubmissionsOk, TerminalsOk, EvidenceOk;
    PollSteps.FencedRowLive(db, cfg, id, owner);
    PollSteps.LiveTickActive(db.progress, db.members, (id, owner.target));
  }

  lemma {:induction false} RunIsLater(db: Db, cfg: Config, commands: seq<Command>)
    requires Inv(db, cfg)
    ensures Later(db, Run(db, cfg, commands))
    decreases |commands|
  {
    hide Inv, Later;
    if commands == [] {
      LaterReflexive(db);
    } else {
      var db' := Next(db, cfg, commands[0]);
      NextKeepsInv(db, cfg, commands[0]);
      NextIsLater(db, cfg, commands[0]);
      RunIsLater(db', cfg, commands[1..]);
      LaterTransitive(db, db', Run(db', cfg, commands[1..]));
    }
  }

  lemma LaterReflexive(db: Db)
    ensures Later(db, db)
  {
  }

  // --- Fencing, freezing and accounting over runs --------------------------------------

  /** An owner whose claim was recovered past, or settled. */
  predicate Superseded(db: Db, owner: Owner) {
    && owner.target in db.ownership
    && var current := db.ownership[owner.target];
    && (owner.generation < current.generation
        || (owner.generation == current.generation && (current.hold == Released || current.claim != owner.claim)))
  }

  /** Once superseded, an owner can never again mark, block, settle, freeze or observe. */
  lemma SupersededForever(db: Db, cfg: Config, owner: Owner, commands: seq<Command>, c: Command)
    requires Inv(db, cfg) && Superseded(db, owner)
    requires (c.DoMark? || c.DoBlock? || c.DoSettle? || c.DoFact? || c.DoFreeze? || c.DoObserve?) && c.owner == owner
    ensures Superseded(Run(db, cfg, commands), owner)
    ensures Apply(Run(db, cfg, commands), cfg, c) == Refused("stale_ownership")
  {
    hide Inv;
    RunIsLater(db, cfg, commands);
    var later := Run(db, cfg, commands);
    assert OwnershipLater(db.ownership[owner.target], later.ownership[owner.target]);
    assert !Holds(later.ownership, owner);
    assert AssertOwner(later, owner) == Refused("stale_ownership");
  }

  /** Once a source observation is frozen, its member's generation never moves again,
      and the observation is never rewritten. */
  lemma FrozenNeverMoves(db: Db, cfg: Config, o: Owner, commands: seq<Command>)
    requires Inv(db, cfg) && o in db.facts
    ensures var later := Run(db, cfg, commands);
      var key := (o.claim.tick, o.target);
      && o in later.facts && later.facts[o] == db.facts[o]
      && key in later.members
      && later.members[key].claim == o.claim
      && later.members[key].generation == Some(o.generation)
  {
    hide Inv;
    RunKeepsInv(db, cfg, commands);
    RunIsLater(db, cfg, commands);
    FactRow(Run(db, cfg, commands), cfg, o);
  }

  lemma FactRow(db: Db, cfg: Config, o: Owner)
    requires Inv(db, cfg) && o in db.facts
    ensures var key := (o.claim.tick, o.target);
      key in db.members && db.members[key].claim == o.claim && db.members[key].generation == Some(o.generation)
  {
    hide TicksOk, ProgressOk, OrderOk, CompletionOk, AccountsOk, RecordsUnique, SubmissionsOk, EvidenceOk;
    if Holds(db.ownership, o) {
      PollSteps.HeldMember(db, cfg, o);
    } else {
      var t :| t in db.terminals && OwnerOf(t) == o;
      PollSteps.RowShape(db, cfg, t.tick, t.target);
    }
  }

  /** A generation's read is started at most once, whatever happens afterwards. */
  lemma ReadStartedOnce(db: Db, cfg: Config, id: TickId, owner: Owner, commands: seq<Command>)
    requires Inv(db, cfg) && MarkReadStarted(db, cfg, id, owner).Done?
    ensures MarkReadStarted(Run(MarkReadStarted(db, cfg, id, owner).value, cfg, commands), cfg, id, owner).Refused?
  {
    hide Inv;
    var marked := MarkReadStarted(db, cfg, id, owner).value;
    PollSteps.MarkKeepsInv(db, cfg, id, owner);
    RunIsLater(marked, cfg, commands);
    var key := (id, owner.target);
    assert MemberLater(marked.members[key], Run(marked, cfg, commands).members[key]);
  }

  /** Every issued generation of a target is accounted for by exactly one of: one recovery
      record, one terminal record, or the live claim; and nothing beyond the current
      generation is recorded. */
  lemma GenerationsAccounted(db: Db, cfg: Config, k: TargetKey, g: nat)
    requires Inv(db, cfg)
    ensures Issued(db.ownership, k, g) <==>
            RecoveredAt(db.recoveries, k, g) || SettledAt(db.terminals, k, g) || LiveAt(db.ownership, k, g)
    ensures !(RecoveredAt(db.recoveries, k, g) && SettledAt(db.terminals, k, g))
    ensures LiveAt(db.ownership, k, g) ==> !RecoveredAt(db.recoveries, k, g) && !SettledAt(db.terminals, k, g)
    ensures forall r, s :: r in db.recoveries && s in db.recoveries ==>
      r.target == s.target == k && r.generation == s.generation == g ==> r == s
    ensures forall t, u :: t in db.terminals && u in db.terminals ==>
      t.target == u.target == k && t.generation == u.generation == g ==> t == u
  {
    hide TicksOk, ProgressOk, OrderOk, MembersOk, CompletionOk, HoldsOk, FactsOk, SubmissionsOk, TerminalsOk,
      EvidenceOk;
    assert Spent(db.ownership, k, g) <==> RecoveredAt(db.recoveries, k, g) || SettledAt(db.terminals, k, g);
  }

  /** A lost read costs a generation only when nothing had been frozen for it. */
  lemma RecoveredNeverFrozen(db: Db, cfg: Config, r: Recovery, o: Owner)
    requires Inv(db, cfg) && r in db.recoveries
    requires o.target == r.target && o.generation == r.generation
    ensures o !in db.facts
  {
    hide TicksOk, ProgressOk, OrderOk, MembersOk, CompletionOk, HoldsOk, SubmissionsOk, TerminalsOk, EvidenceOk;
    assert RecoveredAt(db.recoveries, r.target, r.generation);
    GenerationsAccounted(db, cfg, r.target, r.generation);
    hide AccountsOk, RecordsUnique, FactsOk;
    if o in db.facts {
      FactUse(db, o);
    }
  }

  lemma FactUse(db: Db, o: Owner)
    requires FactsOk(db.ownership, db.facts, db.terminals) && o in db.facts
    ensures LiveAt(db.ownership, o.target, o.generation) || SettledAt(db.terminals, o.target, o.generation)
  {
  }

  /** Settling completes the tick exactly when it was the last member, and completing it
      makes the waiting tick, if there is one, the active one. */
  lemma LastSettlementPromotes(
    db: Db, cfg: Config, id: TickId, owner: Owner, state: TerminalState, reason: Option<string>, verified: bool)
    requires Inv(db, cfg) && Settle(db, cfg, id, owner, state, reason, verified).Done?
    ensures var after := Settle(db, cfg, id, owner, state, reason, verified).value;
      && id in db.progress && db.progress[id] == Active && id in after.progress
      && (after.progress[id] == Complete <==> TickFinished(after.members, id))
      && (if after.progress[id] == Complete then
            !Has(after.progress, Waiting)
            && forall w :: w in db.progress && db.progress[w] == Waiting ==>
              w in after.progress && after.progress[w] == Active
          else after.progress == db.progress)
  {
    hide TicksOk, ProgressOk, OrderOk, MembersOk, CompletionOk, HoldsOk, AccountsOk, RecordsUnique, FactsOk,
      SubmissionsOk, TerminalsOk, EvidenceOk, SettlementRecord, TickFinished;
    PollSteps.FencedRowLive(db, cfg, id, owner);
    PollSteps.LiveTickActive(db.progress, db.members, (id, owner.target));
  }

  // --- Every run from an empty store -------------------------------------------------------

  lemma EveryRunSound(cfg: Config, commands: seq<Command>)
    requires cfg.Valid()
    ensures Inv(Run(EMPTY, cfg, commands), cfg)
  {
    hide Inv;
    EmptyInv(cfg);
    RunKeepsInv(EMPTY, cfg, commands);
  }

  /** After every run the queue passes its own validation, with the active tick before the
      waiting one and nothing else pending. */
  lemma EveryRunValidates(cfg: Config, commands: seq<Command>)
    requires cfg.Valid()
    ensures var db := Run(EMPTY, cfg, commands);
      && ValidateQueue(db, cfg) == Done(Pending(db.ticks, db.progress))
      && PendingShape(Pending(db.ticks, db.progress))
      && forall t :: t in db.progress ==> ReadReport(db, cfg, t).Done?
  {
    hide Inv, Run, ReadReport, ValidateQueue, Pending;
    EveryRunSound(cfg, commands);
    var db := Run(EMPTY, cfg, commands);
    QueueValidates(db, cfg);
    PendingIsSound(db, cfg);
    forall t | t in db.progress ensures ReadReport(db, cfg, t).Done? {
      ReportReads(db, cfg, t);
    }
  }

  lemma PendingIsSound(db: Db, cfg: Config)
    requires Inv(db, cfg)
    ensures PendingShape(Pending(db.ticks, db.progress))
  {
    hide TicksOk, MembersOk, CompletionOk, HoldsOk, AccountsOk, RecordsUnique, FactsOk, SubmissionsOk, TerminalsOk,
      EvidenceOk;
    PollSteps.PendingIsShaped(db.ticks, db.progress);
  }

  /** After every run each generation a target ever issued is accounted for exactly once. */
  lemma EveryRunAccounts(cfg: Config, commands: seq<Command>, k: TargetKey, g: nat)
    requires cfg.Valid()
    ensures var db := Run(EMPTY, cfg, commands);
      && (Issued(db.ownership, k, g) <==>
            RecoveredAt(db.recoveries, k, g) || SettledAt(db.terminals, k, g) || LiveAt(db.ownership, k, g))
      && !(RecoveredAt(db.recoveries, k, g) && SettledAt(db.terminals, k, g))
      && !(LiveAt(db.ownership, k, g) && (RecoveredAt(db.recoveries, k, g) || SettledAt(db.terminals, k, g)))
  {
    hide Inv, Run, Issued, RecoveredAt, SettledAt, LiveAt;
    EveryRunSound(cfg, commands);
    GenerationsAccounted(Run(EMPTY, cfg, commands), cfg, k, g);
  }

  /** The member of the active tick for this target is claimed, read or blocked. */
  ghost predicate ActiveLive(db: Db, k: TargetKey) {
    exists t :: t in db.progress && db.progress[t] == Active && (t, k) in db.members && Live(db.members[(t, k)])
  }

  /** After every run a target is held exactly while the active tick's member for it is live. */
  lemma EveryRunHolds(cfg: Config, commands: seq<Command>, k: TargetKey)
    requires cfg.Valid()
    ensures var db := Run(EMPTY, cfg, commands);
      (k in db.ownership && db.ownership[k].hold == Held) <==> ActiveLive(db, k)
  {
    hide Run;
    EveryRunSound(cfg, commands);
    var db := Run(EMPTY, cfg, commands);
    hide TicksOk, ProgressOk, OrderOk, MembersOk, AccountsOk, RecordsUnique, FactsOk, SubmissionsOk, TerminalsOk,
      EvidenceOk;
    if k in db.ownership && db.ownership[k].hold == Held {
      var key := (db.ownership[k].claim.tick, k);
      PollSteps.LiveTickActive(db.progress, db.members, key);
      assert db.progress[key.0] == Active;
    }
  }
}
