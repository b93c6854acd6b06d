/** The runner of one approved target: claim, read the source once, freeze, deliver,
    settle or block. The source, the planner and the collector are outside answers. */
module PollRunner {
  import opened Outcome
  import opened PollTables
  import opened PollInvariant
  import opened PollStores
  import PollRuns

  /** What the outside world answers during one attempt. */
  datatype World = World(
    source: Outcome<Fact>,
    plan: Outcome<Submission>,
    deliveries: seq<Delivery>,
    domainVerified: bool)

  datatype Attempt = NotClaimed(reason: string) | Worked(owner: Owner, acquired: bool)

  /** The member is live under exactly this owner, so the owner may still block or settle. */
  ghost predicate Fenced(db: Db, id: TickId, owner: Owner) {
    && Holds(db.ownership, owner)
    && (id, owner.target) in db.members
    && var row := db.members[(id, owner.target)];
      Live(row) && row.claim == owner.claim && row.generation == Some(owner.generation)
  }

  lemma ClaimFences(db: Db, cfg: Config, id: TickId, target: TargetKey)
    requires PollTables.Claim(db, cfg, id, target).Done?
    ensures var (db', owner) := PollTables.Claim(db, cfg, id, target).value;
      && owner.target == target
      && Fenced(db', id, owner)
      && (owner !in db.facts ==> db'.members[(id, target)].state == Claimed)
      && db'.facts == db.facts && db'.submissions == db.submissions && db'.histories == db.histories
  {
    hide ReadTick;
  }

  lemma FencedBlocks(db: Db, cfg: Config, id: TickId, owner: Owner, why: string)
    requires Inv(db, cfg) && Fenced(db, id, owner)
    ensures var r := Block(db, cfg, id, owner, why);
      && r.Done? && Fenced(r.value, id, owner)
      && r.value.members[(id, owner.target)].state == MemberState.Blocked
      && r.value == db.(members := r.value.members)
  {
    hide TicksOk, ProgressOk, OrderOk, MembersOk, CompletionOk, HoldsOk, AccountsOk, RecordsUnique, FactsOk,
      SubmissionsOk, TerminalsOk, EvidenceOk, ReadMember;
    MemberReads(db, cfg, id, owner.target);
  }

  lemma MarkFences(db: Db, cfg: Config, id: TickId, owner: Owner)
    requires Inv(db, cfg) && Fenced(db, id, owner) && db.members[(id, owner.target)].state == Claimed
    ensures var r := PollTables.MarkReadStarted(db, cfg, id, owner);
      r.Done? && Fenced(r.value, id, owner) && r.value == db.(members := r.value.members)
  {
    hide OrderOk, CompletionOk, HoldsOk, AccountsOk, RecordsUnique, FactsOk, SubmissionsOk, TerminalsOk, EvidenceOk;
    MemberReads(db, cfg, id, owner.target);
  }

  lemma SettleEnds(
    db: Db, cfg: Config, id: TickId, owner: Owner, state: TerminalState, reason: Option<string>, verified: bool)
    requires PollTables.Settle(db, cfg, id, owner, state, reason, verified).Done?
    ensures var db' := PollTables.Settle(db, cfg, id, owner, state, reason, verified).value;
      && (id, owner.target) in db'.members
      && db'.members[(id, owner.target)].state == Terminated
      && db'.members[(id, owner.target)].generation == Some(owner.generation)
      && db'.facts == db.facts && db'.submissions == db.submissions && db'.histories == db.histories
  {
    hide ReadTick;
  }

  /** Whatever happens, the attempt ends with the member settled or blocked. */
  ghost predicate Parked(db: Db, id: TickId, owner: Owner) {
    && (id, owner.target) in db.members
    && var row := db.members[(id, owner.target)];
    && row.generation == Some(owner.generation)
    && (row.state == Terminated || row.state == MemberState.Blocked)
  }

  /** What the answers leave of a history of `total` stages: each acceptance advances by
      one stage, and a rejection, an uncertain answer or the last stage ends the delivery. */
  function Delivering(history: History, total: nat, deliveries: seq<Delivery>): History
    decreases |deliveries|
  {
    if deliveries == [] || history.failed || history.accepted >= total then history
    else
      match deliveries[0]
      case Accepted => Delivering(history.(accepted := history.accepted + 1), total, deliveries[1..])
      case Rejected => history.(failed := true)
      case Inconclusive => history
  }

  /** A delivery accepts every remaining stage exactly when its first answers, as many as
      are missing, are all acceptances. */
  lemma {:induction false} DeliveringCompletes(history: History, total: nat, deliveries: seq<Delivery>)
    requires !history.failed && history.accepted <= total
    ensures var after := Delivering(history, total, deliveries);
      && history.accepted <= after.accepted <= total
      && (after == History(total, false) <==>
            var missing := total - history.accepted;
            missing <= |deliveries| && forall i :: 0 <= i < missing ==> deliveries[i] == Accepted)
    decreases |deliveries|
  {
    if deliveries != [] && history.accepted < total && deliveries[0] == Accepted {
      DeliveringCompletes(history.(accepted := history.accepted + 1), total, deliveries[1..]);
      forall i | 1 <= i < |deliveries| ensures deliveries[i] == deliveries[1..][i - 1] {
      }
    }
  }

  /** Delivers the frozen stages in order until all are accepted, one is rejected, or
      an answer is uncertain. */
  method Resume(store: PollStore, id: TickId, owner: Owner, deliveries: seq<Delivery>) returns (complete: bool)
    requires store.Valid() && Fenced(store.State(), id, owner)
    requires owner in store.submissions && owner in store.histories
    modifies store`histories
    ensures store.Valid() && Fenced(store.State(), id, owner)
    ensures complete <==> Delivered(store.submissions, store.histories, owner)
    ensures store.histories == old(store.histories)[owner :=
              Delivering(old(store.histories[owner]), |store.submissions[owner].stages|, deliveries)]
  {
    hide Inv, Fenced;
    ghost var target := Delivering(store.histories[owner], |store.submissions[owner].stages|, deliveries);
    FencedHolds(store.State(), id, owner);
    StagesPresent(store.State(), store.config, owner);
    var stages := store.submissions[owner].stages;
    var i := 0;
    while i < |deliveries| && !store.histories[owner].failed && store.histories[owner].accepted < |stages|
      invariant i <= |deliveries|
      invariant store.Valid() && Fenced(store.State(), id, owner)
      invariant owner in store.histories
      invariant store.histories == old(store.histories)[owner := store.histories[owner]]
      invariant Delivering(store.histories[owner], |stages|, deliveries[i..]) == target
    {
      ghost var db := store.State();
      FencedHolds(db, id, owner);
      var refusal := store.Observe(owner, deliveries[i]);
      FencedFrame(db, store.State(), id, owner);
      assert deliveries[i..][1..] == deliveries[i + 1..];
      if deliveries[i] == Inconclusive {
        break;
      }
      i := i + 1;
    }
    complete := !store.histories[owner].failed && store.histories[owner].accepted == |stages|;
  }

  lemma FencedHolds(db: Db, id: TickId, owner: Owner)
    requires Fenced(db, id, owner)
    ensures Holds(db.ownership, owner)
  {
  }

  lemma FencedFrame(a: Db, b: Db, id: TickId, owner: Owner)
    requires Fenced(a, id, owner) && b.ownership == a.ownership && b.members == a.members
    ensures Fenced(b, id, owner)
  {
  }

  lemma StagesPresent(db: Db, cfg: Config, owner: Owner)
    requires Inv(db, cfg) && owner in db.submissions
    ensures db.submissions[owner].stages != []
  {
  }

  /** The member is parked by blocking it under its owner, which a live owner always may. */
  method Park(store: PollStore, id: TickId, owner: Owner, why: string)
    requires store.Valid() && Fenced(store.State(), id, owner)
    modifies store`members
    ensures store.Valid() && Parked(store.State(), id, owner)
    ensures store.members[(id, owner.target)].state == MemberState.Blocked
  {
    hide Inv;
    FencedBlocks(store.State(), store.config, id, owner, why);
    var refusal := store.Blocked(id, owner, why);
  }

  /** A settlement in this state is admitted: the observation was made under the pinned
      configuration and the frozen records call for exactly this end. */
  predicate Settleable(
    db: Db, cfg: Config, owner: Owner, state: TerminalState, reason: Option<string>, domainVerified: bool)
  {
    && owner in db.facts
    && db.facts[owner].configBinding == cfg.connectionBinding
    && db.facts[owner].selection == cfg.selection
    && db.facts[owner].connection == cfg.connection
    && match state
       case Completed =>
         Delivered(db.submissions, db.histories, owner) && domainVerified && reason == None
       case InputsUnchanged =>
         db.facts[owner].state == Unchanged && owner !in db.submissions && reason == Some("scoring_inputs_unchanged")
       case RefusedWork =>
         && db.facts[owner].state == Captured && owner !in db.submissions
         && reason.Some? && reason.value in ALLOWED_REASONS
  }

  lemma FencedSettles(
    db: Db, cfg: Config, id: TickId, owner: Owner, state: TerminalState, reason: Option<string>, verified: bool)
    requires Inv(db, cfg) && Fenced(db, id, owner)
    ensures PollTables.Settle(db, cfg, id, owner, state, reason, verified).Done?
       <==> Settleable(db, cfg, owner, state, reason, verified)
    ensures PollTables.Settle(db, cfg, id, owner, state, reason, verified).Done? ==>
      var after := PollTables.Settle(db, cfg, id, owner, state, reason, verified).value;
      && (id, owner.target) in after.members
      && after.members[(id, owner.target)].terminal.Some?
      && after.members[(id, owner.target)].terminal.value.state == state
  {
    hide AccountsOk, RecordsUnique, FactsOk, SubmissionsOk, EvidenceOk, TerminalsOk, OrderOk, CompletionOk, HoldsOk;
    MemberReads(db, cfg, id, owner.target);
  }

  /** The end the frozen records call for, if they call for one. */
  function Ending(db: Db, owner: Owner, plan: Outcome<Submission>): (TerminalState, Option<string>) {
    if owner in db.facts && db.facts[owner].state == Unchanged then (InputsUnchanged, Some("scoring_inputs_unchanged"))
    else if owner !in db.submissions && plan.Refused? then (RefusedWork, Some(plan.reason))
    else (Completed, None)
  }

  /** How an attempt leaves its member: settled in the state its frozen records call for
      exactly when that settlement is admitted, and blocked otherwise. */
  ghost predicate EndsAs(db: Db, cfg: Config, id: TickId, owner: Owner, plan: Outcome<Submission>, verified: bool) {
    && Parked(db, id, owner)
    && var (state, reason) := Ending(db, owner, plan);
    && var row := db.members[(id, owner.target)];
    && (row.state == Terminated <==> Settleable(db, cfg, owner, state, reason, verified))
    && (row.state == Terminated ==> row.terminal.Some? && row.terminal.value.state == state)
  }

  /** Settles, or parks the member when the settlement is refused. */
  method SettleOrPark(
    store: PollStore, id: TickId, owner: Owner, state: TerminalState, reason: Option<string>, domainVerified: bool)
    requires store.Valid() && Fenced(store.State(), id, owner)
    modifies store
    ensures store.Valid() && Parked(store.State(), id, owner)
    ensures store.facts == old(store.facts) && store.submissions == old(store.submissions)
    ensures store.histories == old(store.histories)
    ensures var row := store.members[(id, owner.target)];
      && (row.state == Terminated <==>
        Settleable(old(store.State()), store.config, owner, state, reason, domainVerified))
      && (row.state == Terminated ==> row.terminal.Some? && row.terminal.value.state == state)
  {
    hide Inv, Fenced, PollTables.Settle;
    ghost var db := store.State();
    FencedSettles(db, store.config, id, owner, state, reason, domainVerified);
    var refusal := store.Settle(id, owner, state, reason, domainVerified);
    if refusal.Some? {
      Park(store, id, owner, refusal.value);
    } else {
      SettleEnds(db, store.config, id, owner, state, reason, domainVerified);
      SettledIsParked(store.State(), id, owner);
    }
  }

  lemma SettledIsParked(db: Db, id: TickId, owner: Owner)
    requires (id, owner.target) in db.members
    requires db.members[(id, owner.target)].state == Terminated
    requires db.members[(id, owner.target)].generation == Some(owner.generation)
    ensures Parked(db, id, owner)
  {
  }

  /** The frozen records an attempt leaves: each is written at most once, for the claimed
      owner only, and only from what the outside answered. */
  function FactsAfter(facts: map<Owner, Fact>, owner: Owner, source: Outcome<Fact>): map<Owner, Fact> {
    if owner !in facts && source.Done? then facts[owner := source.value] else facts
  }

  function SubmissionsAfter(
    facts: map<Owner, Fact>, submissions: map<Owner, Submission>, owner: Owner, plan: Outcome<Submission>)
    : map<Owner, Submission>
  {
    if owner in facts && facts[owner].state == Captured && owner !in submissions && plan.Done?
      && plan.value.stages != []
    then submissions[owner := plan.value]
    else submissions
  }

  function HistoriesAfter(
    submissions: map<Owner, Submission>, histories: map<Owner, History>, owner: Owner, deliveries: seq<Delivery>)
    : map<Owner, History>
  {
    if owner !in submissions then histories
    else
      var begun := if owner in histories then histories[owner] else History(0, false);
      histories[owner := Delivering(begun, |submissions[owner].stages|, deliveries)]
  }

  /** One attempt at one target. The source is acquired exactly when the claimed owner has
      no frozen observation; a frozen plan is delivered as it is, whatever the planner would
      answer now; and the member ends settled exactly when its frozen records allow it. */
  method CaptureAndSubmit(store: PollStore, id: TickId, target: TargetKey, world: World) returns (attempt: Attempt)
    requires store.Valid()
    modifies store
    ensures store.Valid()
    ensures match PollTables.Claim(old(store.State()), store.config, id, target)
      case Refused(why) =>
        && attempt == NotClaimed(if target in store.config.targets then why else "target_not_allowlisted")
        && store.State() == old(store.State())
      case Done((_, owner)) =>
        && attempt == Worked(owner, owner !in old(store.facts))
        && EndsAs(store.State(), store.config, id, owner, world.plan, world.domainVerified)
        && store.facts == FactsAfter(old(store.facts), owner, world.source)
        && store.submissions == SubmissionsAfter(store.facts, old(store.submissions), owner, world.plan)
        && store.histories == HistoriesAfter(store.submissions, old(store.histories), owner, world.deliveries)
  {
    hide Inv, Fenced, PollTables.Claim, EndsAs, FactsAfter, SubmissionsAfter, HistoriesAfter;
    ghost var db := store.State();
    if target !in store.config.targets {
      OnlyAllowlisted(db, store.config, id, target);
      return NotClaimed("target_not_allowlisted");
    }
    var claimed := store.Claim(id, target);
    if claimed.Refused? {
      return NotClaimed(claimed.reason);
    }
    var owner := claimed.value;
    ClaimFences(db, store.config, id, target);
    attempt := Worked(owner, owner !in store.facts);
    Work(store, id, owner, world);
  }

  /** The claimed owner's work: the read it still owes, then the end its records call for. */
  method Work(store: PollStore, id: TickId, owner: Owner, world: World)
    requires store.Valid() && Fenced(store.State(), id, owner)
    requires owner !in store.facts ==> store.members[(id, owner.target)].state == Claimed
    modifies store
    ensures store.Valid()
    ensures EndsAs(store.State(), store.config, id, owner, world.plan, world.domainVerified)
    ensures store.facts == FactsAfter(old(store.facts), owner, world.source)
    ensures store.submissions == SubmissionsAfter(store.facts, old(store.submissions), owner, world.plan)
    ensures store.histories == HistoriesAfter(store.submissions, old(store.histories), owner, world.deliveries)
  {
    hide Inv, Fenced, Parked, Delivered, Delivering;
    FrozenTogether(store.State(), store.config, owner);
    if owner !in store.facts {
      var refusal := Acquire(store, id, owner, world.source);
      if refusal.Some? {
        Park(store, id, owner, refusal.value);
        return;
      }
    }
    FrozenTogether(store.State(), store.config, owner);
    if store.facts[owner].state == Unchanged {
      SettleOrPark(store, id, owner, InputsUnchanged, Some("scoring_inputs_unchanged"), world.domainVerified);
    } else {
      PlanAndSubmit(store, id, owner, world);
    }
  }

  /** A captured observation: frozen into a plan unless one is frozen already, and delivered. */
  method PlanAndSubmit(store: PollStore, id: TickId, owner: Owner, world: World)
    requires store.Valid() && Fenced(store.State(), id, owner)
    requires owner in store.facts && store.facts[owner].state == Captured
    modifies store
    ensures store.Valid() && store.facts == old(store.facts)
    ensures EndsAs(store.State(), store.config, id, owner, world.plan, world.domainVerified)
    ensures store.submissions == SubmissionsAfter(store.facts, old(store.submissions), owner, world.plan)
    ensures store.histories == HistoriesAfter(store.submissions, old(store.histories), owner, world.deliveries)
  {
    hide Inv, Fenced, Parked, Delivering;
    FrozenTogether(store.State(), store.config, owner);
    if owner !in store.submissions {
      if world.plan.Refused? {
        if world.plan.reason in ALLOWED_REASONS {
          SettleOrPark(store, id, owner, RefusedWork, Some(world.plan.reason), world.domainVerified);
        } else {
          Park(store, id, owner, world.plan.reason);
        }
        return;
      }
      var refusal := Freeze(store, id, owner, world.plan.value);
      if refusal.Some? {
        Park(store, id, owner, refusal.value);
        return;
      }
    }
    var complete := Resume(store, id, owner, world.deliveries);
    if complete {
      SettleOrPark(store, id, owner, Completed, None, world.domainVerified);
    } else {
      Park(store, id, owner, "submission_incomplete");
    }
  }

  /** Marks the read as started, reads the source, and freezes what it answered. */
  method Acquire(store: PollStore, id: TickId, owner: Owner, source: Outcome<Fact>) returns (refusal: Option<string>)
    requires store.Valid() && Fenced(store.State(), id, owner) && owner !in store.facts
    requires store.members[(id, owner.target)].state == Claimed
    modifies store`members, store`facts
    ensures store.Valid() && Fenced(store.State(), id, owner)
    ensures store.facts == FactsAfter(old(store.facts), owner, source)
    ensures refusal.None? <==> source.Done?
  {
    hide Inv, PollTables.MarkReadStarted;
    ghost var db := store.State();
    MarkFences(db, store.config, id, owner);
    refusal := store.MarkReadStarted(id, owner);
    if refusal.Some? {
      return;
    }
    if source.Refused? {
      return Some(source.reason);
    }
    refusal := store.RecordFact(owner, source.value);
  }

  method Freeze(store: PollStore, id: TickId, owner: Owner, plan: Submission) returns (refusal: Option<string>)
    requires store.Valid() && Fenced(store.State(), id, owner) && owner !in store.submissions
    requires owner in store.facts && store.facts[owner].state == Captured
    modifies store`submissions, store`histories
    ensures store.Valid() && Fenced(store.State(), id, owner)
    ensures refusal.Some? <==> plan.stages == []
    ensures refusal.Some? ==> store.State() == old(store.State())
    ensures refusal.None? ==>
      && store.submissions == old(store.submissions)[owner := plan]
      && store.histories == old(store.histories)[owner := History(0, false)]
  {
    hide Inv;
    refusal := store.FreezeSubmission(owner, plan);
  }

  lemma OnlyAllowlisted(db: Db, cfg: Config, id: TickId, target: TargetKey)
    requires Inv(db, cfg) && target !in cfg.targets
    ensures PollTables.Claim(db, cfg, id, target).Refused?
  {
    hide ProgressOk, OrderOk, CompletionOk, HoldsOk, AccountsOk, RecordsUnique, FactsOk, SubmissionsOk, TerminalsOk,
      EvidenceOk;
  }

  /** A plan has a history, and is only ever frozen over a captured observation. */
  lemma FrozenTogether(db: Db, cfg: Config, owner: Owner)
    requires Inv(db, cfg)
    ensures owner in db.submissions <==> owner in db.histories
    ensures owner in db.submissions ==>
      owner in db.facts && db.facts[owner].state == Captured && db.submissions[owner].stages != []
  {
    hide TicksOk, ProgressOk, OrderOk, MembersOk, CompletionOk, HoldsOk, AccountsOk, RecordsUnique, FactsOk,
      TerminalsOk, EvidenceOk;
  }

  /** Frozen work resumes without a second read: once an observation is frozen for an
      owner, every later claim of that member, after any run of the queue, answers that
      same owner, so the runner finds the observation and never acquires the source again. */
  lemma FrozenWorkIsResumed(db: Db, cfg: Config, o: Owner, commands: seq<PollRuns.Command>)
    requires Inv(db, cfg) && o in db.facts
    ensures var later := PollRuns.Run(db, cfg, commands);
      var r := PollTables.Claim(later, cfg, o.claim.tick, o.target);
      && o in later.facts && later.facts[o] == db.facts[o]
      && (r.Done? ==> r.value.1 == o && r.value.0 == later)
  {
    hide Inv, ReadTick;
    PollRuns.FrozenNeverMoves(db, cfg, o, commands);
  }
}
