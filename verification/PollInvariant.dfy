/** The invariant of the poll queue, far stronger than the queue scan the code
    performs. Each part names only the tables it constrains. */
module PollInvariant {
  import opened Outcome
  import opened PollTables

  type Members = map<(TickId, TargetKey), Member>
  type Progresses = map<TickId, Progress>
  type Ownerships = map<TargetKey, Ownership>

  predicate Live(m: Member) {
    m.state == Claimed || m.state == ReadStarted || m.state == Blocked
  }

  predicate AllowedPair(earlier: Progress, later: Progress) {
    && (earlier == Active ==> later == Waiting || later == Coalesced)
    && (earlier == Waiting ==> later == Coalesced)
  }

  /** Ordinals are exactly 1..n and every tick row is well formed. */
  ghost predicate TicksOk(ticks: seq<Tick>, cfg: Config) {
    && (forall i :: 0 <= i < |ticks| ==>
          && ticks[i].ordinal == i + 1
          && ticks[i].binding == cfg.binding
          && ticks[i].disposition != Complete
          && ticks[i].targets == (if ticks[i].disposition == Coalesced then [] else cfg.targets))
    && (forall i, j :: 0 <= i < j < |ticks| ==> ticks[i].id != ticks[j].id)
  }

  ghost predicate ProgressOk(ticks: seq<Tick>, progress: Progresses) {
    && (forall i :: 0 <= i < |ticks| ==>
          && ticks[i].id in progress
          && (ticks[i].disposition == Coalesced <==> progress[ticks[i].id] == Coalesced)
          && !(ticks[i].disposition == Active && progress[ticks[i].id] == Waiting))
    && (forall t :: t in progress ==> exists i :: 0 <= i < |ticks| && ticks[i].id == t)
  }

  ghost predicate Has(progress: Progresses, state: Progress) {
    exists t :: t in progress && progress[t] == state
  }

  /** Completed ticks precede the active one, which precedes the waiting one. */
  ghost predicate OrderOk(ticks: seq<Tick>, progress: Progresses) {
    && (forall i, j :: 0 <= i < j < |ticks| && ticks[i].id in progress && ticks[j].id in progress ==>
          AllowedPair(progress[ticks[i].id], progress[ticks[j].id]))
    && (Has(progress, Waiting) ==> Has(progress, Active))
  }

  ghost predicate MembersOk(progress: Progresses, members: Members, cfg: Config) {
    && (forall t, k :: (t, k) in members <==> t in progress && progress[t] != Coalesced && k in cfg.targets)
    && (forall t, k :: (t, k) in members ==> MemberShape(cfg, t, k, members[(t, k)]))
  }

  /** A tick is complete exactly when all its members are terminal, and only the
      active and completed ticks have members that were ever claimed. */
  ghost predicate CompletionOk(progress: Progresses, members: Members) {
    && (forall key :: key in members && key.0 in progress && progress[key.0] == Complete ==>
          members[key].state == Terminated)
    && (forall t :: t in progress && TickFinished(members, t) ==>
          progress[t] == Complete || progress[t] == Coalesced)
    && (forall key :: key in members && members[key].state != Queued ==>
          key.0 in progress && (progress[key.0] == Active || progress[key.0] == Complete))
  }

  /** Ownership is held exactly for the live members, with their claim and generation. */
  ghost predicate HoldsOk(members: Members, ownership: Ownerships) {
    && (forall key :: key in members && Live(members[key]) ==>
          && members[key].generation.Some?
          && Holds(ownership, Owner(key.1, members[key].claim, members[key].generation.value)))
    && (forall k :: k in ownership && ownership[k].hold == Held ==>
          && var key := (ownership[k].claim.tick, k);
          && key in members
          && Live(members[key])
          && members[key].claim == ownership[k].claim
          && members[key].generation == Some(ownership[k].generation))
  }

  ghost predicate RecoveredAt(recoveries: set<Recovery>, k: TargetKey, g: nat) {
    exists r :: r in recoveries && r.target == k && r.generation == g
  }

  ghost predicate SettledAt(terminals: set<Terminal>, k: TargetKey, g: nat) {
    exists t :: t in terminals && t.target == k && t.generation == g
  }

  predicate LiveAt(ownership: Ownerships, k: TargetKey, g: nat) {
    k in ownership && ownership[k].generation == g && ownership[k].hold == Held
  }

  predicate Issued(ownership: Ownerships, k: TargetKey, g: nat) {
    k in ownership && 1 <= g <= ownership[k].generation
  }

  /** A generation that has been used up: issued, and not the live one. */
  predicate Spent(ownership: Ownerships, k: TargetKey, g: nat) {
    Issued(ownership, k, g) && !LiveAt(ownership, k, g)
  }

  /** Every spent generation has a recovery or a terminal and nothing else has. */
  ghost predicate AccountsOk(ownership: Ownerships, recoveries: set<Recovery>, terminals: set<Terminal>) {
    && (forall k, g :: Spent(ownership, k, g) <==> RecoveredAt(recoveries, k, g) || SettledAt(terminals, k, g))
    && (forall k :: k in ownership ==> ownership[k].generation >= 1)
  }

  /** No generation has two recoveries, two terminals, or one of each. */
  ghost predicate RecordsUnique(recoveries: set<Recovery>, terminals: set<Terminal>) {
    && (forall r, t :: r in recoveries && t in terminals ==> r.target != t.target || r.generation != t.generation)
    && (forall r, s :: r in recoveries && s in recoveries && r.target == s.target && r.generation == s.generation ==>
      r == s)
    && (forall t, u :: t in terminals && u in terminals && t.target == u.target && t.generation == u.generation ==>
      t == u)
  }

  ghost predicate SettledFor(terminals: set<Terminal>, o: Owner) {
    exists t :: t in terminals && OwnerOf(t) == o
  }

  /** A frozen fact belongs to the live claim or to a terminal of its own owner. */
  ghost predicate FactsOk(ownership: Ownerships, facts: map<Owner, Fact>, terminals: set<Terminal>) {
    forall o :: o in facts ==> Holds(ownership, o) || SettledFor(terminals, o)
  }

  ghost predicate SubmissionsOk(
    facts: map<Owner, Fact>, submissions: map<Owner, Submission>, histories: map<Owner, History>)
  {
    && histories.Keys == submissions.Keys
    && forall o :: o in submissions ==>
         && o in facts && facts[o].state == Captured && submissions[o].stages != []
         && o in histories && histories[o].accepted <= |submissions[o].stages|
  }

  /** Terminal rows and terminal members are in bijection. */
  ghost predicate TerminalsOk(members: Members, terminals: set<Terminal>, cfg: Config) {
    && (forall key :: key in members && members[key].state == Terminated ==>
          && members[key].terminal.Some?
          && members[key].terminal.value in terminals
          && (members[key].terminal.value.tick, members[key].terminal.value.target) == key)
    && (forall t :: t in terminals ==>
          && (t.tick, t.target) in members
          && var row := members[(t.tick, t.target)];
          && row.terminal == Some(t)
          && row.claim == t.claim
          && row.generation == Some(t.generation)
          && t.binding == cfg.binding)
  }

  /** Every terminal still passes the reader's verification of its frozen records. */
  ghost predicate EvidenceOk(
    facts: map<Owner, Fact>, submissions: map<Owner, Submission>, histories: map<Owner, History>,
    terminals: set<Terminal>)
  {
    forall t :: t in terminals ==> RecordsVerify(facts, submissions, histories, OwnerOf(t), t)
  }

  ghost predicate Inv(db: Db, cfg: Config) {
    && cfg.Valid()
    && TicksOk(db.ticks, cfg)
    && ProgressOk(db.ticks, db.progress)
    && OrderOk(db.ticks, db.progress)
    && MembersOk(db.progress, db.members, cfg)
    && CompletionOk(db.progress, db.members)
    && HoldsOk(db.members, db.ownership)
    && AccountsOk(db.ownership, db.recoveries, db.terminals)
    && RecordsUnique(db.recoveries, db.terminals)
    && FactsOk(db.ownership, db.facts, db.terminals)
    && SubmissionsOk(db.facts, db.submissions, db.histories)
    && TerminalsOk(db.members, db.terminals, cfg)
    && EvidenceOk(db.facts, db.submissions, db.histories, db.terminals)
  }

  lemma EmptyInv(cfg: Config)
    requires cfg.Valid()
    ensures Inv(EMPTY, cfg)
  {
  }

  // --- Reading a sound queue -------------------------------------------------

  lemma IndexOf(ticks: seq<Tick>, progress: Progresses, t: TickId) returns (i: nat)
    requires ProgressOk(ticks, progress) && t in progress
    ensures i < |ticks| && ticks[i].id == t
  {
    i :| 0 <= i < |ticks| && ticks[i].id == t;
  }

  lemma TickRow(ticks: seq<Tick>, progress: Progresses, cfg: Config, i: nat)
    requires TicksOk(ticks, cfg) && ProgressOk(ticks, progress) && i < |ticks|
    ensures ticks[i].id in progress
    ensures ticks[i].binding == cfg.binding && ticks[i].disposition != Complete
    ensures ticks[i].targets == if ticks[i].disposition == Coalesced then [] else cfg.targets
    ensures ticks[i].disposition == Coalesced <==> progress[ticks[i].id] == Coalesced
    ensures !(ticks[i].disposition == Active && progress[ticks[i].id] == Waiting)
  {
  }

  lemma TickReads(db: Db, cfg: Config, id: TickId)
    requires TicksOk(db.ticks, cfg) && ProgressOk(db.ticks, db.progress)
    ensures ReadTick(db, cfg, id).Done? <==> id in db.progress
    ensures id in db.progress ==>
      && ReadTick(db, cfg, id).value.1 == db.progress[id]
      && ReadTick(db, cfg, id).value.0.targets == (if db.progress[id] == Coalesced then [] else cfg.targets)
    ensures id !in db.progress ==> ReadTick(db, cfg, id) == Refused("unknown_poll_tick")
  {
    hide TicksOk, ProgressOk;
    var found := FindTick(db.ticks, id);
    if id in db.progress {
      var i := IndexOf(db.ticks, db.progress, id);
    }
    if found.Some? {
      TickRow(db.ticks, db.progress, cfg, found.value);
    }
  }

  lemma MemberReads(db: Db, cfg: Config, id: TickId, target: TargetKey)
    requires TicksOk(db.ticks, cfg) && ProgressOk(db.ticks, db.progress) && MembersOk(db.progress, db.members, cfg)
    ensures ReadMember(db, cfg, id, target).Done? <==> (id, target) in db.members
  {
    TickReads(db, cfg, id);
    if (id, target) in db.members {
      assert MemberShape(cfg, id, target, db.members[(id, target)]);
    }
  }
}
