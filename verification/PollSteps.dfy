/** Every queue operation keeps the invariant, table by table. */
module PollSteps {
  import opened Outcome
  import opened PollTables
  import opened PollInvariant

  lemma RowShape(db: Db, cfg: Config, id: TickId, target: TargetKey)
    requires MembersOk(db.progress, db.members, cfg)
    requires (id, target) in db.members
    ensures MemberShape(cfg, id, target, db.members[(id, target)])
  {
  }

  // --- A member row changes ----------------------------------------------------

  lemma MemberRowChange(progress: Progresses, members: Members, cfg: Config, key: (TickId, TargetKey), m: Member)
    requires MembersOk(progress, members, cfg)
    requires key in members && MemberShape(cfg, key.0, key.1, m)
    ensures MembersOk(progress, members[key := m], cfg)
  {
    assert (key.0, key.1) == key;
  }

  lemma CompletionOpen(progress: Progresses, members: Members, key: (TickId, TargetKey), m: Member)
    requires CompletionOk(progress, members)
    requires key in members && members[key].state != Terminated && m.state != Terminated
    requires key.0 in progress && progress[key.0] == Active
    ensures CompletionOk(progress, members[key := m])
  {
    var members' := members[key := m];
    forall t | t in progress && TickFinished(members', t)
      ensures progress[t] == Complete || progress[t] == Coalesced
    {
      assert members'[key].state != Terminated;
      assert t != key.0;
      forall k | k in members && k.0 == t ensures members[k].state == Terminated {
        assert members'[k] == members[k];
      }
    }
  }

  /** A live member's tick is the active one. */
  lemma LiveTickActive(progress: Progresses, members: Members, key: (TickId, TargetKey))
    requires CompletionOk(progress, members)
    requires key in members && Live(members[key])
    ensures key.0 in progress && progress[key.0] == Active
  {
  }

  lemma TerminalsOpen(members: Members, terminals: set<Terminal>, cfg: Config, key: (TickId, TargetKey), m: Member)
    requires TerminalsOk(members, terminals, cfg)
    requires key in members && members[key].terminal == None && m.state != Terminated
    ensures TerminalsOk(members[key := m], terminals, cfg)
  {
  }

  lemma HoldsLive(members: Members, ownership: Ownerships, key: (TickId, TargetKey), m: Member)
    requires HoldsOk(members, ownership)
    requires key in members && Live(members[key]) && Live(m)
    requires m.claim == members[key].claim && m.generation == members[key].generation
    ensures HoldsOk(members[key := m], ownership)
  {
  }

  /** The owner of a held target names the one live member it can be fenced against. */
  lemma HeldMember(db: Db, cfg: Config, owner: Owner)
    requires MembersOk(db.progress, db.members, cfg) && HoldsOk(db.members, db.ownership)
    requires Holds(db.ownership, owner)
    ensures var key := (owner.claim.tick, owner.target);
      key in db.members && Live(db.members[key]) && db.members[key].claim == owner.claim
      && db.members[key].generation == Some(owner.generation)
      && owner.claim == ClaimOf(cfg, owner.claim.tick, owner.target)
  {
    var key := (owner.claim.tick, owner.target);
    assert key in db.members;
    RowShape(db, cfg, key.0, key.1);
  }

  lemma LiveHolds(members: Members, ownership: Ownerships, key: (TickId, TargetKey))
    requires HoldsOk(members, ownership)
    requires key in members && Live(members[key])
    ensures members[key].generation.Some?
    ensures Holds(ownership, Owner(key.1, members[key].claim, members[key].generation.value))
  {
  }

  lemma LiveRowKeepsInv(db: Db, cfg: Config, key: (TickId, TargetKey), m: Member)
    requires Inv(db, cfg)
    requires key in db.members && Live(db.members[key]) && Live(m)
    requires m.claim == db.members[key].claim && m.generation == db.members[key].generation
    requires m.terminal == db.members[key].terminal
    ensures Inv(db.(members := db.members[key := m]), cfg)
  {
    hide TicksOk, ProgressOk, OrderOk, MembersOk, CompletionOk, HoldsOk, AccountsOk, RecordsUnique, FactsOk,
      SubmissionsOk, TerminalsOk, EvidenceOk;
    RowShape(db, cfg, key.0, key.1);
    LiveTickActive(db.progress, db.members, key);
    MemberRowChange(db.progress, db.members, cfg, key, m);
    CompletionOpen(db.progress, db.members, key, m);
    HoldsLive(db.members, db.ownership, key, m);
    TerminalsOpen(db.members, db.terminals, cfg, key, m);
  }

  /** A row that matches the current holder is the live row of that holder. */
  lemma FencedRowLive(db: Db, cfg: Config, id: TickId, owner: Owner)
    requires Inv(db, cfg) && Holds(db.ownership, owner)
    requires (id, owner.target) in db.members
    requires db.members[(id, owner.target)].claim == owner.claim
    ensures id == owner.claim.tick && Live(db.members[(id, owner.target)])
  {
    hide TicksOk, ProgressOk, OrderOk, MembersOk, CompletionOk, HoldsOk, AccountsOk, RecordsUnique, FactsOk,
      SubmissionsOk, TerminalsOk, EvidenceOk;
    RowShape(db, cfg, id, owner.target);
    HeldMember(db, cfg, owner);
  }

  lemma MarkKeepsInv(db: Db, cfg: Config, id: TickId, owner: Owner)
    requires Inv(db, cfg) && MarkReadStarted(db, cfg, id, owner).Done?
    ensures Inv(MarkReadStarted(db, cfg, id, owner).value, cfg)
  {
    hide TicksOk, ProgressOk, OrderOk, MembersOk, CompletionOk, HoldsOk, AccountsOk, RecordsUnique, FactsOk,
      SubmissionsOk, TerminalsOk, EvidenceOk;
    var key := (id, owner.target);
    LiveRowKeepsInv(db, cfg, key, db.members[key].(state := ReadStarted));
  }

  lemma BlockKeepsInv(db: Db, cfg: Config, id: TickId, owner: Owner, reason: string)
    requires Inv(db, cfg) && Block(db, cfg, id, owner, reason).Done?
    ensures Inv(Block(db, cfg, id, owner, reason).value, cfg)
  {
    hide TicksOk, ProgressOk, OrderOk, MembersOk, CompletionOk, HoldsOk, AccountsOk, RecordsUnique, FactsOk,
      SubmissionsOk, TerminalsOk, EvidenceOk;
    var key := (id, owner.target);
    FencedRowLive(db, cfg, id, owner);
    LiveRowKeepsInv(db, cfg, key, db.members[key].(state := Blocked, reason := Some(reason)));
  }

  // --- Claiming ------------------------------------------------------------------

  lemma HoldsClaim(members: Members, ownership: Ownerships, key: (TickId, TargetKey), m: Member, g: nat)
    requires HoldsOk(members, ownership)
    requires key in members && !Live(members[key])
    requires key.1 in ownership ==> ownership[key.1].hold != Held
    requires Live(m) && m.generation == Some(g) && m.claim.tick == key.0
    ensures HoldsOk(members[key := m], ownership[key.1 := Ownership(m.claim, g, Held)])
  {
    var ownership' := ownership[key.1 := Ownership(m.claim, g, Held)];
    var members' := members[key := m];
    forall k | k in members' && Live(members'[k])
      ensures members'[k].generation.Some?
      ensures Holds(ownership', Owner(k.1, members'[k].claim, members'[k].generation.value))
    {
      if k != key {
        assert Holds(ownership, Owner(k.1, members[k].claim, members[k].generation.value));
      }
    }
  }

  lemma AccountsClaim(
    ownership: Ownerships, recoveries: set<Recovery>, terminals: set<Terminal>, k: TargetKey, claim: ClaimId, g: nat)
    requires AccountsOk(ownership, recoveries, terminals)
    requires if k in ownership then ownership[k].hold != Held && g == ownership[k].generation + 1 else g == 1
    ensures AccountsOk(ownership[k := Ownership(claim, g, Held)], recoveries, terminals)
  {
    var ownership' := ownership[k := Ownership(claim, g, Held)];
    forall k', g' ensures Spent(ownership', k', g') <==> Spent(ownership, k', g') {
    }
  }

  lemma FactsClaim(
    ownership: Ownerships, facts: map<Owner, Fact>, terminals: set<Terminal>, k: TargetKey, o: Ownership)
    requires FactsOk(ownership, facts, terminals)
    requires k in ownership && ownership[k].hold == Held ==>
               Owner(k, ownership[k].claim, ownership[k].generation) !in facts
    ensures FactsOk(ownership[k := o], facts, terminals)
  {
    var ownership' := ownership[k := o];
    forall f | f in facts ensures Holds(ownership', f) || SettledFor(terminals, f) {
      assert Holds(ownership, f) || SettledFor(terminals, f);
    }
  }

  /** With only the queue changing ownership, a queued member of the active tick
      never finds its target busy. */
  lemma TargetNeverBusy(db: Db, cfg: Config, id: TickId, target: TargetKey)
    requires Inv(db, cfg)
    requires id in db.progress && db.progress[id] == Active
    requires (id, target) in db.members && db.members[(id, target)].state == Queued
    ensures target !in db.ownership || db.ownership[target].hold != Held
  {
    hide TicksOk, ProgressOk, OrderOk, MembersOk, AccountsOk, RecordsUnique, FactsOk, SubmissionsOk, TerminalsOk,
      EvidenceOk;
    if target in db.ownership && db.ownership[target].hold == Held {
      var key := (db.ownership[target].claim.tick, target);
      LiveTickActive(db.progress, db.members, key);
      OneActive(db, cfg, key.0, id);
    }
  }

  lemma PairAllowed(ticks: seq<Tick>, progress: Progresses, i: nat, j: nat)
    requires OrderOk(ticks, progress)
    requires i < j < |ticks| && ticks[i].id in progress && ticks[j].id in progress
    ensures AllowedPair(progress[ticks[i].id], progress[ticks[j].id])
  {
  }

  /** At most one tick is active. */
  lemma OneActive(db: Db, cfg: Config, a: TickId, b: TickId)
    requires ProgressOk(db.ticks, db.progress) && OrderOk(db.ticks, db.progress)
    requires a in db.progress && b in db.progress && db.progress[a] == Active && db.progress[b] == Active
    ensures a == b
  {
    var i := IndexOf(db.ticks, db.progress, a);
    var j := IndexOf(db.ticks, db.progress, b);
    hide ProgressOk, OrderOk;
    if i < j {
      PairAllowed(db.ticks, db.progress, i, j);
    } else if j < i {
      PairAllowed(db.ticks, db.progress, j, i);
    }
  }

  lemma ClaimKeepsInv(db: Db, cfg: Config, id: TickId, target: TargetKey)
    requires Inv(db, cfg) && Claim(db, cfg, id, target).Done?
    ensures Inv(Claim(db, cfg, id, target).value.0, cfg)
  {
    hide TicksOk, ProgressOk, OrderOk, MembersOk, CompletionOk, HoldsOk, AccountsOk, RecordsUnique, FactsOk,
      SubmissionsOk, TerminalsOk, EvidenceOk;
    var (db', owner) := Claim(db, cfg, id, target).value;
    var key := (id, target);
    var member := db.members[key];
    TickReads(db, cfg, id);
    RowShape(db, cfg, id, target);
    if member.state == Queued {
      FirstClaimKeepsInv(db, cfg, key, owner.generation);
    } else if db' != db {
      RecoverKeepsInv(db, cfg, key);
    }
  }

  lemma FirstClaimKeepsInv(db: Db, cfg: Config, key: (TickId, TargetKey), g: nat)
    requires Inv(db, cfg)
    requires key in db.members && db.members[key].state == Queued
    requires key.0 in db.progress && db.progress[key.0] == Active
    requires if key.1 in db.ownership
      then db.ownership[key.1].hold != Held && g == db.ownership[key.1].generation + 1
      else g == 1
    ensures var m := db.members[key].(generation := Some(g), state := Claimed, reason := None);
      Inv(db.(ownership := db.ownership[key.1 := Ownership(m.claim, g, Held)], members := db.members[key := m]), cfg)
  {
    hide TicksOk, ProgressOk, OrderOk, MembersOk, CompletionOk, HoldsOk, AccountsOk, RecordsUnique, FactsOk,
      SubmissionsOk, TerminalsOk, EvidenceOk;
    RowShape(db, cfg, key.0, key.1);
    var m := db.members[key].(generation := Some(g), state := Claimed, reason := None);
    MemberRowChange(db.progress, db.members, cfg, key, m);
    CompletionOpen(db.progress, db.members, key, m);
    TerminalsOpen(db.members, db.terminals, cfg, key, m);
    HoldsClaim(db.members, db.ownership, key, m, g);
    AccountsClaim(db.ownership, db.recoveries, db.terminals, key.1, m.claim, g);
    FactsClaim(db.ownership, db.facts, db.terminals, key.1, Ownership(m.claim, g, Held));
  }

  lemma HoldsRecover(
    progress: Progresses, members: Members, ownership: Ownerships, cfg: Config,
    key: (TickId, TargetKey), m: Member, g: nat)
    requires HoldsOk(members, ownership) && MembersOk(progress, members, cfg)
    requires key in members && Live(members[key]) && Live(m)
    requires m.generation == Some(g) && m.claim == members[key].claim
    ensures HoldsOk(members[key := m], ownership[key.1 := Ownership(m.claim, g, Held)])
  {
    var ownership' := ownership[key.1 := Ownership(m.claim, g, Held)];
    var members' := members[key := m];
    assert MemberShape(cfg, key.0, key.1, members[key]);
    forall k | k in members' && Live(members'[k])
      ensures members'[k].generation.Some?
      ensures Holds(ownership', Owner(k.1, members'[k].claim, members'[k].generation.value))
    {
      if k != key {
        assert MemberShape(cfg, k.0, k.1, members[k]);
        assert Holds(ownership, Owner(k.1, members[k].claim, members[k].generation.value));
        assert Holds(ownership, Owner(key.1, members[key].claim, members[key].generation.value));
      }
    }
  }

  lemma AccountsRecover(ownership: Ownerships, recoveries: set<Recovery>, terminals: set<Terminal>, r: Recovery)
    requires AccountsOk(ownership, recoveries, terminals) && RecordsUnique(recoveries, terminals)
    requires r.target in ownership && ownership[r.target] == Ownership(r.claim, r.generation, Held)
    ensures AccountsOk(
              ownership[r.target := Ownership(r.claim, r.generation + 1, Held)], recoveries + {r}, terminals)
    ensures RecordsUnique(recoveries + {r}, terminals)
  {
    assert !Spent(ownership, r.target, r.generation);
    assert !RecoveredAt(recoveries, r.target, r.generation) && !SettledAt(terminals, r.target, r.generation);
    var ownership' := ownership[r.target := Ownership(r.claim, r.generation + 1, Held)];
    var recoveries' := recoveries + {r};
    forall k, g
      ensures Spent(ownership', k, g) <==> RecoveredAt(recoveries', k, g) || SettledAt(terminals, k, g)
    {
      assert Spent(ownership', k, g) <==> Spent(ownership, k, g) || (k == r.target && g == r.generation);
      if RecoveredAt(recoveries', k, g) && !(k == r.target && g == r.generation) {
        assert RecoveredAt(recoveries, k, g);
      }
      if RecoveredAt(recoveries, k, g) {
        var w :| w in recoveries && w.target == k && w.generation == g;
        assert w in recoveries';
      }
      if k == r.target && g == r.generation {
        assert r in recoveries';
      }
    }
  }

  /** A read lost before it was frozen costs exactly one recorded generation. */
  lemma RecoverKeepsInv(db: Db, cfg: Config, key: (TickId, TargetKey))
    requires Inv(db, cfg)
    requires key in db.members && Live(db.members[key])
    requires db.members[key].generation.Some?
    requires Owner(key.1, db.members[key].claim, db.members[key].generation.value) !in db.facts
    requires key.1 in db.ownership
    ensures var g := db.members[key].generation.value;
      var m := db.members[key].(generation := Some(g + 1), state := Claimed, reason := None);
      Inv(db.(
        recoveries := db.recoveries + {Recovery(key.1, m.claim, g, key.0, g + 1)},
        ownership := db.ownership[key.1 := db.ownership[key.1].(generation := g + 1)],
        members := db.members[key := m]), cfg)
  {
    hide TicksOk, ProgressOk, OrderOk, MembersOk, CompletionOk, HoldsOk, AccountsOk, RecordsUnique, FactsOk,
      SubmissionsOk, TerminalsOk, EvidenceOk;
    var g := db.members[key].generation.value;
    var m := db.members[key].(generation := Some(g + 1), state := Claimed, reason := None);
    RowShape(db, cfg, key.0, key.1);
    LiveHolds(db.members, db.ownership, key);
    assert db.ownership[key.1].(generation := g + 1) == Ownership(m.claim, g + 1, Held);
    LiveTickActive(db.progress, db.members, key);
    MemberRowChange(db.progress, db.members, cfg, key, m);
    CompletionOpen(db.progress, db.members, key, m);
    TerminalsOpen(db.members, db.terminals, cfg, key, m);
    HoldsRecover(db.progress, db.members, db.ownership, cfg, key, m, g + 1);
    AccountsRecover(db.ownership, db.recoveries, db.terminals, Recovery(key.1, m.claim, g, key.0, g + 1));
    FactsClaim(db.ownership, db.facts, db.terminals, key.1, Ownership(m.claim, g + 1, Held));
  }

  // --- Settling ------------------------------------------------------------------

  lemma AccountsSettle(ownership: Ownerships, recoveries: set<Recovery>, terminals: set<Terminal>, t: Terminal)
    requires AccountsOk(ownership, recoveries, terminals) && RecordsUnique(recoveries, terminals)
    requires Holds(ownership, OwnerOf(t))
    ensures AccountsOk(
              ownership[t.target := Ownership(t.claim, t.generation, Released)], recoveries, terminals + {t})
    ensures RecordsUnique(recoveries, terminals + {t})
  {
    assert !Spent(ownership, t.target, t.generation);
    assert !RecoveredAt(recoveries, t.target, t.generation) && !SettledAt(terminals, t.target, t.generation);
    var ownership' := ownership[t.target := Ownership(t.claim, t.generation, Released)];
    var terminals' := terminals + {t};
    forall k, g
      ensures Spent(ownership', k, g) <==> RecoveredAt(recoveries, k, g) || SettledAt(terminals', k, g)
    {
      assert Spent(ownership', k, g) <==> Spent(ownership, k, g) || (k == t.target && g == t.generation);
      if SettledAt(terminals', k, g) && !(k == t.target && g == t.generation) {
        assert SettledAt(terminals, k, g);
      }
      if SettledAt(terminals, k, g) {
        var w :| w in terminals && w.target == k && w.generation == g;
        assert w in terminals';
      }
      if k == t.target && g == t.generation {
        assert t in terminals';
      }
    }
  }

  lemma FactsSettle(ownership: Ownerships, facts: map<Owner, Fact>, terminals: set<Terminal>, t: Terminal)
    requires FactsOk(ownership, facts, terminals)
    requires Holds(ownership, OwnerOf(t))
    ensures FactsOk(ownership[t.target := Ownership(t.claim, t.generation, Released)], facts, terminals + {t})
  {
    var ownership' := ownership[t.target := Ownership(t.claim, t.generation, Released)];
    forall f | f in facts ensures Holds(ownership', f) || SettledFor(terminals + {t}, f) {
      if SettledFor(terminals, f) {
        var w :| w in terminals && OwnerOf(w) == f;
        assert w in terminals + {t};
      } else {
        assert Holds(ownership, f);
        assert t in terminals + {t};
      }
    }
  }

  lemma HoldsSettle(
    progress: Progresses, members: Members, ownership: Ownerships, cfg: Config,
    key: (TickId, TargetKey), m: Member)
    requires HoldsOk(members, ownership) && MembersOk(progress, members, cfg)
    requires key in members && Live(members[key]) && m.state == Terminated
    requires key.1 in ownership
    ensures HoldsOk(members[key := m], ownership[key.1 := ownership[key.1].(hold := Released)])
  {
    var ownership' := ownership[key.1 := ownership[key.1].(hold := Released)];
    var members' := members[key := m];
    assert MemberShape(cfg, key.0, key.1, members[key]);
    forall k | k in members' && Live(members'[k])
      ensures members'[k].generation.Some?
      ensures Holds(ownership', Owner(k.1, members'[k].claim, members'[k].generation.value))
    {
      assert MemberShape(cfg, k.0, k.1, members[k]);
      assert Holds(ownership, Owner(k.1, members[k].claim, members[k].generation.value));
      assert Holds(ownership, Owner(key.1, members[key].claim, members[key].generation.value));
    }
  }

  lemma TerminalsSettle(members: Members, terminals: set<Terminal>, cfg: Config, m: Member, t: Terminal)
    requires TerminalsOk(members, terminals, cfg)
    requires (t.tick, t.target) in members && members[(t.tick, t.target)].terminal == None
    requires m.state == Terminated && m.terminal == Some(t) && m.claim == t.claim
    requires m.generation == Some(t.generation) && t.binding == cfg.binding
    ensures TerminalsOk(members[(t.tick, t.target) := m], terminals + {t}, cfg)
  {
  }

  /** Promotion keeps the queue in order and re-establishes completion. */
  lemma CompletionSettle(
    ticks: seq<Tick>, progress: Progresses, members: Members, cfg: Config,
    key: (TickId, TargetKey), m: Member)
    requires cfg.Valid() && TicksOk(ticks, cfg)
    requires ProgressOk(ticks, progress) && OrderOk(ticks, progress)
    requires MembersOk(progress, members, cfg) && CompletionOk(progress, members)
    requires key in members && Live(members[key]) && m.state == Terminated
    requires MemberShape(cfg, key.0, key.1, m)
    ensures var members' := members[key := m];
      var progress' := if TickFinished(members', key.0) then Promote(progress, key.0) else progress;
      && ProgressOk(ticks, progress') && OrderOk(ticks, progress')
      && MembersOk(progress', members', cfg) && CompletionOk(progress', members')
  {
    hide TicksOk, ProgressOk, OrderOk, MembersOk, CompletionOk, TickFinished, Promote;
    var members' := members[key := m];
    LiveTickActive(progress, members, key);
    MemberRowChange(progress, members, cfg, key, m);
    if TickFinished(members', key.0) {
      PromoteKeepsProgress(ticks, progress, key.0);
      PromoteKeepsOrder(ticks, progress, cfg, key.0);
      CompletionPromote(progress, members, cfg, key, m);
    } else {
      CompletionUnfinished(progress, members, key, m);
    }
  }

  lemma CompletionUnfinished(progress: Progresses, members: Members, key: (TickId, TargetKey), m: Member)
    requires CompletionOk(progress, members)
    requires key in members && Live(members[key]) && m.state == Terminated
    requires !TickFinished(members[key := m], key.0)
    ensures CompletionOk(progress, members[key := m])
  {
    var members' := members[key := m];
    forall t | t in progress && TickFinished(members', t)
      ensures progress[t] == Complete || progress[t] == Coalesced
    {
      TickFinishedElsewhere(members, key, m, t);
    }
  }

  lemma TickFinishedElsewhere(members: Members, key: (TickId, TargetKey), m: Member, t: TickId)
    requires key in members && t != key.0
    ensures TickFinished(members[key := m], t) <==> TickFinished(members, t)
  {
    if TickFinished(members[key := m], t) {
      forall k | k in members && k.0 == t ensures members[k].state == Terminated {
        assert members[key := m][k] == members[k];
      }
    }
  }

  lemma PromoteKeepsProgress(ticks: seq<Tick>, progress: Progresses, id: TickId)
    requires ProgressOk(ticks, progress)
    requires id in progress && progress[id] == Active
    ensures ProgressOk(ticks, Promote(progress, id))
  {
    assert Promote(progress, id).Keys == progress.Keys;
  }

  lemma OrderIntro(ticks: seq<Tick>, progress: Progresses)
    requires forall i, j :: 0 <= i < j < |ticks| && ticks[i].id in progress && ticks[j].id in progress ==>
      AllowedPair(progress[ticks[i].id], progress[ticks[j].id])
    requires forall t :: t in progress ==> progress[t] != Waiting
    ensures OrderOk(ticks, progress)
  {
  }

  lemma PromoteKeepsOrder(ticks: seq<Tick>, progress: Progresses, cfg: Config, id: TickId)
    requires TicksOk(ticks, cfg) && ProgressOk(ticks, progress) && OrderOk(ticks, progress)
    requires id in progress && progress[id] == Active
    ensures OrderOk(ticks, Promote(progress, id))
  {
    hide ProgressOk, TicksOk, OrderOk;
    var a := IndexOf(ticks, progress, id);
    var progress' := Promote(progress, id);
    forall i, j | 0 <= i < j < |ticks| && ticks[i].id in progress' && ticks[j].id in progress'
      ensures AllowedPair(progress'[ticks[i].id], progress'[ticks[j].id])
    {
      PairAllowed(ticks, progress, i, j);
      if i < a {
        PairAllowed(ticks, progress, i, a);
      } else if a < i {
        PairAllowed(ticks, progress, a, i);
      }
    }
    OrderIntro(ticks, progress');
  }

  lemma CompletionPromote(progress: Progresses, members: Members, cfg: Config, key: (TickId, TargetKey), m: Member)
    requires cfg.Valid()
    requires MembersOk(progress, members, cfg) && CompletionOk(progress, members)
    requires key in members && m.state == Terminated && MemberShape(cfg, key.0, key.1, m)
    requires key.0 in progress && progress[key.0] == Active
    requires TickFinished(members[key := m], key.0)
    ensures MembersOk(Promote(progress, key.0), members[key := m], cfg)
    ensures CompletionOk(Promote(progress, key.0), members[key := m])
  {
    var members' := members[key := m];
    var progress' := Promote(progress, key.0);
    MemberRowChange(progress, members, cfg, key, m);
    assert forall t :: t in progress <==> t in progress';
    assert forall t :: t in progress ==> (progress[t] == Coalesced <==> progress'[t] == Coalesced);
    forall t | t in progress' && TickFinished(members', t)
      ensures progress'[t] == Complete || progress'[t] == Coalesced
    {
      if t != key.0 {
        TickFinishedElsewhere(members, key, m, t);
      }
    }
    forall k | k in members' && k.0 in progress' && progress'[k.0] == Complete
      ensures members'[k].state == Terminated
    {
      assert k.0 != key.0 ==> progress[k.0] == Complete;
    }
  }

  lemma SettleKeepsInv(
    db: Db, cfg: Config, id: TickId, owner: Owner, state: TerminalState, reason: Option<string>, verified: bool)
    requires Inv(db, cfg) && Settle(db, cfg, id, owner, state, reason, verified).Done?
    ensures Inv(Settle(db, cfg, id, owner, state, reason, verified).value, cfg)
  {
    hide TicksOk, ProgressOk, OrderOk, MembersOk, CompletionOk, HoldsOk, AccountsOk, RecordsUnique, FactsOk,
      SubmissionsOk, TerminalsOk, EvidenceOk;
    var key := (id, owner.target);
    var t := SettlementRecord(db, cfg, id, owner, state, reason, verified).value;
    var m := db.members[key].(state := Terminated, reason := reason, terminal := Some(t));
    FencedRowLive(db, cfg, id, owner);
    assert OwnerOf(t) == owner && t.tick == id;
    RowShape(db, cfg, id, owner.target);
    CompletionSettle(db.ticks, db.progress, db.members, cfg, key, m);
    HoldsSettle(db.progress, db.members, db.ownership, cfg, key, m);
    AccountsSettle(db.ownership, db.recoveries, db.terminals, t);
    FactsSettle(db.ownership, db.facts, db.terminals, t);
    TerminalsSettle(db.members, db.terminals, cfg, m, t);
    EvidenceSettle(db, t);
  }

  lemma EvidenceSettle(db: Db, t: Terminal)
    requires EvidenceOk(db.facts, db.submissions, db.histories, db.terminals)
    requires RecordsVerify(db.facts, db.submissions, db.histories, OwnerOf(t), t)
    ensures EvidenceOk(db.facts, db.submissions, db.histories, db.terminals + {t})
  {
  }

  // --- Owner-fenced records --------------------------------------------------------

  /** The owner of a terminal can never hold its target again. */
  lemma SettledOwnerReleased(db: Db, cfg: Config, t: Terminal)
    requires AccountsOk(db.ownership, db.recoveries, db.terminals)
    requires t in db.terminals
    ensures !Holds(db.ownership, OwnerOf(t))
  {
    assert SettledAt(db.terminals, t.target, t.generation);
    assert Spent(db.ownership, t.target, t.generation);
  }

  lemma FactPieces(db: Db, cfg: Config, owner: Owner, fact: Fact)
    requires FactsOk(db.ownership, db.facts, db.terminals)
    requires SubmissionsOk(db.facts, db.submissions, db.histories)
    requires EvidenceOk(db.facts, db.submissions, db.histories, db.terminals)
    requires Holds(db.ownership, owner) && owner !in db.facts
    ensures var facts' := db.facts[owner := fact];
      && FactsOk(db.ownership, facts', db.terminals)
      && SubmissionsOk(facts', db.submissions, db.histories)
      && EvidenceOk(facts', db.submissions, db.histories, db.terminals)
  {
    var facts' := db.facts[owner := fact];
    forall t | t in db.terminals ensures RecordsVerify(facts', db.submissions, db.histories, OwnerOf(t), t) {
      assert RecordsVerify(db.facts, db.submissions, db.histories, OwnerOf(t), t);
    }
  }

  lemma FactKeepsInv(db: Db, cfg: Config, owner: Owner, fact: Fact)
    requires Inv(db, cfg) && RecordFact(db, owner, fact).Done?
    ensures Inv(RecordFact(db, owner, fact).value, cfg)
  {
    hide TicksOk, ProgressOk, OrderOk, MembersOk, CompletionOk, HoldsOk, AccountsOk, RecordsUnique, FactsOk,
      SubmissionsOk, TerminalsOk, EvidenceOk;
    if owner !in db.facts {
      FactPieces(db, cfg, owner, fact);
    }
  }

  /** Rewriting the plan or history of a held owner leaves every terminal's evidence alone. */
  lemma EvidenceUnderHeld(
    db: Db, cfg: Config, owner: Owner,
    submissions': map<Owner, Submission>, histories': map<Owner, History>)
    requires AccountsOk(db.ownership, db.recoveries, db.terminals)
    requires EvidenceOk(db.facts, db.submissions, db.histories, db.terminals)
    requires Holds(db.ownership, owner)
    requires forall o :: o != owner ==>
      (o in submissions' <==> o in db.submissions) && (o in histories' <==> o in db.histories)
    requires forall o :: o != owner && o in db.submissions ==> submissions'[o] == db.submissions[o]
    requires forall o :: o != owner && o in db.histories ==> histories'[o] == db.histories[o]
    ensures EvidenceOk(db.facts, submissions', histories', db.terminals)
  {
    hide AccountsOk;
    forall t | t in db.terminals ensures RecordsVerify(db.facts, submissions', histories', OwnerOf(t), t) {
      SettledOwnerReleased(db, cfg, t);
      assert RecordsVerify(db.facts, db.submissions, db.histories, OwnerOf(t), t);
    }
  }

  lemma SubmissionPieces(db: Db, owner: Owner, submission: Submission, history: History)
    requires SubmissionsOk(db.facts, db.submissions, db.histories)
    requires owner in db.facts && db.facts[owner].state == Captured && submission.stages != []
    requires history.accepted <= |submission.stages|
    ensures SubmissionsOk(db.facts, db.submissions[owner := submission], db.histories[owner := history])
  {
  }

  lemma FreezeKeepsInv(db: Db, cfg: Config, owner: Owner, submission: Submission)
    requires Inv(db, cfg) && FreezeSubmission(db, owner, submission).Done?
    ensures Inv(FreezeSubmission(db, owner, submission).value, cfg)
  {
    hide TicksOk, ProgressOk, OrderOk, MembersOk, CompletionOk, HoldsOk, AccountsOk, RecordsUnique, FactsOk,
      SubmissionsOk, TerminalsOk, EvidenceOk;
    if owner !in db.submissions {
      var db' := FreezeSubmission(db, owner, submission).value;
      EvidenceUnderHeld(db, cfg, owner, db'.submissions, db'.histories);
      SubmissionPieces(db, owner, submission, History(0, false));
    }
  }

  lemma ObserveKeepsInv(db: Db, cfg: Config, owner: Owner, delivery: Delivery)
    requires Inv(db, cfg) && Observe(db, owner, delivery).Done?
    ensures Inv(Observe(db, owner, delivery).value, cfg)
  {
    hide TicksOk, ProgressOk, OrderOk, MembersOk, CompletionOk, HoldsOk, AccountsOk, RecordsUnique, FactsOk,
      SubmissionsOk, TerminalsOk, EvidenceOk;
    var db' := Observe(db, owner, delivery).value;
    EvidenceUnderHeld(db, cfg, owner, db.submissions, db'.histories);
    assert SubmissionsOk(db.facts, db.submissions, db'.histories) by {
      HistoryPieces(db, owner, delivery);
    }
  }

  lemma HistoryPieces(db: Db, owner: Owner, delivery: Delivery)
    requires SubmissionsOk(db.facts, db.submissions, db.histories)
    requires Observe(db, owner, delivery).Done?
    ensures SubmissionsOk(db.facts, db.submissions, Observe(db, owner, delivery).value.histories)
  {
  }

  // --- Admission -------------------------------------------------------------------

  lemma MaxOrdinalIsCount(ticks: seq<Tick>, cfg: Config)
    requires TicksOk(ticks, cfg)
    ensures MaxOrdinal(ticks) == |ticks|
  {
    if ticks != [] {
      assert ticks[|ticks| - 1].ordinal == |ticks|;
    }
  }

  /** `pending` lists exactly the active and waiting rows among the first `n` ticks. */
  ghost predicate PendingIs(ticks: seq<Tick>, progress: Progresses, n: nat, pending: seq<(TickId, Progress)>)
    requires n <= |ticks|
  {
    && (forall p :: p in pending ==>
          && (p.1 == Active || p.1 == Waiting)
          && p.0 in progress && progress[p.0] == p.1
          && exists i :: 0 <= i < n && ticks[i].id == p.0)
    && (forall i :: 0 <= i < n && ticks[i].id in progress
                    && (progress[ticks[i].id] == Active || progress[ticks[i].id] == Waiting) ==>
          (ticks[i].id, progress[ticks[i].id]) in pending)
  }

  lemma {:induction false} PendingPrefix(ticks: seq<Tick>, progress: Progresses, n: nat)
    requires ProgressOk(ticks, progress) && OrderOk(ticks, progress)
    requires n <= |ticks|
    ensures PendingIs(ticks, progress, n, Pending(ticks[..n], progress))
    ensures PendingShape(Pending(ticks[..n], progress))
  {
    hide ProgressOk, OrderOk;
    if n > 0 {
      PendingPrefix(ticks, progress, n - 1);
      assert ticks[..n][..n - 1] == ticks[..n - 1];
      var before := Pending(ticks[..n - 1], progress);
      PendingIsStep(ticks, progress, n, before);
      if ticks[n - 1].id in progress && (progress[ticks[n - 1].id] == Active || progress[ticks[n - 1].id] == Waiting) {
        PendingStep(ticks, progress, n, before);
      }
    }
  }

  lemma PendingIsStep(ticks: seq<Tick>, progress: Progresses, n: nat, before: seq<(TickId, Progress)>)
    requires 0 < n <= |ticks| && PendingIs(ticks, progress, n - 1, before)
    ensures var id := ticks[n - 1].id;
      PendingIs(ticks, progress, n,
        if id in progress && (progress[id] == Active || progress[id] == Waiting)
        then before + [(id, progress[id])]
        else before)
  {
  }

  lemma PendingStep(ticks: seq<Tick>, progress: Progresses, n: nat, before: seq<(TickId, Progress)>)
    requires ProgressOk(ticks, progress) && OrderOk(ticks, progress)
    requires 0 < n <= |ticks| && ticks[n - 1].id in progress
    requires progress[ticks[n - 1].id] == Active || progress[ticks[n - 1].id] == Waiting
    requires PendingShape(before) && PendingIs(ticks, progress, n - 1, before)
    ensures PendingShape(before + [(ticks[n - 1].id, progress[ticks[n - 1].id])])
  {
    hide OrderOk, ProgressOk;
    var state := progress[ticks[n - 1].id];
    forall p | p in before ensures AllowedPair(p.1, state) {
      var i :| 0 <= i < n - 1 && ticks[i].id == p.0;
      PairAllowed(ticks, progress, i, n - 1);
    }
    assert forall k :: 0 <= k < |before| ==> before[k] in before;
    if state == Waiting {
      WaitingHasActive(ticks, progress, n - 1);
    }
  }

  lemma WaitingHasActive(ticks: seq<Tick>, progress: Progresses, w: nat)
    requires ProgressOk(ticks, progress) && OrderOk(ticks, progress)
    requires w < |ticks| && ticks[w].id in progress && progress[ticks[w].id] == Waiting
    ensures exists i :: 0 <= i < w && ticks[i].id in progress && progress[ticks[i].id] == Active
  {
    assert Has(progress, Waiting);
    var a :| a in progress && progress[a] == Active;
    var j := IndexOf(ticks, progress, a);
    hide OrderOk;
    if w < j {
      PairAllowed(ticks, progress, w, j);
    }
  }

  lemma PendingCovers(ticks: seq<Tick>, progress: Progresses, t: TickId)
    requires ProgressOk(ticks, progress) && OrderOk(ticks, progress)
    requires t in progress && (progress[t] == Active || progress[t] == Waiting)
    ensures (t, progress[t]) in Pending(ticks, progress)
  {
    hide ProgressOk, OrderOk;
    PendingPrefix(ticks, progress, |ticks|);
    assert ticks[..|ticks|] == ticks;
    var i := IndexOf(ticks, progress, t);
  }

  lemma PendingOnly(ticks: seq<Tick>, progress: Progresses, p: (TickId, Progress))
    requires ProgressOk(ticks, progress) && OrderOk(ticks, progress)
    requires p in Pending(ticks, progress)
    ensures p.0 in progress && progress[p.0] == p.1
  {
    PendingPrefix(ticks, progress, |ticks|);
    assert ticks[..|ticks|] == ticks;
  }

  lemma PendingIsShaped(ticks: seq<Tick>, progress: Progresses)
    requires ProgressOk(ticks, progress) && OrderOk(ticks, progress)
    ensures PendingShape(Pending(ticks, progress))
  {
    PendingPrefix(ticks, progress, |ticks|);
    assert ticks[..|ticks|] == ticks;
  }

  /** Zero, one or two pending rows mean: idle, one active tick, or one active and one waiting. */
  lemma PendingMeaning(ticks: seq<Tick>, progress: Progresses)
    requires ProgressOk(ticks, progress) && OrderOk(ticks, progress)
    ensures PendingShape(Pending(ticks, progress))
    ensures Pending(ticks, progress) == [] <==> !Has(progress, Active)
    ensures |Pending(ticks, progress)| == 2 <==> Has(progress, Waiting)
  {
    hide ProgressOk, Pending;
    PendingIsShaped(ticks, progress);
    var pending := Pending(ticks, progress);
    if pending != [] {
      PendingOnly(ticks, progress, pending[0]);
    }
    if |pending| == 2 {
      PendingOnly(ticks, progress, pending[1]);
    }
    if Has(progress, Active) {
      var a :| a in progress && progress[a] == Active;
      PendingCovers(ticks, progress, a);
      if Has(progress, Waiting) {
        var w :| w in progress && progress[w] == Waiting;
        PendingCovers(ticks, progress, w);
      }
    }
  }

  lemma AdmitTicks(ticks: seq<Tick>, progress: Progresses, cfg: Config, tick: Tick)
    requires TicksOk(ticks, cfg) && ProgressOk(ticks, progress)
    requires tick.id !in progress && tick.ordinal == |ticks| + 1 && tick.binding == cfg.binding
    requires tick.disposition != Complete
    requires tick.targets == if tick.disposition == Coalesced then [] else cfg.targets
    ensures TicksOk(ticks + [tick], cfg)
    ensures ProgressOk(ticks + [tick], progress[tick.id := tick.disposition])
  {
    NewTick(ticks, progress, cfg, tick);
    hide TicksOk;
    NewProgress(ticks, progress, tick);
  }

  lemma NewTick(ticks: seq<Tick>, progress: Progresses, cfg: Config, tick: Tick)
    requires TicksOk(ticks, cfg) && ProgressOk(ticks, progress)
    requires tick.id !in progress && tick.ordinal == |ticks| + 1 && tick.binding == cfg.binding
    requires tick.disposition != Complete
    requires tick.targets == if tick.disposition == Coalesced then [] else cfg.targets
    ensures TicksOk(ticks + [tick], cfg)
  {
    forall i | 0 <= i < |ticks| ensures ticks[i].id != tick.id {
      TickHasRow(ticks, progress, i);
    }
    hide ProgressOk;
  }

  lemma TickHasRow(ticks: seq<Tick>, progress: Progresses, i: nat)
    requires ProgressOk(ticks, progress) && i < |ticks|
    ensures ticks[i].id in progress
  {
  }

  lemma NewProgress(ticks: seq<Tick>, progress: Progresses, tick: Tick)
    requires ProgressOk(ticks, progress) && tick.id !in progress && tick.disposition != Complete
    ensures ProgressOk(ticks + [tick], progress[tick.id := tick.disposition])
  {
    var ticks' := ticks + [tick];
    var progress' := progress[tick.id := tick.disposition];
    forall t | t in progress' ensures exists i :: 0 <= i < |ticks'| && ticks'[i].id == t {
      if t == tick.id {
        assert ticks'[|ticks|].id == t;
      } else {
        var i :| 0 <= i < |ticks| && ticks[i].id == t;
        assert ticks'[i].id == t;
      }
    }
  }

  lemma AdmitOrder(ticks: seq<Tick>, progress: Progresses, tick: Tick)
    requires ProgressOk(ticks, progress) && OrderOk(ticks, progress) && tick.id !in progress
    requires tick.disposition ==
      if Has(progress, Waiting) then Coalesced else if Has(progress, Active) then Waiting else Active
    ensures OrderOk(ticks + [tick], progress[tick.id := tick.disposition])
  {
    var ticks' := ticks + [tick];
    var progress' := progress[tick.id := tick.disposition];
    forall i, j | 0 <= i < j < |ticks'| && ticks'[i].id in progress' && ticks'[j].id in progress'
      ensures AllowedPair(progress'[ticks'[i].id], progress'[ticks'[j].id])
    {
      assert ticks[i].id in progress;
      if j < |ticks| {
        assert AllowedPair(progress[ticks[i].id], progress[ticks[j].id]);
      }
    }
    if Has(progress, Active) {
      var a :| a in progress && progress[a] == Active;
      assert a in progress' && progress'[a] == Active;
    } else {
      assert tick.disposition == Active;
      assert tick.id in progress' && progress'[tick.id] == Active;
    }
  }

  lemma AdmittedRows(cfg: Config, id: TickId, targets: seq<TargetKey>, t: TickId, k: TargetKey)
    ensures (t, k) in QueuedMembers(cfg, id, targets) <==> t == id && k in targets
    ensures (t, k) in QueuedMembers(cfg, id, targets) ==>
      && QueuedMembers(cfg, id, targets)[(t, k)].state == Queued
      && MemberShape(cfg, t, k, QueuedMembers(cfg, id, targets)[(t, k)])
  {
  }

  lemma AdmitMembers(progress: Progresses, members: Members, cfg: Config, tick: Tick)
    requires MembersOk(progress, members, cfg)
    requires tick.id !in progress
    requires tick.targets == if tick.disposition == Coalesced then [] else cfg.targets
    ensures var members' := members + QueuedMembers(cfg, tick.id, tick.targets);
      MembersOk(progress[tick.id := tick.disposition], members', cfg)
    ensures RowsAdded(members, members + QueuedMembers(cfg, tick.id, tick.targets), tick.id)
  {
    var added := QueuedMembers(cfg, tick.id, tick.targets);
    var members' := members + added;
    var progress' := progress[tick.id := tick.disposition];
    hide QueuedMembers;
    forall t, k
      ensures (t, k) in members' <==> t in progress' && progress'[t] != Coalesced && k in cfg.targets
      ensures (t, k) in members' ==> MemberShape(cfg, t, k, members'[(t, k)])
    {
      AdmittedRows(cfg, tick.id, tick.targets, t, k);
      assert (t, k) in members <==> t in progress && progress[t] != Coalesced && k in cfg.targets;
    }
    forall key | key in members ensures key in members' && members'[key] == members[key] {
      AdmittedRows(cfg, tick.id, tick.targets, key.0, key.1);
      assert (key.0, key.1) == key;
    }
    forall key | key in members' && key !in members ensures members'[key].state == Queued && key.0 == tick.id {
      AdmittedRows(cfg, tick.id, tick.targets, key.0, key.1);
      assert (key.0, key.1) == key;
    }
  }

  /** The only new rows are queued rows of one tick. */
  ghost predicate RowsAdded(members: Members, members': Members, id: TickId) {
    && (forall key :: key in members ==> key in members' && members'[key] == members[key])
    && (forall key :: key in members' && key !in members ==> members'[key].state == Queued && key.0 == id)
  }

  lemma AdmitCompletion(
    progress: Progresses, members: Members, members': Members, cfg: Config, id: TickId, state: Progress)
    requires CompletionOk(progress, members) && RowsAdded(members, members', id)
    requires id !in progress && state != Complete
    requires state != Coalesced ==> exists k :: (id, k) in members' && (id, k) !in members
    requires forall key :: key in members ==> key.0 in progress
    ensures CompletionOk(progress[id := state], members')
  {
    var progress' := progress[id := state];
    forall t | t in progress' && TickFinished(members', t)
      ensures progress'[t] == Complete || progress'[t] == Coalesced
    {
      if t != id {
        assert TickFinished(members, t) by {
          forall k | k in members && k.0 == t ensures members[k].state == Terminated {
            assert members'[k] == members[k];
          }
        }
      }
    }
  }

  lemma MemberTicks(progress: Progresses, members: Members, cfg: Config, key: (TickId, TargetKey))
    requires MembersOk(progress, members, cfg) && key in members
    ensures key.0 in progress && key.1 in cfg.targets
  {
    assert (key.0, key.1) in members;
  }

  lemma AdmitKeepsInv(db: Db, cfg: Config, id: TickId, at: int)
    requires Inv(db, cfg) && Admit(db, cfg, id, at).Done?
    ensures Inv(Admit(db, cfg, id, at).value, cfg)
  {
    hide TicksOk, ProgressOk, OrderOk, MembersOk, CompletionOk, HoldsOk, AccountsOk, RecordsUnique, FactsOk,
      SubmissionsOk, TerminalsOk, EvidenceOk, ValidateQueue;
    if FindTick(db.ticks, id).None? {
      var db' := Admit(db, cfg, id, at).value;
      var tick := db'.ticks[|db.ticks|];
      PendingMeaning(db.ticks, db.progress);
      MaxOrdinalIsCount(db.ticks, cfg);
      UnknownTick(db.ticks, db.progress, id);
      AdmitTicks(db.ticks, db.progress, cfg, tick);
      AdmitOrder(db.ticks, db.progress, tick);
      AdmitMembers(db.progress, db.members, cfg, tick);
      forall key | key in db.members ensures key.0 in db.progress {
        MemberTicks(db.progress, db.members, cfg, key);
      }
      if tick.disposition != Coalesced {
        AdmittedRows(cfg, id, tick.targets, id, cfg.targets[0]);
        assert (id, cfg.targets[0]) in db'.members && (id, cfg.targets[0]) !in db.members;
      }
      AdmitCompletion(db.progress, db.members, db'.members, cfg, id, tick.disposition);
      AdmitHolds(db.members, db'.members, db.ownership, db.terminals, cfg, id);
    }
  }

  lemma UnknownTick(ticks: seq<Tick>, progress: Progresses, id: TickId)
    requires ProgressOk(ticks, progress) && FindTick(ticks, id).None?
    ensures id !in progress
  {
  }

  /** Fresh queued rows disturb neither holds nor terminals. */
  lemma AdmitHolds(
    members: Members, members': Members, ownership: Ownerships, terminals: set<Terminal>, cfg: Config, id: TickId)
    requires HoldsOk(members, ownership) && TerminalsOk(members, terminals, cfg)
    requires RowsAdded(members, members', id)
    ensures HoldsOk(members', ownership) && TerminalsOk(members', terminals, cfg)
  {
  }
}
