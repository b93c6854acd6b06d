/** When a held target can still be released: exactly when the frozen records of its owner
    leave some settlement open. */
module PollLiveness {
  import opened Outcome
  import opened PollTables
  import opened PollInvariant
  import opened PollRuns
  import PollSteps
  import PollRunner

  /** The observation was made under the pinned configuration. */
  predicate Pinned(cfg: Config, fact: Fact) {
    fact.configBinding == cfg.connectionBinding && fact.selection == cfg.selection && fact.connection == cfg.connection
  }

  /** A frozen record of the owner rules out every settlement: a rejected stage, or an
      observation made under another configuration. */
  predicate Stranded(db: Db, cfg: Config, o: Owner) {
    || (o in db.histories && db.histories[o].failed)
    || (o in db.facts && !Pinned(cfg, db.facts[o]))
  }

  // --- Stranded work is held for good -----------------------------------------------------

  lemma StrandedStep(db: Db, cfg: Config, o: Owner, c: Command)
    requires Inv(db, cfg) && Holds(db.ownership, o) && Stranded(db, cfg, o)
    ensures Holds(Next(db, cfg, c).ownership, o)
  {
    hide TicksOk, ProgressOk, OrderOk, MembersOk, CompletionOk, HoldsOk, AccountsOk, RecordsUnique, FactsOk,
      TerminalsOk, EvidenceOk;
    if c.DoClaim? && Claim(db, cfg, c.id, c.target).Done? {
      PollSteps.RowShape(db, cfg, c.id, c.target);
    }
  }

  lemma StrandedStays(a: Db, b: Db, cfg: Config, o: Owner)
    requires Later(a, b) && Stranded(a, cfg, o)
    ensures Stranded(b, cfg, o)
  {
  }

  /** No run of the queue settles, recovers or releases a stranded owner, so its tick stays
      active for good. */
  lemma StrandedHoldsForever(db: Db, cfg: Config, o: Owner, commands: seq<Command>)
    requires Inv(db, cfg) && Holds(db.ownership, o) && Stranded(db, cfg, o)
    ensures var later := Run(db, cfg, commands);
      && Holds(later.ownership, o)
      && o.claim.tick in later.progress && later.progress[o.claim.tick] == Active
    decreases |commands|
  {
    if commands == [] {
      PollSteps.HeldMember(db, cfg, o);
    } else {
      NextKeepsInv(db, cfg, commands[0]);
      NextIsLater(db, cfg, commands[0]);
      StrandedStep(db, cfg, o, commands[0]);
      hide Inv, Stranded;
      StrandedStays(db, Next(db, cfg, commands[0]), cfg, o);
      StrandedHoldsForever(Next(db, cfg, commands[0]), cfg, o, commands[1..]);
    }
  }

  /** A frozen plan with a rejected stage holds its target for good: no run of the queue
      ever settles, recovers or releases it, so its tick never completes. */
  lemma RejectedPlanHoldsForever(db: Db, cfg: Config, o: Owner, commands: seq<Command>)
    requires Inv(db, cfg) && Holds(db.ownership, o)
    requires o in db.submissions && o in db.histories && db.histories[o].failed
    ensures var later := Run(db, cfg, commands);
      && Holds(later.ownership, o)
      && o.claim.tick in later.progress && later.progress[o.claim.tick] == Active
  {
    hide Inv;
    StrandedHoldsForever(db, cfg, o, commands);
  }

  // --- Everything else can be released -------------------------------------------------------

  predicate Released(db: Db, k: TargetKey) {
    k in db.ownership && db.ownership[k].hold == Hold.Released
  }

  predicate Releases(db: Db, cfg: Config, o: Owner, commands: seq<Command>) {
    Released(Run(db, cfg, commands), o.target)
  }

  /** What still stands between a held owner and its settlement. */
  function Remaining(db: Db, o: Owner): (n: int)
    ensures o in db.submissions && o in db.histories && db.histories[o].accepted < |db.submissions[o].stages| ==> n > 0
  {
    if o in db.submissions && o in db.histories then |db.submissions[o].stages| - db.histories[o].accepted else 0
  }

  lemma ObservingMoves(db: Db, cfg: Config, o: Owner, fact: Fact)
    requires Inv(db, cfg) && Holds(db.ownership, o) && o !in db.facts && Pinned(cfg, fact)
    ensures var db' := Next(db, cfg, DoFact(o, fact));
      Inv(db', cfg) && Holds(db'.ownership, o) && !Stranded(db', cfg, o) && o in db'.facts
  {
    hide Inv;
    NextKeepsInv(db, cfg, DoFact(o, fact));
    PollRunner.FrozenTogether(db, cfg, o);
  }

  lemma AcceptingMoves(db: Db, cfg: Config, o: Owner)
    requires Inv(db, cfg) && Holds(db.ownership, o) && !Stranded(db, cfg, o)
    requires o in db.submissions && o in db.histories && db.histories[o].accepted < |db.submissions[o].stages|
    ensures var db' := Next(db, cfg, DoObserve(o, Accepted));
      && Inv(db', cfg) && Holds(db'.ownership, o) && !Stranded(db', cfg, o)
      && db'.facts == db.facts && db'.submissions == db.submissions
      && Remaining(db', o) == Remaining(db, o) - 1
  {
    hide Inv;
    NextKeepsInv(db, cfg, DoObserve(o, Accepted));
    PollRunner.FrozenTogether(db, cfg, o);
  }

  /** The settlement the frozen records call for, once nothing is missing. */
  function Closing(db: Db, o: Owner): Command {
    if o in db.facts && db.facts[o].state == Unchanged then
      DoSettle(o.claim.tick, o, InputsUnchanged, Some("scoring_inputs_unchanged"), true)
    else if o in db.submissions then DoSettle(o.claim.tick, o, Completed, None, true)
    else DoSettle(o.claim.tick, o, RefusedWork, Some("no_usable_inputs"), true)
  }

  lemma ClosingReleases(db: Db, cfg: Config, o: Owner)
    requires Inv(db, cfg) && Holds(db.ownership, o) && !Stranded(db, cfg, o) && o in db.facts
    requires o in db.submissions && o in db.histories ==> db.histories[o].accepted >= |db.submissions[o].stages|
    ensures Released(Next(db, cfg, Closing(db, o)), o.target)
  {
    hide Inv, Stranded, PollRunner.Fenced, PollRunner.Settleable, Settle, Released;
    var c := Closing(db, o);
    HeldIsFenced(db, cfg, o);
    Deliverable(db, cfg, o);
    PollRunner.FencedSettles(db, cfg, o.claim.tick, o, c.state, c.reason, true);
    SettlingReleases(db, cfg, o.claim.tick, o, c.state, c.reason);
  }

  lemma HeldIsFenced(db: Db, cfg: Config, o: Owner)
    requires Inv(db, cfg) && Holds(db.ownership, o)
    ensures PollRunner.Fenced(db, o.claim.tick, o)
  {
    PollSteps.HeldMember(db, cfg, o);
  }

  lemma SettlingReleases(db: Db, cfg: Config, id: TickId, o: Owner, state: TerminalState, reason: Option<string>)
    requires Settle(db, cfg, id, o, state, reason, true).Done?
    ensures Released(Settle(db, cfg, id, o, state, reason, true).value, o.target)
  {
    hide ReadMember, SettlementRecord;
  }

  lemma Deliverable(db: Db, cfg: Config, o: Owner)
    requires Inv(db, cfg) && Holds(db.ownership, o) && !Stranded(db, cfg, o) && o in db.facts
    requires o in db.submissions && o in db.histories ==> db.histories[o].accepted >= |db.submissions[o].stages|
    ensures var c := Closing(db, o);
      PollRunner.Settleable(db, cfg, o, c.state, c.reason, c.verified)
  {
    hide TicksOk, ProgressOk, OrderOk, MembersOk, CompletionOk, HoldsOk, AccountsOk, RecordsUnique, FactsOk,
      TerminalsOk, EvidenceOk;
  }

  lemma RunFrom(db: Db, cfg: Config, c: Command, rest: seq<Command>)
    ensures Run(db, cfg, [c] + rest) == Run(Next(db, cfg, c), cfg, rest)
  {
    assert ([c] + rest)[1..] == rest;
  }

  /** A held owner that is not stranded is released by observing what it has not observed,
      accepting the stages that are missing, and settling. */
  lemma Escape(db: Db, cfg: Config, o: Owner) returns (commands: seq<Command>)
    requires Inv(db, cfg) && Holds(db.ownership, o) && !Stranded(db, cfg, o)
    ensures Releases(db, cfg, o, commands)
    decreases if o in db.facts then 0 else 1, Remaining(db, o)
  {
    hide Inv, Stranded, Next;
    if o !in db.facts {
      var c := DoFact(o, Fact(cfg.connectionBinding, cfg.selection, cfg.connection, "", Unchanged));
      ObservingMoves(db, cfg, o, c.fact);
      var rest := Escape(Next(db, cfg, c), cfg, o);
      commands := [c] + rest;
      RunFrom(db, cfg, c, rest);
    } else if o in db.submissions && o in db.histories && db.histories[o].accepted < |db.submissions[o].stages| {
      var c := DoObserve(o, Accepted);
      AcceptingMoves(db, cfg, o);
      var rest := Escape(Next(db, cfg, c), cfg, o);
      commands := [c] + rest;
      RunFrom(db, cfg, c, rest);
    } else {
      ClosingReleases(db, cfg, o);
      commands := [Closing(db, o)];
      RunFrom(db, cfg, Closing(db, o), []);
      assert commands + [] == commands;
    }
  }

  /** A held target can still be released by some run of the queue exactly when its owner
      has no rejected stage and no observation made under another configuration. */
  lemma ReleasableIff(db: Db, cfg: Config, o: Owner)
    requires Inv(db, cfg) && Holds(db.ownership, o)
    ensures (exists commands :: Releases(db, cfg, o, commands)) <==> !Stranded(db, cfg, o)
  {
    if Stranded(db, cfg, o) {
      forall commands ensures !Releases(db, cfg, o, commands) {
        StrandedHoldsForever(db, cfg, o, commands);
      }
    } else {
      var commands := Escape(db, cfg, o);
    }
  }

  /** The same after every run from an empty store. */
  lemma EveryRunReleasableIff(cfg: Config, commands: seq<Command>, o: Owner)
    requires cfg.Valid() && Holds(Run(EMPTY, cfg, commands).ownership, o)
    ensures var db := Run(EMPTY, cfg, commands);
      (exists more :: Releases(db, cfg, o, more)) <==> !Stranded(db, cfg, o)
  {
    hide Inv, Stranded;
    EveryRunSound(cfg, commands);
    ReleasableIff(Run(EMPTY, cfg, commands), cfg, o);
  }
}
