/** The command and the collector agree: with no other writer a run is refused only when
    an operation's id is already taken by something else, an ordinary run leaves every
    effective version with a result, and repeating it submits nothing. */
module AttributionRunSafety {
  import opened Outcome
  import opened Ledger
  import opened AttributionPolicy
  import opened Collector
  import opened AttributionSafety
  import opened AttributionCredit
  import opened AttributionRun

  /** What a run has appended so far: results at the run's cutoff, for other outcomes. */
  ghost predicate WrittenFor(l: Ledger, more: Ledger, others: set<EventId>) {
    forall k :: 0 <= k < |more| ==>
      more[k].body.Attributed? && more[k].body.result.cutoff == |l| && more[k].body.result.outcome in others
  }

  // --- Deciding reads only the snapshot --------------------------------------------------

  lemma DecideSnapshot(l: Ledger, more: Ledger, id: EventId, reevaluate: bool, clock: Clock)
    requires LoadOutcome(l, id, |l|).Done?
    ensures Decide(l + more, id, |l|, reevaluate, clock) == Decide(l, id, |l|, reevaluate, clock)
  {
    EffectiveSnapshot(l, more, id, POLICY_VERSION, |l|);
    AttributeDone(l, id, |l|);
    AttributeSnapshot(l, more, id, |l|, POLICY_VERSION);
    OutcomeSnapshot(l, more, id, |l|);
    hide EffectiveAttribution, Attribute, LoadOutcome;
  }

  /** A recorded outcome always has an answer at a cutoff containing it. */
  lemma AttributeDone(l: Ledger, id: EventId, cutoff: int)
    requires LoadOutcome(l, id, cutoff).Done? && cutoff <= |l|
    ensures Attribute(l, id, cutoff, POLICY_VERSION).Done?
    ensures var r := Attribute(l, id, cutoff, POLICY_VERSION).value;
      r.outcome == id && r.policy == POLICY_VERSION && r.cutoff == cutoff
    ensures 1 <= cutoff
  {
  }

  // --- What the collector checks about the envelope -----------------------------------------

  lemma {:induction false} AccountRowAppend(l: Ledger, more: Ledger, account: string)
    requires AccountRow(l, account).Some?
    ensures AccountRow(l + more, account) == AccountRow(l, account)
    decreases |more|
  {
    if more == [] {
      assert l + more == l;
    } else {
      AccountRowAppend(l, more[..|more| - 1], account);
      assert (l + more)[..|l + more| - 1] == l + more[..|more| - 1];
    }
  }

  lemma AdmitMeans(l: Ledger, e: Event)
    ensures Admit(l, e).Done? <==>
              WireValid(e) && Find(l, e.id) == None && CheckAccount(l, e).Done? && CheckReferences(l, e).Done?
  {
    hide WireValid, Find, CheckAccount, CheckReferences;
  }

  /** An outcome's account was discovered before it, and is not the reserved principal. */
  lemma OutcomeAccount(l: Ledger, i: nat)
    requires Reachable(l) && i < |l| && IsOutcome(l[i])
    ensures AccountRow(l, l[i].account).Some? && l[i].account != SYSTEM_ACCOUNT
  {
    hide Reachable, Admit;
    AdmittedAt(l, i);
    AdmitMeans(l[..i], l[i]);
    AccountRowAppend(l[..i], l[i..], l[i].account);
    assert l[..i] + l[i..] == l;
  }

  lemma UnreplacedStill(l: Ledger, more: Ledger, others: set<EventId>, id: EventId)
    requires Unreplaced(l, id, |l|) && WrittenFor(l, more, others)
    ensures Unreplaced(l + more, id, |l + more|)
  {
    var all := l + more;
    forall i | 0 <= i < |all| ensures !Replaces(all, i, id) {
      if i < |l| {
        assert Replaces(all, i, id) <==> Replaces(l, i, id);
      } else {
        assert all[i] == more[i - |l|];
      }
    }
  }

  lemma {:induction false} ResultsUntouched(l: Ledger, more: Ledger, others: set<EventId>, id: EventId, n: nat)
    requires WrittenFor(l, more, others) && id !in others && n <= |l + more|
    ensures Results(l + more, id, POLICY_VERSION, |l + more|, n)
         == Results(l, id, POLICY_VERSION, |l|, if n <= |l| then n else |l|)
  {
    if n > 0 {
      ResultsUntouched(l, more, others, id, n - 1);
      if n > |l| {
        assert (l + more)[n - 1] == more[n - 1 - |l|];
      }
    }
  }

  lemma NotRecordedYet(l: Ledger, more: Ledger, others: set<EventId>, r: Result)
    requires Reachable(l) && WrittenFor(l, more, others) && r.outcome !in others && r.cutoff == |l|
    ensures !Recorded(l + more, r)
  {
    hide Reachable;
    var all := l + more;
    forall i | 0 <= i < |all| ensures !SameOperation(all[i], r) {
      if i < |l| {
        if l[i].body.Attributed? {
          StoredIsRecomputed(l, i);
        }
      } else {
        assert all[i] == more[i - |l|];
      }
    }
  }

  /** The tip the collector sees is the one the command read, still at an older cutoff. */
  lemma SupersessionAccepted(l: Ledger, more: Ledger, others: set<EventId>, r: Result, tip: Option<Event>)
    requires Reachable(l) && WrittenFor(l, more, others) && r.outcome !in others
    requires r.policy == POLICY_VERSION && r.cutoff == |l|
    requires EffectiveAttribution(l, r.outcome, POLICY_VERSION, |l|) == Done(tip)
    ensures CheckResultSupersession(l + more, r, if tip.Some? then Some(tip.value.id) else None).Done?
  {
    hide Reachable, Linked, Results, Tips, UniqueIds, IsResultFor;
    ResultsUntouched(l, more, others, r.outcome, |l + more|);
    UniqueTip(l, r.outcome, POLICY_VERSION, |l|);
    TipSelected(l + more, r.outcome, POLICY_VERSION, |l + more|);
    var rows := Results(l, r.outcome, POLICY_VERSION, |l|, |l|);
    if tip.Some? {
      assert tip.value in rows;
      ResultsOrigin(l, r.outcome, POLICY_VERSION, |l|, |l|);
      assert l[..|l|] == l;
      TipStored(l, more, tip.value, r.outcome);
    }
    hide EffectiveAttribution;
  }

  lemma TipStored(l: Ledger, more: Ledger, tip: Event, outcome: EventId)
    requires Reachable(l) && tip in l && IsResultFor(tip, outcome, POLICY_VERSION)
    ensures var found := Find(l + more, tip.id);
      && found.Some? && (l + more)[found.value] == tip
      && tip.body.Attributed? && tip.body.result.outcome == outcome && tip.body.result.policy == POLICY_VERSION
      && tip.body.result.cutoff < |l|
  {
    ReachableUnique(l);
    hide Reachable;
    StoredFound(l, tip);
    var i := Find(l, tip.id).value;
    StoredIsRecomputed(l, i);
    FindAppend(l, more, tip.id);
  }

  /** What a result resolves to is a recorded row of the outcome's account. */
  lemma ResolvedAccepted(l: Ledger, more: Ledger, id: EventId, account: string)
    requires UniqueIds(l) && LoadOutcome(l, id, |l|).Done? && LoadOutcome(l, id, |l|).value.account == account
    ensures Attribute(l, id, |l|, POLICY_VERSION).Done?
    ensures CheckResolved(l + more, Attribute(l, id, |l|, POLICY_VERSION).value, account).Done?
  {
    AttributeDone(l, id, |l|);
    AttributionMeaning(l, id, |l|);
    NothingResolves(l, id, |l|);
    var r := Attribute(l, id, |l|, POLICY_VERSION).value;
    var e := LoadOutcome(l, id, |l|).value;
    hide Attribute, LoadOutcome, EligibleRow, UniqueIds, CheckResolved;
    if r.status == Inferred {
      var a: nat :| EligibleRow(l, a, e, |l|) && a < |l| && l[a].body.Acted? && r.action == Some(l[a].id)
        && r.decision == Some(l[a].body.decision);
      ActionResolves(l, more, r, e, a);
    } else if r.status == Direct {
      if ActionClaim(e).Some? {
        var a: nat :| ClaimedActionOk(l, e, |l|, a) && a < |l| && l[a].body.Acted? && r.action == Some(l[a].id)
          && r.decision == Some(l[a].body.decision);
        ActionResolves(l, more, r, e, a);
      } else {
        var k: nat :| ClaimedDecisionOk(l, e, |l|, k);
        DecisionResolves(l, more, r, e, k);
      }
    } else {
      assert CheckResolved(l + more, r, account).Done? by { EmptyResolves(l + more, r, account); }
    }
  }

  lemma ActionResolves(l: Ledger, more: Ledger, r: Result, e: Event, a: nat)
    requires UniqueIds(l) && EligibleRow(l, a, e, |l|)
    requires r.action == Some(l[a].id) && r.decision == Some(l[a].body.decision)
    ensures CheckResolved(l + more, r, e.account).Done?
  {
    var k: nat :| DecisionRow(l, k, l[a].body.decision, e.account, |l|);
    FindAt(l, a);
    FindAt(l, k);
    hide UniqueIds;
    FindAppend(l, more, l[a].id);
    FindAppend(l, more, l[k].id);
    hide Find;
  }

  lemma DecisionResolves(l: Ledger, more: Ledger, r: Result, e: Event, k: nat)
    requires UniqueIds(l) && ClaimedDecisionOk(l, e, |l|, k)
    requires r.action == None && r.decision == DecisionClaim(e)
    ensures CheckResolved(l + more, r, e.account).Done?
  {
    FindAt(l, k);
    hide UniqueIds;
    FindAppend(l, more, l[k].id);
    hide Find;
  }

  lemma EmptyResolves(l: Ledger, r: Result, account: string)
    requires r.action == None && r.decision == None
    ensures CheckResolved(l, r, account).Done?
  {
  }

  lemma NothingResolves(l: Ledger, id: EventId, cutoff: int)
    requires Attribute(l, id, cutoff, POLICY_VERSION).Done?
    ensures var r := Attribute(l, id, cutoff, POLICY_VERSION).value;
      r.status == Unresolved ==> r.action == None && r.decision == None
  {
    hide LoadOutcome, LoadAction, LoadDecision, AccountActions, MostRecent, Eligible, ActionProblem, DecisionProblem;
  }

  lemma EnvelopeWire(l: Ledger, id: EventId, cutoff: int, account: string, at: (int, int), supersedes: Option<EventId>)
    requires Attribute(l, id, cutoff, POLICY_VERSION).Done? && account != SYSTEM_ACCOUNT
    ensures WireValid(Envelope(Attribute(l, id, cutoff, POLICY_VERSION).value, account, at, supersedes))
  {
    ResultCoherent(l, id, cutoff);
    hide Attribute;
  }

  lemma ResultCoherent(l: Ledger, id: EventId, cutoff: int)
    requires Attribute(l, id, cutoff, POLICY_VERSION).Done?
    ensures var r := Attribute(l, id, cutoff, POLICY_VERSION).value;
      && (r.status == Direct ==> r.decision.Some?)
      && (r.status == Inferred ==> r.action.Some? && r.decision.Some?)
      && (r.status == Unresolved ==> r.action.None? && r.decision.None?)
  {
    hide LoadOutcome, LoadAction, LoadDecision, AccountActions, MostRecent, Eligible, ActionProblem, DecisionProblem;
  }

  /** Everything the collector asks about a computed result holds, except that its id
      may be taken by an unrelated event. */
  lemma EnvelopeAdmitted(l: Ledger, more: Ledger, others: set<EventId>, i: nat, at: (int, int), tip: Option<Event>)
    requires Reachable(l) && WrittenFor(l, more, others)
    requires i < |l| && Selected(l, l[i].id, |l|, None, i) && l[i].id !in others
    requires EffectiveAttribution(l, l[i].id, POLICY_VERSION, |l|) == Done(tip)
    ensures Attribute(l, l[i].id, |l|, POLICY_VERSION).Done?
    ensures var env := Envelope(
                         Attribute(l, l[i].id, |l|, POLICY_VERSION).value, l[i].account, at,
                         if tip.Some? then Some(tip.value.id) else None);
      WireValid(env) && (Admit(l + more, env).Done? <==> Find(l + more, env.id) == None)
  {
    hide Reachable, UniqueIds, Unreplaced, LoadOutcome, Find, WireValid, Attribute, EffectiveAttribution,
      EffectiveVersion, CheckAttribution, CheckResolved, CheckResultSupersession, Recorded, AccountRow;
    var id, all := l[i].id, l + more;
    ReachableUnique(l);
    FindAt(l, i);
    RecordedLoads(l, i, |l|);
    AttributeDone(l, id, |l|);
    var r := Attribute(l, id, |l|, POLICY_VERSION).value;
    var env := Envelope(r, l[i].account, at, if tip.Some? then Some(tip.value.id) else None);
    OutcomeAccount(l, i);
    AccountRowAppend(l, more, l[i].account);
    EnvelopeWire(l, id, |l|, l[i].account, at, if tip.Some? then Some(tip.value.id) else None);
    UnreplacedStill(l, more, others, id);
    FindAppend(l, more, id);
    RecordedLoads(all, i, |all|);
    RecordedLoads(all, i, |l|);
    UnreplacedIsEffective(all, id, |all|);
    NotRecordedYet(l, more, others, r);
    SupersessionAccepted(l, more, others, r, tip);
    ResolvedAccepted(l, more, id, l[i].account);
    AttributeSnapshot(l, more, id, |l|, POLICY_VERSION);
    AttributionAccepted(all, env);
    AdmitMeans(all, env);
  }

  lemma AttributionAccepted(l: Ledger, e: Event)
    requires e.body.Attributed?
    requires var r := e.body.result;
      && LoadOutcome(l, r.outcome, |l|).Done? && LoadOutcome(l, r.outcome, |l|).value.account == e.account
      && EffectiveVersion(l, r.outcome, |l|) == Done(r.outcome)
      && r.policy == POLICY_VERSION && ValidateCutoff(l, r.cutoff).Done?
      && LoadOutcome(l, r.outcome, r.cutoff).Done?
      && !Recorded(l, r)
      && e.id == AttributionId(r.outcome, r.policy, r.cutoff)
      && CheckResultSupersession(l, r, e.body.supersedesResult).Done?
      && CheckResolved(l, r, e.account).Done?
      && Attribute(l, r.outcome, r.cutoff, r.policy) == Done(r)
    ensures CheckReferences(l, e).Done?
  {
    hide LoadOutcome, EffectiveVersion, Recorded, CheckResultSupersession, CheckResolved, Attribute;
  }

  // --- The whole run --------------------------------------------------------------------------

  /** The id the operation would take already names another event. */
  predicate Taken(l: Ledger, id: EventId) {
    Find(l, AttributionId(id, POLICY_VERSION, |l|)).Some?
  }

  function SetOf(ids: seq<EventId>): set<EventId> {
    set id | id in ids
  }

  /** Deciding never raises, and what it submits is the policy's result linked to the tip. */
  lemma DecideMeans(l: Ledger, i: nat, reevaluate: bool, clock: Clock) returns (tip: Option<Event>)
    requires Reachable(l) && i < |l| && Selected(l, l[i].id, |l|, None, i)
    ensures EffectiveAttribution(l, l[i].id, POLICY_VERSION, |l|) == Done(tip)
    ensures LoadOutcome(l, l[i].id, |l|) == Done(l[i])
    ensures Attribute(l, l[i].id, |l|, POLICY_VERSION).Done?
    ensures var d := Decide(l, l[i].id, |l|, reevaluate, clock);
      && !d.Raises?
      && (d.AlreadyAttributed? <==> !reevaluate && tip.Some?)
      && (d.NotYetAttributed? <==> reevaluate && tip.None?)
      && (d.Submit? ==> d.envelope == Envelope(
            Attribute(l, l[i].id, |l|, POLICY_VERSION).value, l[i].account, clock(l[i].id),
            if tip.Some? then Some(tip.value.id) else None))
      && (d.Unchanged? ==> reevaluate)
  {
    UniqueTip(l, l[i].id, POLICY_VERSION, |l|);
    ReachableUnique(l);
    FindAt(l, i);
    RecordedLoads(l, i, |l|);
    AttributeDone(l, l[i].id, |l|);
    hide Reachable, UniqueIds, EffectiveAttribution, LoadOutcome, Attribute, Linked, Results, Selected;
    tip := EffectiveAttribution(l, l[i].id, POLICY_VERSION, |l|).value;
  }

  predicate IsOperation(e: Event, cutoff: int) {
    && e.body.Attributed?
    && e.body.result.policy == POLICY_VERSION
    && e.body.result.cutoff == cutoff
    && e.id == AttributionId(e.body.result.outcome, POLICY_VERSION, cutoff)
  }

  /** How far a run got after the first n versions. */
  ghost predicate RunSoFar(l: Ledger, ids: seq<EventId>, n: nat, reevaluate: bool, clock: Clock, r: Report)
    requires n <= |ids|
  {
    && Reachable(r.ledger)
    && (r.refusal == None <==>
          forall k :: 0 <= k < n && Decide(l, ids[k], |l|, reevaluate, clock).Submit? ==> !Taken(l, ids[k]))
    && (r.refusal == None ==>
          && r.ledger == l + r.submitted
          && WrittenFor(l, r.submitted, SetOf(ids[..n]))
          && (forall e :: e in r.submitted ==> IsOperation(e, |l|))
          && (forall e :: e in r.submitted <==> exists k ::
                0 <= k < n && Decide(l, ids[k], |l|, reevaluate, clock) == Submit(e)))
  }

  lemma {:induction false} RunProceeds(l: Ledger, ids: seq<EventId>, n: nat, reevaluate: bool, clock: Clock)
    requires Reachable(l) && Distinct(ids) && n <= |ids|
    requires forall v :: v in ids ==> IsSelected(l, v, |l|, None)
    ensures RunSoFar(l, ids, n, reevaluate, clock, Steps(l, ids[..n], |l|, reevaluate, clock))
  {
    hide Reachable, IsSelected, RunSoFar, Distinct, Decide;
    if n == 0 {
      RunStarts(l, ids, reevaluate, clock);
      assert ids[..0] == [];
    } else {
      RunProceeds(l, ids, n - 1, reevaluate, clock);
      assert ids[..n][..n - 1] == ids[..n - 1];
      var before := Steps(l, ids[..n - 1], |l|, reevaluate, clock);
      assert ids[n - 1] in ids;
      RunStep(l, ids, n, reevaluate, clock, before);
    }
  }

  lemma RunStarts(l: Ledger, ids: seq<EventId>, reevaluate: bool, clock: Clock)
    requires Reachable(l)
    ensures RunSoFar(l, ids, 0, reevaluate, clock, Report(l, [], [], [], [], None))
  {
    hide Reachable;
    assert l + [] == l;
  }

  lemma SelectedRow(l: Ledger, id: EventId, i: nat)
    requires Selected(l, id, |l|, None, i)
    ensures i < |l| && l[i].id == id && IsOutcome(l[i])
  {
  }

  lemma FreshId(ids: seq<EventId>, n: nat)
    requires Distinct(ids) && 0 < n <= |ids|
    ensures ids[n - 1] !in SetOf(ids[..n - 1])
    ensures SetOf(ids[..n]) == SetOf(ids[..n - 1]) + {ids[n - 1]}
  {
    assert ids[..n] == ids[..n - 1] + [ids[n - 1]];
  }

  lemma WrittenMonotone(l: Ledger, more: Ledger, a: set<EventId>, b: set<EventId>)
    requires WrittenFor(l, more, a) && a <= b
    ensures WrittenFor(l, more, b)
  {
  }

  lemma WrittenAppend(l: Ledger, more: Ledger, others: set<EventId>, e: Event)
    requires WrittenFor(l, more, others)
    requires e.body.Attributed? && e.body.result.cutoff == |l| && e.body.result.outcome in others
    ensures WrittenFor(l, more + [e], others)
  {
  }

  /** Only the ledger the run started from can have taken an operation's id. */
  lemma IdTaken(l: Ledger, more: Ledger, others: set<EventId>, id: EventId)
    requires WrittenFor(l, more, others) && id !in others
    requires forall e :: e in more ==> IsOperation(e, |l|)
    ensures Find(l + more, AttributionId(id, POLICY_VERSION, |l|)) == None <==> !Taken(l, id)
  {
    var key := AttributionId(id, POLICY_VERSION, |l|);
    FindAppend(l, more, key);
    forall j | |l| <= j < |l + more| ensures (l + more)[j].id != key {
      assert (l + more)[j] == more[j - |l|];
      assert more[j - |l|] in more;
    }
  }

  /** Whatever has taken the id, it is not this operation: results at this cutoff are new. */
  lemma TakenIsOther(l: Ledger, more: Ledger, e: Event)
    requires Reachable(l) && e.body.Attributed? && e.body.result.cutoff == |l|
    requires Find(l + more, e.id) == None || Find(l, e.id).Some?
    ensures Find(l + more, e.id).Some? ==> (l + more)[Find(l + more, e.id).value] != e
  {
    hide Reachable, Find;
    var found := Find(l, e.id);
    FindAppend(l, more, e.id);
    if found.Some? && l[found.value].body.Attributed? {
      StoredIsRecomputed(l, found.value);
    }
  }

  lemma IngestFresh(l: Ledger, e: Event)
    requires WireValid(e) && (Admit(l, e).Done? <==> Find(l, e.id) == None)
    requires Find(l, e.id).Some? ==> l[Find(l, e.id).value] != e
    ensures Find(l, e.id) == None ==> Ingest(l, e) == Done((l + [e], Created))
    ensures Find(l, e.id).Some? ==> Ingest(l, e).Refused?
  {
    hide Find, WireValid, Admit;
  }

  /** Submitting what was decided for one version succeeds exactly when its id is free. */
  lemma SubmitOutcome(l: Ledger, more: Ledger, others: set<EventId>, id: EventId, reevaluate: bool, clock: Clock)
    requires Reachable(l) && Reachable(l + more) && WrittenFor(l, more, others) && id !in others
    requires forall e :: e in more ==> IsOperation(e, |l|)
    requires IsSelected(l, id, |l|, None)
    ensures Decide(l + more, id, |l|, reevaluate, clock) == Decide(l, id, |l|, reevaluate, clock)
    ensures var d := Decide(l, id, |l|, reevaluate, clock);
      && !d.Raises?
      && (d.Submit? ==>
            && IsOperation(d.envelope, |l|) && d.envelope.body.result.outcome == id
            && (Taken(l, id) ==> Ingest(l + more, d.envelope).Refused?)
            && (!Taken(l, id) ==> Ingest(l + more, d.envelope) == Done((l + more + [d.envelope], Created))
                                  && Reachable(l + more + [d.envelope])))
  {
    hide Reachable, Decide, Selected, Admit, WrittenFor, UniqueIds, Ingest, Find, Taken, Attribute,
      EffectiveAttribution, LoadOutcome, WireValid;
    var i: nat :| Selected(l, id, |l|, None, i);
    SelectedRow(l, id, i);
    var tip := DecideMeans(l, i, reevaluate, clock);
    DecideSnapshot(l, more, id, reevaluate, clock);
    var d := Decide(l, id, |l|, reevaluate, clock);
    if d.Submit? {
      AttributeDone(l, id, |l|);
      EnvelopeAdmitted(l, more, others, i, clock(id), tip);
      IdTaken(l, more, others, id);
      TakenFound(l, id);
      TakenIsOther(l, more, d.envelope);
      IngestFresh(l + more, d.envelope);
      if !Taken(l, id) {
        ReachableAppend(l + more, d.envelope);
      }
    }
  }

  lemma TakenFound(l: Ledger, id: EventId)
    ensures Taken(l, id) <==> Find(l, AttributionId(id, POLICY_VERSION, |l|)).Some?
  {
  }

  lemma RunStep(l: Ledger, ids: seq<EventId>, n: nat, reevaluate: bool, clock: Clock, before: Report)
    requires Reachable(l) && Distinct(ids) && 0 < n <= |ids| && IsSelected(l, ids[n - 1], |l|, None)
    requires RunSoFar(l, ids, n - 1, reevaluate, clock, before)
    ensures RunSoFar(l, ids, n, reevaluate, clock, Step(before, ids[n - 1], |l|, reevaluate, clock))
  {
    hide Reachable, Distinct, Decide, IsSelected, WrittenFor, Ingest, Taken, IsOperation;
    var id := ids[n - 1];
    if before.refusal.None? {
      var more := before.submitted;
      FreshId(ids, n);
      SubmitOutcome(l, more, SetOf(ids[..n - 1]), id, reevaluate, clock);
      WrittenMonotone(l, more, SetOf(ids[..n - 1]), SetOf(ids[..n]));
      var d := Decide(l, id, |l|, reevaluate, clock);
      if d.Submit? && !Taken(l, id) {
        OperationWritten(l, more, SetOf(ids[..n]), d.envelope);
        assert l + more + [d.envelope] == l + (more + [d.envelope]);
      }
    }
  }

  lemma OperationWritten(l: Ledger, more: Ledger, others: set<EventId>, e: Event)
    requires WrittenFor(l, more, others) && IsOperation(e, |l|) && e.body.result.outcome in others
    ensures WrittenFor(l, more + [e], others)
  {
    WrittenAppend(l, more, others, e);
  }

  // --- Main results -------------------------------------------------------------------------------

  /** What the run selects: every effective version at the ledger's maximum. */
  function Versions(l: Ledger): seq<EventId> {
    match EffectiveVersions(l, |l|, None, |l|)
    case Done(ids) => ids
    case Refused(_) => []
  }

  lemma RunIs(l: Ledger, reevaluate: bool, clock: Clock)
    requires Reachable(l)
    ensures Run(l, reevaluate, clock) == Steps(l, Versions(l), |l|, reevaluate, clock)
    ensures Distinct(Versions(l)) && forall v :: v in Versions(l) <==> IsSelected(l, v, |l|, None)
    ensures RunSoFar(l, Versions(l), |Versions(l)|, reevaluate, clock, Run(l, reevaluate, clock))
  {
    hide Reachable, RunSoFar, IsSelected, Distinct, EffectiveVersions;
    SelectionExact(l, |l|, None);
    RunProceeds(l, Versions(l), |Versions(l)|, reevaluate, clock);
    assert Versions(l)[..|Versions(l)|] == Versions(l);
  }

  /** A run with no other writer is refused exactly when some operation it must submit
      finds its id taken, and the id can only be taken by something other than a result. */
  lemma RunRefusedIff(l: Ledger, reevaluate: bool, clock: Clock)
    requires Reachable(l)
    ensures Run(l, reevaluate, clock).refusal == None <==>
              forall v :: v in Versions(l) && Decide(l, v, |l|, reevaluate, clock).Submit? ==> !Taken(l, v)
    ensures Reachable(Run(l, reevaluate, clock).ledger)
    ensures forall v :: Taken(l, v) ==> !l[Find(l, AttributionId(v, POLICY_VERSION, |l|)).value].body.Attributed?
  {
    hide Reachable, Decide, Taken, IsSelected, IsOperation, WrittenFor;
    RunIs(l, reevaluate, clock);
    var ids := Versions(l);
    assert forall v :: v in ids <==> exists k :: 0 <= k < |ids| && ids[k] == v;
    forall v | Taken(l, v)
      ensures Find(l, AttributionId(v, POLICY_VERSION, |l|)).Some?
              && !l[Find(l, AttributionId(v, POLICY_VERSION, |l|)).value].body.Attributed?
    {
      TakenFound(l, v);
      var k := Find(l, AttributionId(v, POLICY_VERSION, |l|)).value;
      if l[k].body.Attributed? {
        StoredIsRecomputed(l, k);
      }
    }
  }

  ghost predicate HasResult(l: Ledger, id: EventId) {
    exists i :: 0 <= i < |l| && IsResultFor(l[i], id, POLICY_VERSION)
  }

  lemma {:induction false} ResultsFound(l: Ledger, id: EventId, n: nat)
    requires n <= |l|
    ensures Results(l, id, POLICY_VERSION, |l|, n) != [] <==>
        exists i :: 0 <= i < n && IsResultFor(l[i], id, POLICY_VERSION)
  {
    if n > 0 {
      ResultsFound(l, id, n - 1);
    }
  }

  lemma ResultSelected(l: Ledger, id: EventId)
    requires Reachable(l)
    ensures EffectiveAttribution(l, id, POLICY_VERSION, |l|).Done?
    ensures EffectiveAttribution(l, id, POLICY_VERSION, |l|).value.Some? <==> HasResult(l, id)
  {
    UniqueTip(l, id, POLICY_VERSION, |l|);
    ResultsFound(l, id, |l|);
    hide Reachable, EffectiveAttribution, Linked, Results;
  }

  /** Appending results leaves the set of effective versions as it was. */
  lemma SelectedStill(l: Ledger, more: Ledger, others: set<EventId>, id: EventId)
    requires WrittenFor(l, more, others) && IsSelected(l + more, id, |l + more|, None)
    ensures IsSelected(l, id, |l|, None)
  {
    var all := l + more;
    var i: nat :| Selected(all, id, |all|, None, i);
    forall j | |l| <= j < |all| ensures !IsOutcome(all[j]) {
      assert all[j] == more[j - |l|];
    }
    forall j | 0 <= j < |l| ensures !Replaces(l, j, id) {
      assert all[j] == l[j];
      assert Replaces(all, j, id) <==> Replaces(l, j, id);
    }
    assert Selected(l, id, |l|, None, i);
  }

  /** An ordinary run that is not refused leaves every effective version with a result. */
  lemma OrdinaryRunCompletes(l: Ledger, clock: Clock)
    requires Reachable(l) && Run(l, false, clock).refusal == None
    ensures var after := Run(l, false, clock).ledger;
      && Reachable(after)
      && forall v :: IsSelected(after, v, |after|, None) ==> HasResult(after, v)
  {
    hide Reachable, Decide, IsSelected, Taken, Distinct, HasResult, WrittenFor;
    RunIs(l, false, clock);
    var r, ids := Run(l, false, clock), Versions(l);
    var after := r.ledger;
    forall v | IsSelected(after, v, |after|, None) ensures HasResult(after, v) {
      SelectedStill(l, r.submitted, SetOf(ids[..|ids|]), v);
      var k :| 0 <= k < |ids| && ids[k] == v;
      VersionGetsResult(l, v, r.submitted, clock, ids, k);
    }
  }

  lemma VersionGetsResult(l: Ledger, v: EventId, submitted: Ledger, clock: Clock, ids: seq<EventId>, k: nat)
    requires Reachable(l) && IsSelected(l, v, |l|, None) && k < |ids| && ids[k] == v
    requires forall e :: e in submitted ==> IsOperation(e, |l|)
    requires forall e :: e in submitted <==>
        exists j :: 0 <= j < |ids| && Decide(l, ids[j], |l|, false, clock) == Submit(e)
    ensures HasResult(l + submitted, v)
  {
    hide Reachable, Decide, Selected, EffectiveAttribution, LoadOutcome, Attribute, IsResultFor;
    var i: nat :| Selected(l, v, |l|, None, i);
    SelectedRow(l, v, i);
    var tip := DecideMeans(l, i, false, clock);
    ResultSelected(l, v);
    var d := Decide(l, v, |l|, false, clock);
    if d.Submit? {
      assert d.envelope in submitted;
      AttributeDone(l, v, |l|);
      SubmittedIsResult(l, submitted, d.envelope, v);
    } else {
      HasResultAppend(l, submitted, v);
    }
  }

  lemma SubmittedIsResult(l: Ledger, submitted: Ledger, e: Event, v: EventId)
    requires e in submitted && e.body.Attributed? && e.body.result.outcome == v
    requires e.body.result.policy == POLICY_VERSION
    ensures HasResult(l + submitted, v)
  {
    var j :| 0 <= j < |submitted| && submitted[j] == e;
    assert (l + submitted)[|l| + j] == e;
    assert IsResultFor((l + submitted)[|l| + j], v, POLICY_VERSION);
  }

  lemma HasResultAppend(l: Ledger, more: Ledger, v: EventId)
    requires HasResult(l, v)
    ensures HasResult(l + more, v)
  {
    var i :| 0 <= i < |l| && IsResultFor(l[i], v, POLICY_VERSION);
    assert (l + more)[i] == l[i];
  }

  /** Repeating an ordinary run right after it submits nothing and changes nothing. */
  lemma SecondRunIsIdle(l: Ledger, clock: Clock, again: Clock)
    requires Reachable(l) && Run(l, false, clock).refusal == None
    ensures var after := Run(l, false, clock).ledger;
      Run(after, false, again) == Report(after, [], [], Versions(after), [], None)
  {
    hide Reachable, IsSelected, HasResult, RunSoFar, Distinct;
    OrdinaryRunCompletes(l, clock);
    var after := Run(l, false, clock).ledger;
    RunIs(after, false, again);
    var ids := Versions(after);
    forall k | 0 <= k < |ids| ensures Decide(after, ids[k], |after|, false, again) == AlreadyAttributed {
      assert ids[k] in ids;
      ResultSelected(after, ids[k]);
    }
    hide Decide, Run;
    AllAlready(after, ids, |ids|, again);
    assert ids[..|ids|] == ids;
  }

  lemma {:induction false} AllAlready(l: Ledger, ids: seq<EventId>, n: nat, clock: Clock)
    requires n <= |ids|
    requires forall k :: 0 <= k < |ids| ==> Decide(l, ids[k], |l|, false, clock) == AlreadyAttributed
    ensures Steps(l, ids[..n], |l|, false, clock) == Report(l, [], [], ids[..n], [], None)
  {
    hide Decide;
    if n > 0 {
      AllAlready(l, ids, n - 1, clock);
      assert ids[..n][..n - 1] == ids[..n - 1];
      assert ids[..n] == ids[..n - 1] + [ids[n - 1]];
    }
  }

  /** A reevaluation submits only genuine changes, each linked to the effective result it
      replaces and computed at a strictly newer cutoff. */
  lemma ReevaluationReplaces(l: Ledger, clock: Clock, e: Event)
    requires Reachable(l) && Run(l, true, clock).refusal == None && e in Run(l, true, clock).submitted
    ensures e.body.Attributed? && e.body.supersedesResult.Some?
    ensures var found := Find(l, e.body.supersedesResult.value);
      && found.Some? && l[found.value].body.Attributed?
      && var was := l[found.value];
      && EffectiveAttribution(l, e.body.result.outcome, POLICY_VERSION, |l|) == Done(Some(was))
      && was.body.result.cutoff < e.body.result.cutoff == |l|
      && !SameResult(e.body.result, was.body.result)
  {
    hide Reachable, Taken, IsSelected, Distinct, WrittenFor, Decide, Run;
    RunIs(l, true, clock);
    var ids := Versions(l);
    var k :| 0 <= k < |ids| && Decide(l, ids[k], |l|, true, clock) == Submit(e);
    assert ids[k] in ids;
    ReplacementIsGenuine(l, ids[k], clock, e);
  }

  lemma ReplacementIsGenuine(l: Ledger, v: EventId, clock: Clock, e: Event)
    requires Reachable(l) && IsSelected(l, v, |l|, None) && Decide(l, v, |l|, true, clock) == Submit(e)
    ensures e.body.Attributed? && e.body.supersedesResult.Some?
    ensures var found := Find(l, e.body.supersedesResult.value);
      && found.Some? && l[found.value].body.Attributed?
      && var was := l[found.value];
      && EffectiveAttribution(l, e.body.result.outcome, POLICY_VERSION, |l|) == Done(Some(was))
      && was.body.result.cutoff < e.body.result.cutoff == |l|
      && !SameResult(e.body.result, was.body.result)
  {
    hide Reachable, Selected, EffectiveAttribution, LoadOutcome, Attribute, Find, UniqueIds;
    var i: nat :| Selected(l, v, |l|, None, i);
    SelectedRow(l, v, i);
    var tip := DecideMeans(l, i, true, clock);
    AttributeDone(l, v, |l|);
    UniqueTip(l, v, POLICY_VERSION, |l|);
    hide Linked, Results;
    LatestStored(l, v, tip.value);
    TipStored(l, [], tip.value, v);
    assert l + [] == l;
  }

  lemma LatestStored(l: Ledger, v: EventId, tip: Event)
    requires Latest(Results(l, v, POLICY_VERSION, |l|, |l|)) == Some(tip)
    ensures tip in l && IsResultFor(tip, v, POLICY_VERSION)
  {
    ResultsOrigin(l, v, POLICY_VERSION, |l|, |l|);
    assert tip in Results(l, v, POLICY_VERSION, |l|, |l|);
    assert l[..|l|] == l;
  }

  // --- An id taken by another event -------------------------------------------------------------

  const TAKEN_OUTCOME := Named("outcome")

  /** An account, one unclaimed outcome, and an unrelated event under the id the next
      ordinary run would derive. */
  function TakenLedger(): Ledger {
    [ Event(Named("discovery"), "account", 0, 0, Discovered("name", "domain")),
      Event(TAKEN_OUTCOME, "account", 5, 5, OutcomeV2(0, 9, false, 5, None, None, None, None)),
      Event(AttributionId(TAKEN_OUTCOME, POLICY_VERSION, 3), "account", 6, 6, Other("note")) ]
  }

  lemma TakenLedgerReachable()
    ensures Reachable(TakenLedger())
  {
    var l := TakenLedger();
    assert l[..0] == [] && l[..1] == [l[0]] && l[..2] == [l[0], l[1]];
    assert l[..1][..0] == [] && l[..2][..1] == [l[0]];
    assert [l[0], l[1]][..1] == [l[0]];
    assert AccountRow([l[0]], "account").Some?;
    assert AccountRow([l[0], l[1]], "account").Some?;
    assert Find([], l[0].id) == None;
    assert Find([l[0]], l[1].id) == None;
    assert Find([l[0], l[1]], l[2].id) == None;
    AdmitMeans([], l[0]);
    AdmitMeans([l[0]], l[1]);
    AdmitMeans([l[0], l[1]], l[2]);
    hide Admit;
  }

  /** An ordinary run over a ledger the collector can reach is refused although nothing
      else writes: the operation's id already names an unrelated event. */
  lemma TakenIdRefusesRun(clock: Clock)
    ensures Reachable(TakenLedger()) && Run(TakenLedger(), false, clock).refusal.Some?
  {
    var l := TakenLedger();
    TakenLedgerReachable();
    assert Selected(l, TAKEN_OUTCOME, 3, None, 1);
    assert IsSelected(l, TAKEN_OUTCOME, 3, None);
    RunIs(l, false, clock);
    var tip := DecideMeans(l, 1, false, clock);
    ResultSelected(l, TAKEN_OUTCOME);
    ReachableUnique(l);
    FindAt(l, 2);
    TakenFound(l, TAKEN_OUTCOME);
    RunRefusedIff(l, false, clock);
    hide Reachable, Run, Decide, EffectiveAttribution, Find, Taken;
    assert TAKEN_OUTCOME in Versions(l);
  }
}
