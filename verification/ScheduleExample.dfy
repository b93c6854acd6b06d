/** A schedule that completes and can never be run again: its stage 2 holds a newer result for
    the outcome it attributes. */
module ScheduleExample {
  import opened Outcome
  import opened Ledger
  import opened AttributionPolicy
  import opened Collector
  import opened AttributionSafety
  import opened AttributionRun
  import opened AttributionRunSafety
  import opened Schedules

  /** What the policy answers for an unclaimed outcome of an account with no actions. */
  function Unattributable(cutoff: int): Result {
    Result(
      TAKEN_OUTCOME, POLICY_VERSION, NoResolution, LOOKBACK_DAYS, None, None, Unresolved, Fallback([], false), cutoff)
  }

  function Discovery(): Event {
    Event(Named("discovery"), "account", 0, 0, Discovered("name", "domain"))
  }

  function Observed(): Event {
    Event(TAKEN_OUTCOME, "account", 5, 5, OutcomeV2(0, 9, false, 5, None, None, None, None))
  }

  function Scheduled(): Event {
    Envelope(Unattributable(2), "account", (6, 6), None)
  }

  function Replacing(): Event {
    Envelope(Unattributable(3), "account", (7, 7), Some(Scheduled().id))
  }

  function Example(): Schedule {
    Schedule([Discovery()], [Observed()], [Operation(TAKEN_OUTCOME, "account")], [Replacing()], 6)
  }

  function First(n: nat): (l: Ledger)
    requires n <= 4
    ensures |l| == n
  {
    [Discovery(), Observed(), Scheduled(), Replacing()][..n]
  }

  lemma Prefixes()
    ensures First(0) == [] && First(1) == [Discovery()] && First(2) == [Discovery(), Observed()]
    ensures First(3) == [Discovery(), Observed(), Scheduled()]
    ensures First(4) == [Discovery(), Observed(), Scheduled(), Replacing()]
    ensures forall n: nat :: 0 < n <= 4 ==> First(n) == First(n - 1) + [First(n)[n - 1]]
  {
  }

  lemma ExampleItems()
    ensures var items := Example().Items();
      && items == [Post(Discovery()), Post(Observed()), Attribution(Operation(TAKEN_OUTCOME, "account")),
        Post(Replacing())]
      && Example().Cutoff() == 2
  {
  }

  // --- What the policy answers --------------------------------------------------------------------

  lemma {:induction false} NoActions(l: Ledger, cutoff: int, n: nat)
    requires n <= |l| && forall i :: 0 <= i < |l| ==> !l[i].body.Acted?
    ensures AccountActions(l, "account", cutoff, n) == []
  {
    if n > 0 {
      NoActions(l, cutoff, n - 1);
    }
  }

  lemma PolicyAnswers(l: Ledger, cutoff: int)
    requires LoadOutcome(l, TAKEN_OUTCOME, cutoff) == Done(Observed()) && 1 <= cutoff <= |l|
    requires forall i :: 0 <= i < |l| ==> !l[i].body.Acted?
    ensures Attribute(l, TAKEN_OUTCOME, cutoff, POLICY_VERSION) == Done(Unattributable(cutoff))
  {
    hide LoadOutcome;
    NoActions(l, cutoff, |l|);
    hide AccountActions;
  }

  lemma OutcomeLoads(l: Ledger)
    requires UniqueIds(l) && |l| >= 2 && l[1] == Observed()
    ensures LoadOutcome(l, TAKEN_OUTCOME, |l|) == Done(Observed()) && Find(l, TAKEN_OUTCOME) == Some(1)
  {
    FindAt(l, 1);
    RecordedLoads(l, 1, |l|);
  }

  // --- Each item is created ---------------------------------------------------------------------------

  lemma StartReachable()
    ensures Reachable(First(1)) && Reachable(First(2))
    ensures Admit([], Discovery()).Done? && Admit(First(1), Observed()).Done?
  {
    hide Reachable, Admit;
    TakenLedgerReachable();
    Prefixes();
    var l := TakenLedger();
    assert l[..0] == [] && l[..1] == First(1) && l[..2] == First(2);
    ReachablePrefix(l, 1);
    ReachablePrefix(l, 2);
    AdmittedAt(l, 0);
    AdmittedAt(l, 1);
  }

  lemma AdmittedIsCreated(l: Ledger, e: Event)
    requires Admit(l, e).Done?
    ensures Ingest(l, e) == Done((l + [e], Created))
  {
    hide WireValid, Find, CheckAccount, CheckReferences;
  }

  lemma OutcomeIsSelected(l: Ledger)
    requires Reachable(l) && |l| >= 2 && l[1] == Observed()
    requires forall i :: 0 <= i < |l| && i != 1 ==> !IsOutcome(l[i])
    ensures Selected(l, TAKEN_OUTCOME, |l|, None, 1)
  {
    hide Reachable;
  }

  /** A result for the outcome is admitted over the ledger it was computed from. */
  lemma ResultAdmitted(l: Ledger, at: (int, int), tip: Option<Event>)
    requires Reachable(l) && |l| >= 2 && l[1] == Observed()
    requires forall i :: 0 <= i < |l| ==> !l[i].body.Acted?
    requires forall i :: 0 <= i < |l| && i != 1 ==> !IsOutcome(l[i])
    requires forall i :: 0 <= i < |l| ==> l[i].id != AttributionId(TAKEN_OUTCOME, POLICY_VERSION, |l|)
    requires EffectiveAttribution(l, TAKEN_OUTCOME, POLICY_VERSION, |l|) == Done(tip)
    ensures Attribute(l, TAKEN_OUTCOME, |l|, POLICY_VERSION) == Done(Unattributable(|l|))
    ensures Admit(l, Envelope(Unattributable(|l|), "account", at, if tip.Some? then Some(tip.value.id) else None)).Done?
  {
    hide Reachable, Admit, EffectiveAttribution, Find, LoadOutcome, Attribute;
    ReachableUnique(l);
    OutcomeLoads(l);
    PolicyAnswers(l, |l|);
    OutcomeIsSelected(l);
    NotUsed(l, |l|);
    hide Selected, UniqueIds;
    assert l + [] == l;
    EnvelopeAdmitted(l, [], {}, 1, at, tip);
  }

  /** The first result is admitted as the operation rebuilds it. */
  lemma ScheduledAdmitted()
    ensures Rebuild(First(2), Example(), Operation(TAKEN_OUTCOME, "account")) == Done(Scheduled())
    ensures Admit(First(2), Scheduled()).Done? && Reachable(First(3))
  {
    StartReachable();
    Prefixes();
    var l := First(2);
    NoResults(l);
    ResultAdmitted(l, (6, 6), None);
    hide Reachable, Admit, Attribute;
    ReachableAppend(l, Scheduled());
  }

  lemma NoResults(l: Ledger)
    requires Reachable(l) && forall i :: 0 <= i < |l| ==> !l[i].body.Attributed?
    ensures EffectiveAttribution(l, TAKEN_OUTCOME, POLICY_VERSION, |l|) == Done(None)
  {
    hide Reachable, EffectiveAttribution;
    ResultSelected(l, TAKEN_OUTCOME);
  }

  lemma NotUsed(l: Ledger, cutoff: int)
    requires forall i :: 0 <= i < |l| ==> l[i].id != AttributionId(TAKEN_OUTCOME, POLICY_VERSION, cutoff)
    ensures Find(l, AttributionId(TAKEN_OUTCOME, POLICY_VERSION, cutoff)) == None
  {
  }

  lemma ScheduledIsTip()
    ensures Reachable(First(3))
    ensures EffectiveAttribution(First(3), TAKEN_OUTCOME, POLICY_VERSION, 3) == Done(Some(Scheduled()))
  {
    ScheduledAdmitted();
    Prefixes();
    hide Reachable, EffectiveAttribution;
    var l := First(3);
    UniqueTip(l, TAKEN_OUTCOME, POLICY_VERSION, 3);
    assert Results(l, TAKEN_OUTCOME, POLICY_VERSION, 3, 0) == [];
    assert Results(l, TAKEN_OUTCOME, POLICY_VERSION, 3, 1) == [];
    assert Results(l, TAKEN_OUTCOME, POLICY_VERSION, 3, 2) == [];
    assert [] + [Scheduled()] == [Scheduled()];
    assert Results(l, TAKEN_OUTCOME, POLICY_VERSION, 3, 3) == [Scheduled()];
  }

  lemma ThirdRows()
    ensures |First(3)| == 3 && First(3)[1] == Observed()
    ensures forall i :: 0 <= i < 3 ==> !First(3)[i].body.Acted? && (i != 1 ==> !IsOutcome(First(3)[i]))
    ensures forall i :: 0 <= i < 3 ==> First(3)[i].id != AttributionId(TAKEN_OUTCOME, POLICY_VERSION, 3)
  {
    Prefixes();
    hide First;
  }

  lemma ReplacingAdmitted()
    ensures Admit(First(3), Replacing()).Done?
  {
    ScheduledIsTip();
    ThirdRows();
    hide Reachable, Admit, Attribute, EffectiveAttribution, First, Scheduled, Unattributable, Observed, Envelope,
      IsOutcome;
    ResultAdmitted(First(3), (7, 7), Some(Scheduled()));
  }

  lemma StepCreates(k: nat)
    requires k < 4 && k != 2
    ensures NextStep(Example(), First(k)) == Done((First(k + 1), Created))
  {
    ExampleItems();
    StartReachable();
    ReplacingAdmitted();
    Prefixes();
    hide Admit, Ingest, Reachable, CheckSchedule;
    AdmittedIsCreated(First(k), First(k + 1)[k]);
  }

  lemma FirstRowsCheck()
    ensures CheckSchedule(First(2), Example()).Done?
  {
    ExampleItems();
    Prefixes();
    StepCreates(0);
    StepCreates(1);
    hide Admit, Ingest, Reachable, CheckSchedule, NextStep, Rebuild;
    assert Built(Example(), First(2)) by {
      forall k | 0 <= k < 2 ensures BuiltAt(Example(), First(2), k) {
        assert First(2)[..k] == First(k) && First(2)[..k + 1] == First(k + 1);
      }
    }
    assert First(2)[..2] == First(2);
    PrefixChecks(Example(), First(2), 2);
  }

  lemma OperationCreates()
    ensures NextStep(Example(), First(2)) == Done((First(3), Created))
  {
    ScheduledAdmitted();
    Prefixes();
    hide Admit, Ingest, Reachable, CheckSchedule, NextStep, Rebuild, Scheduled, First;
    FirstRowsCheck();
    assert First(3)[2] == Scheduled() && First(3) == First(2) + [Scheduled()];
    AdmittedIsCreated(First(2), Scheduled());
    OperationStep();
  }

  lemma OperationStep()
    requires CheckSchedule(First(2), Example()).Done?
    requires Rebuild(First(2), Example(), Operation(TAKEN_OUTCOME, "account")) == Done(Scheduled())
    requires Ingest(First(2), Scheduled()) == Done((First(3), Created))
    ensures NextStep(Example(), First(2)) == Done((First(3), Created))
  {
    ExampleItems();
    hide Ingest, CheckSchedule, Rebuild;
  }

  lemma {:induction false} RunsThrough(k: nat, verified: bool, answers: seq<Answer>)
    requires k <= 4 && FreshVerified(Example(), k, verified) && AllCreated(answers)
    ensures var r := RunFrom(First(k), Example(), k, 4, verified, answers);
      r.refusal == None && AllCreated(r.answers)
    decreases 4 - k
  {
    hide RunFrom, NextStep;
    ExampleItems();
    if k < 4 {
      if k == 2 {
        OperationCreates();
      } else {
        StepCreates(k);
      }
      StepOfRun(Example(), First(k), 4, verified, answers);
      RunsThrough(k + 1, verified || Example().Items()[k].Attribution?, answers + [Created]);
    } else {
      RunEnds(Example(), First(4), 4, verified, answers);
    }
  }

  /** The schedule completes once, holds a result for the outcome it attributes, and is refused
      by its own entry check when it is run again. */
  lemma CompletesOnce()
    ensures Completes(Example()) && !NoLateResult(Example())
    ensures Perform(Final(Example()), Example(), |Example().Items()|).refusal.Some?
  {
    ExampleItems();
    Prefixes();
    EmptyChecks(Example());
    PerformIs(Example(), [], 4);
    RunsThrough(0, false, []);
    assert IsResultFor(Replacing(), Example().operations[0].outcome, POLICY_VERSION);
    assert ScheduledResult(Example(), Example().stage2[0]);
    hide Perform, Final, RunFrom;
    RepeatsIff(Example());
  }
}
