/** A decision that is accepted and does not replay: it was recorded with a score its rules
    cannot give. */
module DecisionExample {
  import opened Outcome
  import opened Ledger
  import opened Collector
  import D = DecisionRecords
  import P = DecisionReplay
  import AttributionRunSafety
  import AttributionSafety
  import E = Evaluator
  import R = Rules

  function Logic(): E.Artifact {
    E.Artifact(
      "artifact", "v1", PRIORITIZATION, E.EVALUATOR_VERSION, E.MISSING_BEHAVIOR,
      [E.Factor("industry", "industry equals 'saas'", 10)], 10, "PRIORITIZE", "DO_NOT_PRIORITIZE")
  }

  function Minted(): EvidenceItem {
    EvidenceItem("version", "industry", R.TextValue("saas"), None, None, None)
  }

  function Kept(): ContextEntry {
    ContextEntry("industry", true, R.TextValue("saas"), Some("version"))
  }

  /** The weights add up to ten, and ninety-nine was recorded. */
  function Recorded(): DecisionRecord {
    DecisionRecord(
      [Kept()], [UsedInput("industry", R.TextValue("saas"), "version", 10)], Logic(), "artifact", "v1",
      E.EVALUATOR_VERSION, 99, 10, "PRIORITIZE")
  }

  function Discovery(): Event {
    Event(Named("discovery"), "account", 0, 0, Discovered("name", "domain"))
  }

  function Registration(): Event {
    Event(Named("registration"), SYSTEM_ACCOUNT, 0, 0, ArtifactRegistered(Logic()))
  }

  function Evidence(): Event {
    Event(Named("evidence"), "account", 0, 0, EvidenceRecorded("source", [Minted()]))
  }

  function Decision(): Event {
    Event(Named("decision"), "account", 1, 1, Decided(PRIORITIZATION, 1, "workflow", Recorded()))
  }

  function Example(): Ledger {
    [Discovery(), Registration(), Evidence(), Decision()]
  }

  lemma Wire()
    ensures WireValid(Discovery()) && WireValid(Registration()) && WireValid(Evidence()) && WireValid(Decision())
  {
    assert Kept() in Recorded().context by { assert Recorded().context[0] == Kept(); }
  }

  lemma Fresh(i: nat)
    requires i < 4
    ensures Find(Example()[..i], Example()[i].id) == None
  {
    hide Recorded, Minted, Logic;
  }

  lemma AccountKnown(i: nat)
    requires 0 < i < 4
    ensures AccountRow(Example()[..i], "account") == Some(("name", "domain"))
  {
    hide Recorded, Minted, Logic;
    var l := Example();
    assert l[..i] == l[..1] + l[1..i] && l[..1][..0] == [];
    AttributionRunSafety.AccountRowAppend(l[..1], l[1..i], "account");
  }

  lemma EvidenceFound()
    ensures D.FindVersion(Example()[..2], "version") == None
    ensures D.FindVersion(Example()[..3], "version") == Some(D.RowOf(Evidence(), Minted()))
  {
    hide Recorded, Logic;
    var l := Example();
    assert l[..0] == [] && l[..1][..0] == l[..0] && l[..2][..1] == l[..1] && l[..3][..2] == l[..2];
    assert D.FindVersion(l[..1], "version") == None;
    assert D.FindVersion(l[..2], "version") == None;
  }

  lemma References()
    ensures D.CheckArtifact(Example()[..1], Logic()).Done?
    ensures D.CheckItems(Example()[..2], Evidence(), [Minted()]).Done?
    ensures D.CheckDecision(Example()[..3], Decision()).Done?
  {
    EvidenceFound();
    hide D.FindVersion, Logic;
    assert D.RegisteredAt(Example()[..3], 1, Logic());
    assert D.CheckReference(Example()[..3], "account", 1, "industry", "version", R.TextValue("saas")).Done?;
    LogicNames();
    hide D.CheckReference, D.Registered, Example;
    assert D.CheckContext(Example()[..3], "account", 1, [Kept()][1..]).Done?;
  }

  lemma LogicNames()
    ensures Logic().id == "artifact" && Logic().logicVersion == "v1" && Logic().evaluatorVersion == E.EVALUATOR_VERSION
    ensures Logic().kind == PRIORITIZATION
  {
  }

  lemma ExampleReachable()
    ensures Reachable(Example())
  {
    forall i | 0 <= i < 4 ensures Admit(Example()[..i], Example()[i]).Done? {
      OneAdmitted(i);
    }
    hide Admit;
  }

  lemma OneAdmitted(i: nat)
    requires i < 4
    ensures Admit(Example()[..i], Example()[i]).Done?
  {
    Wire();
    Fresh(i);
    References();
    if i > 0 {
      AccountKnown(i);
    }
    var l, e := Example()[..i], Example()[i];
    hide WireValid, Find, AccountRow, D.CheckArtifact, D.CheckItems, D.CheckDecision, Recorded, Logic, Minted;
    AttributionRunSafety.AdmitMeans(l, e);
  }

  /** The decision is on a ledger the collector can hold, and is never reproduced: no context
      scores above the positive weights of its artifact. */
  lemma WrongScoreNeverReplays(more: Ledger)
    ensures Reachable(Example()) && Example()[3].body.Decided?
    ensures P.Reconstruct(Example() + more, Decision().id).Refused?
  {
    ExampleReachable();
    hide Reachable, P.Reconstruct, P.Preserved, E.Evaluate;
    P.ReconstructIff(Example(), 3);
    P.ReconstructKept(Example(), more, 3);
    if E.Evaluate(Logic(), P.Preserved(Example(), Decision()), 1).Done? {
      E.BoundIsSound(Logic(), P.Preserved(Example(), Decision()), 1);
      WeightsBelow();
    }
  }

  lemma WeightsBelow()
    ensures E.PositiveBound(Logic().factors) == 10
  {
    assert Logic().factors[..0] == [];
  }
}
