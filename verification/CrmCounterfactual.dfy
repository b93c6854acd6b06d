/** Replaying a recorded CRM decision under another registered artifact, over exactly the
    preserved context. */
module CrmCounterfactual {
  import opened Outcome
  import opened CrmModel
  import opened CrmProvenance
  import opened CrmReplay
  import opened CrmMonotone
  import opened CrmReplaySafety
  import opened CrmExactReplay
  import C = Counterfactual
  import E = Evaluator

  datatype Counterfactual = Counterfactual(original: Reconstruction, current: E.Artifact,
    result: E.Evaluation<EvidenceId>)

  /** The original must reproduce exactly before anything counterfactual is computed. */
  function Replay(db: Db, id: EventId, current: E.Artifact): Outcome<Counterfactual> {
    var original :- Reconstruct(db, id);
    var artifact :- VerifyArtifact(db, current);
    var _ :- Require(artifact.kind == original.row.kind, "decision_class");
    var history :- VerifiedHistory(db, id);
    var result :- E.Evaluate(artifact, InputsOf(db, history.context), original.row.boundary);
    Done(Counterfactual(original, artifact, result))
  }

  /** Registration admits only well-formed artifacts. */
  ghost predicate Formed(db: Db) {
    forall a :: a in db.artifacts ==> E.WellFormed(a)
  }

  lemma {:induction false} GrowKeepsFormed(db: Db, events: seq<Event>)
    requires Formed(db)
    ensures Formed(Grow(db, events))
    decreases |events|
  {
    hide Accepts, Project, Formed;
    if events != [] {
      if Accepts(db, events[0]) {
        ProjectKeepsFormed(db, events[0]);
        GrowKeepsFormed(Project(db, events[0]), events[1..]);
      } else {
        GrowKeepsFormed(db, events[1..]);
      }
    }
  }

  lemma ProjectKeepsFormed(db: Db, e: Event)
    requires Formed(db) && Accepts(db, e)
    ensures Formed(Project(db, e))
  {
    hide FindEvent, Validate, WithCapture, MintedRows, Listing, DecisionRowOf, CaptureValid, ItemsBound, KeysUnique,
      E.WellFormed;
    assert e.body.ArtifactRegistered? ==> E.WellFormed(e.body.artifact);
  }

  /** A reconstruction evaluated the recorded artifact over the preserved context. */
  lemma ReconstructionEvaluates(db: Db, id: EventId)
    requires Reconstruct(db, id).Done?
    ensures var r := Reconstruct(db, id).value;
      && VerifiedHistory(db, id).Done?
      && E.Evaluate(r.artifact, InputsOf(db, VerifiedHistory(db, id).value.context), r.row.boundary) == Done(r.result)
      && r.artifact == r.row.artifact && r.artifact in db.artifacts
  {
    hide VerifiedHistory, CrmDecision, CompareWithRecorded, E.Evaluate, InputsOf;
  }

  /** The comparison of a replay with the record explains the whole difference: the changes
      over all factor keys add up to the counterfactual score less the recorded one, and a
      key both artifacts have is classified by their text alone. */
  lemma ReplayExplained(db: Db, i: nat, current: E.Artifact)
    requires Inv(db) && Formed(db) && i < |db.decisions| && Replay(db, db.decisions[i].id, current).Done?
    ensures var row := db.decisions[i];
      var r := Replay(db, row.id, current).value;
      var c := C.Compare(r.original.result, r.result);
      && C.Deltas(c.contributions) == c.scoreDelta == r.result.score - row.score
      && forall a: nat, b: nat :: SharedKey(row.artifact, current, a, b) ==>
           ByText(row.artifact.factors[a], current.factors[b],
             C.ContributionAt(r.original.result, r.result, current.factors[b].key))
  {
    hide Inv, Reconstruct, VerifiedHistory, E.Evaluate, InputsOf, E.WellFormed, C.Compare, C.ContributionAt, ByText;
    var row := db.decisions[i];
    ReconstructsExactly(db, i);
    ReconstructionEvaluates(db, row.id);
    var context := InputsOf(db, VerifiedHistory(db, row.id).value.context);
    var r := Replay(db, row.id, current).value;
    C.CounterfactualExplained(row.artifact, current, context, row.boundary);
    assert C.Compare(r.original.result, r.result).scoreDelta == r.result.score - row.score by {
      DeltaIs(r.original.result, r.result);
    }
    forall a: nat, b: nat | SharedKey(row.artifact, current, a, b)
      ensures ByText(row.artifact.factors[a], current.factors[b],
          C.ContributionAt(r.original.result, r.result, current.factors[b].key))
    {
      C.ClassificationFollowsText(row.artifact, current, context, row.boundary, a, b);
      ClassifiedByText(row.artifact.factors[a], current.factors[b],
        C.ContributionAt(r.original.result, r.result, current.factors[b].key));
    }
  }

  lemma DeltaIs(x: E.Evaluation<EvidenceId>, y: E.Evaluation<EvidenceId>)
    ensures C.Compare(x, y).scoreDelta == y.score - x.score
  {
  }

  predicate SharedKey(recorded: E.Artifact, current: E.Artifact, a: nat, b: nat) {
    a < |recorded.factors| && b < |current.factors| && recorded.factors[a].key == current.factors[b].key
  }

  predicate ByText(was: E.Factor, now: E.Factor, c: C.Contribution<EvidenceId>) {
    && (c.change == C.Changed <==> was.rule != now.rule)
    && (c.change == C.Reweighted <==> was.rule == now.rule && was.weight != now.weight)
    && (c.change == C.SameAsBefore <==> was == now)
    && (c.change == C.SameAsBefore ==> c.delta == 0)
  }

  lemma ClassifiedByText(was: E.Factor, now: E.Factor, c: C.Contribution<EvidenceId>)
    requires c.change == C.Changed <==> was.rule != now.rule
    requires c.change == C.Reweighted <==> was.rule == now.rule && was.weight != now.weight
    requires c.change == C.SameAsBefore <==> was == now
    requires c.change == C.SameAsBefore ==> c.delta == 0
    ensures ByText(was, now, c)
  {
  }

  /** A counterfactual is the same on every later sound ledger. */
  lemma ReplayKept(a: Db, b: Db, i: nat, current: E.Artifact)
    requires Inv(a) && Inv(b) && Extends(a, b) && i < |a.decisions| && Replay(a, a.decisions[i].id, current).Done?
    ensures Replay(b, a.decisions[i].id, current) == Replay(a, a.decisions[i].id, current)
  {
    hide Inv, Extends, Reconstruct, VerifiedHistory, HistoryStep, InputsOf, E.Evaluate, VersionsStored;
    var id := a.decisions[i].id;
    DecisionsKept(a, b);
    ReconstructionKept(a, b, i);
    HistoryVerifies(a, i);
    HistoryVerifies(b, i);
    StepKept(a, b, id);
    StepStored(a, id);
    InputsKept(a, b, HistoryStep(a, id).value.context);
    ArtifactsKept(a, b);
  }
}
