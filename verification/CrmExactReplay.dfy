/** The main results of the CRM ledger: every accepted decision is reproduced exactly on
    every later ledger, and its lineage is walked to the one root. */
module CrmExactReplay {
  import opened Outcome
  import opened Rules
  import opened CrmModel
  import opened CrmProvenance
  import opened CrmReplay
  import opened CrmMonotone
  import opened CrmReplaySafety
  import E = Evaluator

  // --- The chain walk never fails ----------------------------------------------------------

  /** Nothing recorded before row i has been visited. */
  ghost predicate UnvisitedBelow(db: Db, i: nat, visited: set<EventId>) {
    forall k :: 0 <= k < i && k < |db.decisions| ==> db.decisions[k].id !in visited
  }

  /** The walk from any predecessor ends: each step moves to an earlier row, so the guard
      against cycles never fires. */
  lemma {:induction false} WalkVerifies(db: Db, prior: Option<DecisionRow>, i: nat, visited: set<EventId>)
    requires Inv(db) && i <= |db.decisions| && UnvisitedBelow(db, i, visited)
    requires prior.Some? ==> exists j: nat :: j < i && db.decisions[j] == prior.value
    ensures WalkBack(db, prior, visited) == Done(())
    decreases i
  {
    hide CapturesSound, ListingsSound, RootsSound, HistoryStep, CheckEvaluation;
    if prior.Some? {
      var j: nat :| j < i && db.decisions[j] == prior.value;
      assert RecordSound(db, j);
      var v := HistoryStep(db, prior.value.id).value;
      StepIsRecorded(db, prior.value.id);
      WalkVerifies(db, v.prior, j, visited + {prior.value.id});
    }
  }

  lemma HistoryVerifies(db: Db, i: nat)
    requires Inv(db) && i < |db.decisions|
    ensures VerifiedHistory(db, db.decisions[i].id) == HistoryStep(db, db.decisions[i].id)
    ensures HistoryStep(db, db.decisions[i].id).Done?
  {
    hide CapturesSound, ListingsSound, RootsSound, HistoryStep, CheckEvaluation, WalkBack;
    assert RecordSound(db, i);
    var id := db.decisions[i].id;
    WalkVerifies(db, HistoryStep(db, id).value.prior, i, {id});
  }

  // --- The evaluated and the recorded inputs ---------------------------------------------------

  lemma {:induction false} UsedAreEvaluated(context: seq<Entry>, factors: seq<E.FactorResult<EvidenceId>>)
    ensures AllContributions(UsedInputs(context, factors))
    ensures RecordedTriples(UsedInputs(context, factors)) == EvaluatedTriples(factors)
  {
    if factors != [] {
      var before, f := factors[..|factors| - 1], factors[|factors| - 1];
      UsedAreEvaluated(context, before);
      assert factors == before + [f];
      forall t: Triple ensures t in EvaluatedTriples(factors) <==>
          t in EvaluatedTriples(before) || (f.state == E.Consumed && t == (f.key, f.version, f.contribution))
      {
        if t in EvaluatedTriples(factors) {
          var g :| g in factors && g.state == E.Consumed && t == (g.key, g.version, g.contribution);
          assert g in before || g == f;
        }
        if t in EvaluatedTriples(before) {
          var g :| g in before && g.state == E.Consumed && t == (g.key, g.version, g.contribution);
          assert g in factors;
        }
        if f.state == E.Consumed && t == (f.key, f.version, f.contribution) {
          assert f in factors;
        }
      }
      if f.state == E.Consumed {
        TriplesAppend(UsedInputs(context, before), UsedInputs(context, factors)[|UsedInputs(context, before)|]);
      }
    }
  }

  lemma TriplesAppend(entries: seq<Entry>, e: Entry)
    requires e.mark.Contribution?
    ensures RecordedTriples(entries + [e]) == RecordedTriples(entries) + {(e.key, e.version, e.mark.amount)}
  {
    forall t: Triple
      ensures t in RecordedTriples(entries + [e]) <==>
          t in RecordedTriples(entries) || t == (e.key, e.version, e.mark.amount)
    {
      if t in RecordedTriples(entries + [e]) {
        var x :| x in entries + [e] && x.mark.Contribution? && t == (x.key, x.version, x.mark.amount);
        assert x in entries || x == e;
      }
      if t in RecordedTriples(entries) {
        var x :| x in entries && x.mark.Contribution? && t == (x.key, x.version, x.mark.amount);
        assert x in entries + [e];
      }
      if t == (e.key, e.version, e.mark.amount) {
        assert e in entries + [e];
      }
    }
  }

  lemma TriplesSorted(entries: seq<Entry>)
    ensures RecordedTriples(SortKeyed(entries)) == RecordedTriples(entries)
    ensures AllContributions(SortKeyed(entries)) <==> AllContributions(entries)
  {
    SortKeyedMembers(entries);
    hide SortKeyed;
  }

  lemma RecordedAreEvaluated(consumed: seq<Entry>, context: seq<Entry>, factors: seq<E.FactorResult<EvidenceId>>)
    requires SortKeyed(consumed) == SortKeyed(UsedInputs(context, factors))
    ensures AllContributions(SortKeyed(consumed))
    ensures RecordedTriples(SortKeyed(consumed)) == EvaluatedTriples(factors)
  {
    UsedAreEvaluated(context, factors);
    TriplesSorted(UsedInputs(context, factors));
    hide SortKeyed, UsedInputs, RecordedTriples, EvaluatedTriples, AllContributions;
  }

  // --- Exact reconstruction -----------------------------------------------------------------------

  /** The record's columns are the payload's, and the record names its capture's rules. */
  lemma StepColumns(db: Db, id: EventId)
    requires HistoryStep(db, id).Done?
    ensures var v := HistoryStep(db, id).value;
      && v.row.score == v.payload.score && v.row.threshold == v.payload.threshold && v.row.output == v.payload.output
      && v.row.artifact == v.payload.artifact && v.row.kind == v.payload.kind
      && v.row.logicVersion == v.payload.logicVersion && v.row.evaluatorVersion == v.payload.evaluatorVersion
      && v.row.boundary == v.capture.boundary
      && v.consumed == SortKeyed(v.payload.consumed)
      && CrmDecision(db, id).Done? && CrmDecision(db, id).value.2 == v.row
  {
    hide HistoryStep, CrmDecision, OriginalCapture, SortKeyed, EntriesOf, VerifiedEvent;
    StepParts(db, id);
  }

  /** The reproduction is exact: the recorded score, threshold and output, and as many
      consumed triples, no more and no fewer. */
  ghost predicate Reproduces(db: Db, row: DecisionRow, r: Reconstruction) {
    && r.row == row && r.artifact == row.artifact
    && r.result.score == row.score && r.result.threshold == row.threshold && r.result.output == row.output
    && EvaluatedTriples(r.result.factors) == RecordedTriples(EntriesOf(db.consumed, row.id))
  }

  lemma ReconstructsExactly(db: Db, i: nat)
    requires Inv(db) && i < |db.decisions|
    ensures var r := Reconstruct(db, db.decisions[i].id);
      r.Done? && Reproduces(db, db.decisions[i], r.value)
  {
    hide CapturesSound, ListingsSound, RootsSound, HistoryStep, VerifiedHistory, SortKeyed, EntriesOf, CrmDecision,
      UsedInputs, RecordedTriples, EvaluatedTriples, E.Evaluate, InputsOf, AllContributions;
    var id := db.decisions[i].id;
    assert RecordSound(db, i);
    HistoryVerifies(db, i);
    StepColumns(db, id);
    StepListing(db, id);
    var v := HistoryStep(db, id).value;
    var result := CheckEvaluation(db, v.payload, v.capture, v.context).value;
    RecordedAreEvaluated(v.payload.consumed, v.context, result.factors);
    TriplesSorted(EntriesOf(db.consumed, id));
  }

  lemma StepListing(db: Db, id: EventId)
    requires HistoryStep(db, id).Done?
    ensures HistoryStep(db, id).value.consumed == SortKeyed(EntriesOf(db.consumed, id))
  {
    hide HistoryStep, CrmDecision, OriginalCapture, SortKeyed, EntriesOf, VerifiedEvent;
    StepParts(db, id);
  }

  /** A reconstruction reads the same on every later sound ledger. */
  lemma ReconstructionKept(a: Db, b: Db, i: nat)
    requires Inv(a) && Inv(b) && Extends(a, b) && i < |a.decisions|
    ensures Reconstruct(b, a.decisions[i].id) == Reconstruct(a, a.decisions[i].id)
  {
    hide Inv, Extends, HistoryStep, VerifiedHistory, CrmDecision, InputsOf, E.Evaluate, CompareWithRecorded,
      VersionsStored;
    var id := a.decisions[i].id;
    DecisionsKept(a, b);
    HistoryVerifies(a, i);
    HistoryVerifies(b, i);
    StepKept(a, b, id);
    StepStored(a, id);
    InputsKept(a, b, HistoryStep(a, id).value.context);
    StepColumns(a, id);
    DecisionKept(a, b, id);
    ReconstructsExactly(a, i);
    ArtifactsKept(a, b);
  }

  lemma ArtifactsKept(a: Db, b: Db)
    requires Extends(a, b)
    ensures forall h :: VerifyArtifact(a, h).Done? ==> VerifyArtifact(b, h) == VerifyArtifact(a, h)
  {
  }

  /** A ledger after any further events, each admitted or refused. */
  ghost function Grow(db: Db, events: seq<Event>): Db
    decreases |events|
  {
    if events == [] then db else Grow(if Accepts(db, events[0]) then Project(db, events[0]) else db, events[1..])
  }

  lemma {:induction false} GrowKeeps(db: Db, events: seq<Event>)
    requires Inv(db)
    ensures Inv(Grow(db, events)) && Extends(db, Grow(db, events))
    decreases |events|
  {
    hide Inv, Extends, Accepts;
    if events == [] {
      ExtendsSelf(db);
    } else {
      var next := if Accepts(db, events[0]) then Project(db, events[0]) else db;
      if Accepts(db, events[0]) {
        AcceptKeepsInv(db, events[0]);
        ProjectExtends(db, events[0]);
      } else {
        ExtendsSelf(db);
      }
      GrowKeeps(next, events[1..]);
      ExtendsTransitive(db, next, Grow(next, events[1..]));
    }
  }

  lemma ExtendsSelf(db: Db)
    ensures Extends(db, db)
  {
  }

  lemma ExtendsTransitive(a: Db, b: Db, c: Db)
    requires Extends(a, b) && Extends(b, c)
    ensures Extends(a, c)
  {
    forall i | 0 <= i < |a.decisions| ensures ListingsKept(a, c, a.decisions[i].id) {
      assert ListingsKept(a, b, a.decisions[i].id);
      assert b.decisions[i] == a.decisions[i];
      assert ListingsKept(b, c, b.decisions[i].id);
    }
  }

  /** An accepted decision is reproduced exactly from the moment it is written, on every
      ledger reachable afterwards, always with the same result. */
  lemma AcceptedForever(db: Db, e: Event, later: seq<Event>)
    requires Inv(db) && Accepts(db, e) && e.body.DecisionRecorded?
    ensures var written := Project(db, e);
      var r := Reconstruct(Grow(written, later), e.id);
      var p := e.body.payload;
      && r.Done? && r == Reconstruct(written, e.id)
      && r.value.row.id == e.id && r.value.artifact == p.artifact
      && r.value.result.score == p.score && r.value.result.threshold == p.threshold && r.value.result.output == p.output
      && EvaluatedTriples(r.value.result.factors) == RecordedTriples(p.consumed)
  {
    hide Inv, Extends, Accepts, Reconstruct, Project, RecordedTriples, EvaluatedTriples, EntriesOf;
    var written := Project(db, e);
    AcceptKeepsInv(db, e);
    GrowKeeps(written, later);
    var i := |db.decisions|;
    DecisionsGrow(db, e);
    ReconstructsExactly(written, i);
    ReconstructionKept(written, Grow(written, later), i);
    FreshWhenAccepted(db, e);
    AcceptedListings(db, e);
  }

  lemma FreshWhenAccepted(db: Db, e: Event)
    requires Accepts(db, e)
    ensures FindEvent(db.events, e.id) == None
  {
  }

  // --- Lineages ---------------------------------------------------------------------------------------

  /** A chain of rows, each the verified predecessor of the one before, down to a root. */
  ghost predicate Lineage(db: Db, chain: seq<nat>) {
    && chain != [] && (forall k :: 0 <= k < |chain| ==> chain[k] < |db.decisions|)
    && (forall k :: 1 <= k < |chain| ==> Link(db, chain[k - 1], chain[k]))
    && PriorOf(db, chain[|chain| - 1]) == None
  }

  /** Row b is the verified predecessor of row a, captured earlier for the same observation. */
  ghost predicate Link(db: Db, a: nat, b: nat) {
    a < |db.decisions| && Precedes(db, b, a) && PriorOf(db, a) == Some(db.decisions[b])
  }

  ghost function PriorOf(db: Db, i: nat): Option<DecisionRow>
    requires i < |db.decisions|
  {
    var step := HistoryStep(db, db.decisions[i].id);
    if step.Done? then step.value.prior else None
  }

  /** Every recorded decision has a lineage of strictly earlier captures of the same
      observation, ending at that observation's only root. */
  lemma {:induction false} LineageReachesRoot(db: Db, i: nat) returns (chain: seq<nat>)
    requires Inv(db) && i < |db.decisions|
    ensures Lineage(db, chain) && chain[0] == i
    ensures var root := chain[|chain| - 1];
      && RootOf(db.decisions[root], db.decisions[i])
      && forall r :: 0 <= r < |db.decisions| && RootOf(db.decisions[r], db.decisions[i]) ==> r == root
    decreases i
  {
    hide CapturesSound, ListingsSound, IdsUnique, HistoryStep, CheckEvaluation;
    assert RecordSound(db, i);
    var v := HistoryStep(db, db.decisions[i].id).value;
    if v.prior.None? {
      chain := [i];
    } else {
      var j: nat :| Precedes(db, j, i) && db.decisions[j] == v.prior.value;
      var rest := LineageReachesRoot(db, j);
      chain := [i] + rest;
      LineageExtends(db, i, j, rest);
    }
  }

  lemma LineageExtends(db: Db, i: nat, j: nat, rest: seq<nat>)
    requires i < |db.decisions| && Precedes(db, j, i) && PriorOf(db, i) == Some(db.decisions[j])
    requires Lineage(db, rest) && rest[0] == j
    ensures Lineage(db, [i] + rest)
  {
    hide PriorOf;
    var chain := [i] + rest;
    assert Link(db, i, j);
    hide Link;
    forall k | 1 <= k < |chain| ensures Link(db, chain[k - 1], chain[k]) {
      assert chain[k] == rest[k - 1];
      if k > 1 {
        assert chain[k - 1] == rest[k - 2];
        assert Link(db, rest[k - 2], rest[k - 1]);
      }
    }
  }
}
