/** Acceptance implies perpetual exact reconstruction, and every reprocessing lineage is
    a tree walked to its one root. */
module CrmReplaySafety {
  import opened Outcome
  import opened Rules
  import opened CrmModel
  import opened CrmProvenance
  import opened CrmReplay
  import opened CrmMonotone
  import C = Counterfactual
  import E = Evaluator

  /** The event is admitted as a new row by every check that concerns captures, evidence
      and decisions. Operation observations have further checks of their own. */
  ghost predicate Accepts(db: Db, e: Event) {
    WireValid(e) && FindEvent(db.events, e.id) == None && Validate(db, e).Done?
  }

  // --- The invariant -----------------------------------------------------------------------

  /** A capture row and its minting event agree. */
  ghost predicate CaptureSound(events: seq<Event>, row: CaptureRow) {
    && CaptureValid(row.capture) && AccountOf(row.capture) == row.account
    && VerifiedEvent(events, row.source).Done?
    && var e := VerifiedEvent(events, row.source).value;
      IsCrm(e) && e.account == row.account && CaptureOf(e) == row.capture
  }

  ghost predicate CapturesSound(events: seq<Event>, captures: seq<CaptureRow>) {
    forall i :: 0 <= i < |captures| ==> CaptureSound(events, captures[i])
  }

  /** Only recorded decisions have listings. */
  ghost predicate ListingsSound(events: seq<Event>, rows: seq<Listed>) {
    forall i :: 0 <= i < |rows| ==> FindEvent(events, rows[i].decision).Some?
  }

  /** Decision row i verifies, evaluates as recorded, and follows its predecessor. */
  ghost predicate RecordSound(db: Db, i: nat)
    requires i < |db.decisions|
  {
    hide HistoryStep, CheckEvaluation;
    var row := db.decisions[i];
    && HistoryStep(db, row.id).Done?
    && var v := HistoryStep(db, row.id).value;
    && v.row == row
    && CheckEvaluation(db, v.payload, v.capture, v.context).Done?
    && (v.prior.None? <==> row.reprocesses.None?)
    && (v.prior.Some? ==> exists j: nat :: Precedes(db, j, i) && db.decisions[j] == v.prior.value)
  }

  /** Row j is an earlier decision of the same account and observation, captured earlier. */
  predicate Precedes(db: Db, j: nat, i: nat)
    requires i < |db.decisions|
  {
    && j < i
    && db.decisions[j].account == db.decisions[i].account
    && db.decisions[j].logical == db.decisions[i].logical
    && db.decisions[j].capture.sequence < db.decisions[i].capture.sequence
  }

  ghost predicate RecordsSound(db: Db) {
    forall i :: 0 <= i < |db.decisions| ==> RecordSound(db, i)
  }

  /** One root for each account and observation: the row that reprocesses nothing comes first. */
  ghost predicate RootsSound(decisions: seq<DecisionRow>) {
    forall i, j :: 0 <= i < |decisions| && 0 <= j < |decisions| && i != j && RootOf(decisions[i], decisions[j]) ==>
      i < j && decisions[j].reprocesses.Some?
  }

  predicate RootOf(root: DecisionRow, row: DecisionRow) {
    root.account == row.account && root.logical == row.logical && root.reprocesses.None?
  }

  ghost predicate IdsUnique(decisions: seq<DecisionRow>) {
    forall i, j :: 0 <= i < j < |decisions| ==> decisions[i].id != decisions[j].id
  }

  ghost predicate Inv(db: Db) {
    && CapturesSound(db.events, db.captures)
    && ListingsSound(db.events, db.context) && ListingsSound(db.events, db.consumed)
    && IdsUnique(db.decisions) && RootsSound(db.decisions)
    && RecordsSound(db)
  }

  lemma EmptyInv()
    ensures Inv(EMPTY)
  {
  }

  // --- Appending ------------------------------------------------------------------------------

  lemma {:induction false} EntriesFresh(rows: seq<Listed>, events: seq<Event>, id: EventId)
    requires ListingsSound(events, rows) && FindEvent(events, id) == None
    ensures EntriesOf(rows, id) == []
  {
    if rows != [] {
      EntriesFresh(rows[..|rows| - 1], events, id);
    }
  }

  lemma {:induction false} EntriesAppend(
    rows: seq<Listed>, more: seq<Listed>, id: EventId, entries: seq<Entry>, other: EventId)
    requires more == Listing(other, entries)
    ensures EntriesOf(rows + more, id) == if id == other then EntriesOf(rows, id) + entries else EntriesOf(rows, id)
    decreases |entries|
  {
    if entries == [] {
      assert rows + more == rows;
    } else {
      var init := entries[..|entries| - 1];
      assert more[..|more| - 1] == Listing(other, init);
      EntriesAppend(rows, more[..|more| - 1], id, init, other);
      assert (rows + more)[..|rows + more| - 1] == rows + more[..|more| - 1];
    }
  }

  lemma {:induction false} FindAppended(events: seq<Event>, e: Event)
    requires FindEvent(events, e.id) == None
    ensures FindEvent(events + [e], e.id) == Some(|events|)
  {
    assert (events + [e])[..|events|] == events;
  }

  lemma {:induction false} DecisionAppended(rows: seq<DecisionRow>, row: DecisionRow, q: Question)
    requires Answers(row, q) && FindDecision(rows, q) == None
    ensures FindDecision(rows + [row], q) == Some(row)
  {
    assert (rows + [row])[..|rows|] == rows;
  }

  lemma {:induction false} CaptureAppended(rows: seq<CaptureRow>, row: CaptureRow)
    requires FindCapture(rows, row.capture) == None
    ensures FindCapture(rows + [row], row.capture) == Some(row)
  {
    assert (rows + [row])[..|rows|] == rows;
  }

  /** A recorded decision's event is found, so a fresh event names no recorded decision. */
  lemma RecordedIsFound(db: Db, i: nat)
    requires RecordsSound(db) && i < |db.decisions|
    ensures FindEvent(db.events, db.decisions[i].id).Some? && db.decisions[i].id.DecisionId?
  {
    hide HistoryStep, CheckEvaluation;
    assert RecordSound(db, i);
    StepFound(db, db.decisions[i].id);
  }

  lemma StepFound(db: Db, id: EventId)
    requires HistoryStep(db, id).Done?
    ensures FindEvent(db.events, id).Some? && id.DecisionId?
    ensures HistoryStep(db, id).value.row.id == id
    ensures HistoryStep(db, id).value.row.unit == UnitOf(HistoryStep(db, id).value.capture)
    ensures id == DecisionId(HistoryStep(db, id).value.row.unit)
  {
    hide HistoryStep, OriginalCapture, CheckContext, CheckPredecessor, SortKeyed, EntriesOf, FindEvent, FindDecision,
      WireValid;
    StepParts(db, id);
    WireDecision(VerifiedEvent(db.events, id).value);
  }

  lemma ProjectExtends(db: Db, e: Event)
    requires Inv(db) && Accepts(db, e)
    ensures Extends(db, Project(db, e))
  {
    hide RootsSound, IdsUnique, CapturesSound, RecordSound, ListingsSound, Validate, WireValid, EntriesOf, FindEvent;
    var db' := Project(db, e);
    forall i | 0 <= i < |db.decisions| ensures ListingsKept(db, db', db.decisions[i].id) {
      RecordedIsFound(db, i);
      if e.body.DecisionRecorded? {
        EntriesAppend(db.context, Listing(e.id, e.body.payload.context), db.decisions[i].id, e.body.payload.context,
          e.id);
        EntriesAppend(db.consumed, Listing(e.id, e.body.payload.consumed), db.decisions[i].id,
          e.body.payload.consumed, e.id);
      }
    }
  }

  lemma RecordKept(a: Db, b: Db, i: nat)
    requires Extends(a, b) && i < |a.decisions| && RecordSound(a, i)
    ensures RecordSound(b, i)
  {
    hide HistoryStep, CheckEvaluation, CheckContext, VersionsStored, Extends;
    DecisionsKept(a, b);
    var id := a.decisions[i].id;
    var v := HistoryStep(a, id).value;
    StepKept(a, b, id);
    StepStored(a, id);
    EvaluationKept(a, b, v.payload, v.capture, v.context);
    if v.prior.Some? {
      var j: nat :| Precedes(a, j, i) && a.decisions[j] == v.prior.value;
      assert Precedes(b, j, i) && b.decisions[j] == v.prior.value;
    }
  }

  lemma DecisionsKept(a: Db, b: Db)
    requires Extends(a, b)
    ensures |a.decisions| <= |b.decisions| && forall i :: 0 <= i < |a.decisions| ==> b.decisions[i] == a.decisions[i]
  {
  }

  lemma StepStored(db: Db, id: EventId)
    requires HistoryStep(db, id).Done?
    ensures VersionsStored(db, HistoryStep(db, id).value.context)
  {
    hide HistoryStep, ExpectedContext, SortKeyed, VersionsStored;
    StepContext(db, id);
    var v := HistoryStep(db, id).value;
    SortSorted(v.context);
    ContextIsStored(db, v.row.account, v.capture, v.context);
  }

  lemma ContextIsStored(db: Db, account: Account, cap: Capture, x: seq<Entry>)
    requires CheckContext(db, account, cap, x).Done?
    ensures CheckContext(db, account, cap, x).value == SortKeyed(x)
    ensures VersionsStored(db, SortKeyed(x))
  {
    hide ExpectedContext, VersionsStored, SortKeyed;
    ExpectedStored(db, account, cap, cap.inputs, x);
  }

  lemma CapturesKept(a: seq<Event>, b: seq<Event>, captures: seq<CaptureRow>)
    requires a <= b && CapturesSound(a, captures)
    ensures CapturesSound(b, captures)
  {
    hide VerifiedEvent, CaptureValid;
    forall i | 0 <= i < |captures| ensures CaptureSound(b, captures[i]) {
      assert CaptureSound(a, captures[i]);
      VerifiedEventKept(a, b, captures[i].source);
    }
  }

  lemma ListingsGrow(a: seq<Event>, b: seq<Event>, rows: seq<Listed>, id: EventId, entries: seq<Entry>)
    requires a <= b && ListingsSound(a, rows) && FindEvent(b, id).Some?
    ensures ListingsSound(b, rows + Listing(id, entries)) && ListingsSound(b, rows)
  {
    hide FindEvent;
    forall i | 0 <= i < |rows| ensures FindEvent(b, rows[i].decision).Some? {
      FindEventKept(a, b, rows[i].decision);
    }
  }

  /** The new capture row, or the one already bound, is sound and found. */
  lemma CaptureBound(db: Db, e: Event)
    requires CapturesSound(db.events, db.captures) && WireValid(e) && IsCrm(e) && FindEvent(db.events, e.id) == None
    requires CaptureAgrees(db.captures, e.account, CaptureOf(e))
    ensures var rows := WithCapture(db.captures, e.account, CaptureOf(e), e.id);
      && CapturesSound(db.events + [e], rows)
      && FindCapture(rows, CaptureOf(e)).Some?
      && CaptureSound(db.events + [e], FindCapture(rows, CaptureOf(e)).value)
      && FindCapture(rows, CaptureOf(e)).value.account == e.account
  {
    var events, cap := db.events + [e], CaptureOf(e);
    CapturesKept(db.events, events, db.captures);
    FindAppended(db.events, e);
    NewCaptureSound(events, e);
    hide CaptureSound, WireValid, FindEvent;
    var rows := WithCapture(db.captures, e.account, cap, e.id);
    var found := FindCapture(db.captures, cap);
    if found.Some? {
      var i :| 0 <= i < |db.captures| && db.captures[i] == found.value;
      assert Touches(db.captures[i], e.account, cap);
    } else {
      CaptureAppended(db.captures, CaptureRow(cap, e.account, e.id));
    }
  }

  lemma NewCaptureSound(events: seq<Event>, e: Event)
    requires WireValid(e) && IsCrm(e) && FindEvent(events, e.id).Some? && events[FindEvent(events, e.id).value] == e
    ensures CaptureSound(events, CaptureRow(CaptureOf(e), e.account, e.id))
  {
    hide CaptureValid, ItemsBound, KeysUnique, FindEvent;
  }

  lemma SoundIsOriginal(db: Db, cap: Capture)
    requires FindCapture(db.captures, cap).Some? && CaptureSound(db.events, FindCapture(db.captures, cap).value)
    ensures OriginalCapture(db, cap) == Done(FindCapture(db.captures, cap).value)
  {
    hide VerifiedEvent, CaptureValid, FindCapture;
  }

  // --- Accepting a decision ------------------------------------------------------------------------

  /** What the lineage check established reads back as the predecessor. */
  lemma LineageReads(db: Db, account: Account, cap: Capture, row: DecisionRow)
    requires CheckLineage(db, account, cap).Done? && row.account == account && row.capture == cap
    ensures CheckPredecessor(db, row, cap).Done?
    ensures CheckPredecessor(db, row, cap).value.None? <==> cap.reprocesses.None?
    ensures cap.reprocesses.Some? ==>
      && CheckPredecessor(db, row, cap).value == FindDecision(db.decisions, OfUnit(cap.reprocesses.value))
      && var prior := CheckPredecessor(db, row, cap).value.value;
      && prior in db.decisions && prior.account == account && prior.logical == cap.observed
      && prior.capture.sequence < cap.sequence
  {
    hide VerifiedEvent, FindDecision;
    if cap.reprocesses.Some? {
      var prior := FindDecision(db.decisions, OfUnit(cap.reprocesses.value)).value;
      CapturedIs(db, prior.capture);
    }
    hide OriginalCapture;
  }

  /** The new decision's own record verifies on the ledger it was just written to. */
  lemma AcceptedStep(db: Db, e: Event)
    requires Inv(db) && Accepts(db, e) && e.body.DecisionRecorded?
    ensures var (db', p, cap) := (Project(db, e), e.body.payload, e.body.capture);
      && HistoryStep(db', e.id).Done?
      && var v := HistoryStep(db', e.id).value;
      && v.row == DecisionRowOf(e, |db.events| + 1) && v.payload == p && v.capture == cap
      && CheckContext(db, e.account, cap, p.context) == Done(v.context)
      && CheckPredecessor(db, v.row, cap) == Done(v.prior)
  {
    hide CapturesSound, ListingsSound, RecordsSound, RootsSound, IdsUnique, Extends, CheckEvaluation, SortKeyed,
      FindEvent, FindCapture, FindDecision, OriginalCapture, EntriesOf, CaptureAgrees, CaptureSound, KeysUnique,
      CheckLineage, CheckContext, CheckPredecessor, VerifiedEvent, Listing, WithCapture, HistoryStep;
    var (db', p, cap) := (Project(db, e), e.body.payload, e.body.capture);
    ProjectExtends(db, e);
    AcceptedListings(db, e);
    AcceptedFound(db, e);
    CaptureBound(db, e);
    SoundIsOriginal(db', cap);
    CapturedIs(db', cap);
    var row := DecisionRowOf(e, |db.events| + 1);
    assert CheckLineage(db, e.account, cap).Done? && CheckContext(db, e.account, cap, p.context).Done?;
    ContextKept(db, db', e.account, cap, p.context, SortKeyed(p.context));
    LineageReads(db, e.account, cap, row);
    PredecessorKept(db, db', row, cap);
    StepBuilds(db', e.id, |db.events|, e, row, CheckPredecessor(db, row, cap).value);
  }

  lemma AcceptedListings(db: Db, e: Event)
    requires Inv(db) && FindEvent(db.events, e.id) == None && e.body.DecisionRecorded?
    ensures EntriesOf(Project(db, e).context, e.id) == e.body.payload.context
    ensures EntriesOf(Project(db, e).consumed, e.id) == e.body.payload.consumed
  {
    hide CapturesSound, RecordsSound, RootsSound, IdsUnique, ListingsSound, EntriesOf, FindEvent, Listing;
    var p := e.body.payload;
    EntriesFresh(db.context, db.events, e.id);
    EntriesFresh(db.consumed, db.events, e.id);
    EntriesAppend(db.context, Listing(e.id, p.context), e.id, p.context, e.id);
    EntriesAppend(db.consumed, Listing(e.id, p.consumed), e.id, p.consumed, e.id);
    assert [] + p.context == p.context && [] + p.consumed == p.consumed;
  }

  lemma AcceptedFound(db: Db, e: Event)
    requires Inv(db) && Accepts(db, e) && e.body.DecisionRecorded?
    ensures var db' := Project(db, e);
      && FindEvent(db'.events, e.id) == Some(|db.events|) && db'.events[|db.events|] == e
      && FindDecision(db'.decisions, OfId(e.id)) == Some(DecisionRowOf(e, |db.events| + 1))
      && VerifiedEvent(db'.events, e.id) == Done(e)
  {
    hide Inv, Validate, WireValid, FindEvent, FindDecision, Listing, WithCapture;
    FindAppended(db.events, e);
    FreshDecision(db, e.id);
    DecisionAppended(db.decisions, DecisionRowOf(e, |db.events| + 1), OfId(e.id));
  }

  lemma FreshDecision(db: Db, id: EventId)
    requires Inv(db) && FindEvent(db.events, id) == None
    ensures FindDecision(db.decisions, OfId(id)) == None
  {
    hide CapturesSound, ListingsSound, RecordsSound, RootsSound, IdsUnique, FindEvent, FindDecision;
    forall i | 0 <= i < |db.decisions| ensures !Answers(db.decisions[i], OfId(id)) {
      RecordedIsFound(db, i);
    }
    NoDecision(db.decisions, OfId(id));
  }

  lemma {:induction false} NoDecision(rows: seq<DecisionRow>, q: Question)
    requires forall i :: 0 <= i < |rows| ==> !Answers(rows[i], q)
    ensures FindDecision(rows, q) == None
  {
    if rows != [] {
      NoDecision(rows[..|rows| - 1], q);
    }
  }

  lemma AcceptedRecord(db: Db, e: Event)
    requires Inv(db) && Accepts(db, e) && e.body.DecisionRecorded?
    ensures RecordSound(Project(db, e), |db.decisions|)
  {
    hide CapturesSound, ListingsSound, RecordsSound, RootsSound, IdsUnique, Extends, SortKeyed, WireValid,
      HistoryStep, FindEvent, FindDecision, CheckEvaluation, CheckContext, CheckLineage, CheckPredecessor,
      VersionsStored, CaptureAgrees;
    var (db', p, cap) := (Project(db, e), e.body.payload, e.body.capture);
    ProjectExtends(db, e);
    AcceptedStep(db, e);
    var v := HistoryStep(db', e.id).value;
    AcceptedChecks(db, e);
    ContextIsStored(db, e.account, cap, p.context);
    EvaluationKept(db, db', p, cap, v.context);
    LineageReads(db, e.account, cap, v.row);
    if v.prior.Some? {
      var j :| 0 <= j < |db.decisions| && db.decisions[j] == v.prior.value;
      assert Precedes(db', j, |db.decisions|) && db'.decisions[j] == v.prior.value;
    }
  }

  lemma AcceptedChecks(db: Db, e: Event)
    requires Accepts(db, e) && e.body.DecisionRecorded?
    ensures var (p, cap) := (e.body.payload, e.body.capture);
      && CheckContext(db, e.account, cap, p.context).Done?
      && CheckEvaluation(db, p, cap, CheckContext(db, e.account, cap, p.context).value).Done?
      && CheckLineage(db, e.account, cap).Done?
      && FindDecision(db.decisions, OfUnit(UnitOf(cap))) == None
      && CaptureAgrees(db.captures, e.account, cap)
  {
    hide WireValid, FindEvent, FindDecision, CheckEvaluation, CheckContext, CheckLineage, CaptureAgrees;
  }

  lemma RootsAppend(db: Db, e: Event)
    requires RootsSound(db.decisions) && e.body.DecisionRecorded?
    requires CheckLineage(db, e.account, e.body.capture).Done?
    ensures RootsSound(db.decisions + [DecisionRowOf(e, |db.events| + 1)])
  {
    hide OriginalCapture, VerifiedEvent, FindDecision;
    var cap := e.body.capture;
    if cap.reprocesses.None? {
      assert FindDecision(db.decisions, OfKey(e.account, cap.observed)) == None;
      forall i | 0 <= i < |db.decisions|
        ensures !(db.decisions[i].account == e.account && db.decisions[i].logical == cap.observed)
      {
        assert !Answers(db.decisions[i], OfKey(e.account, cap.observed));
      }
    }
    hide CheckLineage;
  }

  lemma RecordsKept(a: Db, b: Db)
    requires Extends(a, b) && RecordsSound(a)
    ensures forall i :: 0 <= i < |a.decisions| ==> i < |b.decisions| && RecordSound(b, i)
  {
    hide RecordSound, Extends;
    DecisionsKept(a, b);
    forall i | 0 <= i < |a.decisions| ensures RecordSound(b, i) {
      assert RecordSound(a, i);
      RecordKept(a, b, i);
    }
  }

  lemma TablesGrow(db: Db, e: Event)
    requires CapturesSound(db.events, db.captures) && ListingsSound(db.events, db.context)
    requires ListingsSound(db.events, db.consumed)
    requires FindEvent(db.events, e.id) == None
    requires WireValid(e) && IsCrm(e) ==> CaptureAgrees(db.captures, e.account, CaptureOf(e))
    requires WireValid(e)
    ensures CapturesSound(Project(db, e).events, Project(db, e).captures)
    ensures ListingsSound(Project(db, e).events, Project(db, e).context)
    ensures ListingsSound(Project(db, e).events, Project(db, e).consumed)
  {
    hide CapturesSound, ListingsSound, WireValid, FindEvent, CaptureAgrees, Listing, CaptureSound, FindCapture;
    var events := db.events + [e];
    CapturesKept(db.events, events, db.captures);
    FindAppended(db.events, e);
    ListingsGrow(db.events, events, db.context, e.id, if e.body.DecisionRecorded? then e.body.payload.context else []);
    ListingsGrow(db.events, events, db.consumed, e.id,
      if e.body.DecisionRecorded? then e.body.payload.consumed else []);
    if IsCrm(e) {
      CaptureBound(db, e);
    }
  }

  lemma DecisionsGrow(db: Db, e: Event)
    ensures Project(db, e).decisions
         == if e.body.DecisionRecorded? then db.decisions + [DecisionRowOf(e, |db.events| + 1)] else db.decisions
  {
    hide DecisionRowOf, Listing, MintedRows, WithCapture;
  }

  lemma AgreesWhenAccepted(db: Db, e: Event)
    requires Accepts(db, e) && IsCrm(e)
    ensures CaptureAgrees(db.captures, e.account, CaptureOf(e))
  {
    hide WireValid, FindEvent, CheckItems, CheckDecision, CaptureAgrees;
  }

  /** Every accepted event keeps the invariant. */
  lemma AcceptKeepsInv(db: Db, e: Event)
    requires Inv(db) && Accepts(db, e)
    ensures Inv(Project(db, e))
  {
    hide CapturesSound, ListingsSound, RootsSound, IdsUnique, Extends, RecordSound, WireValid, FindEvent,
      FindDecision, Validate, CaptureAgrees, DecisionRowOf, Project, CheckEvaluation, CheckContext, CheckLineage;
    var db' := Project(db, e);
    ProjectExtends(db, e);
    RecordsKept(db, db');
    DecisionsGrow(db, e);
    if IsCrm(e) {
      AgreesWhenAccepted(db, e);
    }
    TablesGrow(db, e);
    if e.body.DecisionRecorded? {
      AcceptedRecord(db, e);
      AcceptedChecks(db, e);
      RootsAppend(db, e);
      FreshDecisionId(db, e);
    }
  }

  lemma FreshDecisionId(db: Db, e: Event)
    requires Inv(db) && FindEvent(db.events, e.id) == None && e.body.DecisionRecorded?
    ensures IdsUnique(db.decisions + [DecisionRowOf(e, |db.events| + 1)])
  {
    hide CapturesSound, ListingsSound, RecordsSound, RootsSound, FindEvent, FindDecision;
    FreshDecision(db, e.id);
  }
}
