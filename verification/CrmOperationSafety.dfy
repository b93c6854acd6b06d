/** An operation log admitted one observation at a time is re-verified in full on every
    later ledger, whatever is captured, decided or observed afterwards. */
module CrmOperationSafety {
  import opened Outcome
  import opened CrmModel
  import opened CrmProvenance
  import opened CrmReplay
  import opened CrmMonotone
  import opened CrmReplaySafety
  import opened CrmExactReplay
  import opened CrmOperations
  import opened CrmOperationLog

  /** Every check the collector makes of a CRM event. */
  ghost predicate Admits(db: Db, e: Event) {
    Accepts(db, e) && (e.body.Operation? ==> ValidateOperation(db, e).Done?)
  }

  ghost predicate HistoriesVerify(db: Db) {
    forall account :: OperationHistory(db, account).Done?
  }

  ghost predicate Sound(db: Db) {
    Inv(db) && HistoriesVerify(db)
  }

  lemma EmptySound()
    ensures Sound(EMPTY)
  {
    forall account ensures OperationHistory(EMPTY, account).Done? {
    }
  }

  // --- One step still verifies after any append ----------------------------------------------

  lemma OriginalKept(a: Db, b: Db, account: Account, intent: Intent, before: nat)
    requires Inv(a) && Inv(b) && Extends(a, b) && VerifyOriginal(a, account, intent, before).Done?
    ensures VerifyOriginal(b, account, intent, before) == VerifyOriginal(a, account, intent, before)
  {
    hide Inv, Extends, VerifiedHistory, Reconstruct, CrmDecision, BoundTo, FullyAvailable, HistoryStep;
    HistoryIsStep(a, intent.decision);
    var v := VerifiedHistory(a, intent.decision).value;
    StepIsRecorded(a, intent.decision);
    var i := RecordedAt(a, intent.decision);
    DecisionsKept(a, b);
    HistoryVerifies(a, i);
    HistoryVerifies(b, i);
    StepKept(a, b, intent.decision);
    StepColumns(a, intent.decision);
    DecisionKept(a, b, intent.decision);
    ReconstructionKept(a, b, i);
    StepFound(a, intent.decision);
  }

  lemma HistoryIsStep(db: Db, id: EventId)
    requires VerifiedHistory(db, id).Done?
    ensures HistoryStep(db, id) == VerifiedHistory(db, id)
  {
    hide HistoryStep, WalkBack;
  }

  lemma RecordedAt(db: Db, id: EventId) returns (i: nat)
    requires id in DecisionIds(db)
    ensures i < |db.decisions| && db.decisions[i].id == id
  {
    i :| 0 <= i < |db.decisions| && db.decisions[i].id == id;
  }

  /** The one event just appended is at or after every cutoff the log used. */
  lemma {:induction false} LatestCaptureKept(db: Db, e: Event, account: Account, cutoff: nat, n: nat)
    requires CapturesSound(db.events, db.captures) && FindEvent(db.events, e.id) == None
    requires cutoff <= |db.events| + 1 && n <= |Project(db, e).captures| && db.captures <= Project(db, e).captures
    ensures LatestCapture(Project(db, e), account, cutoff, n)
         == LatestCapture(db, account, cutoff, if n <= |db.captures| then n else |db.captures|)
  {
    hide CapturesSound, Project, CaptureBefore;
    if n > 0 {
      LatestCaptureKept(db, e, account, cutoff, n - 1);
      CaptureBeforeKept(db, e, account, cutoff, n - 1);
    }
  }

  lemma CaptureBeforeKept(db: Db, e: Event, account: Account, cutoff: nat, i: nat)
    requires CapturesSound(db.events, db.captures) && FindEvent(db.events, e.id) == None
    requires cutoff <= |db.events| + 1 && i < |Project(db, e).captures| && db.captures <= Project(db, e).captures
    ensures CaptureBefore(Project(db, e), Project(db, e).captures[i], account, cutoff)
        <==> i < |db.captures| && CaptureBefore(db, db.captures[i], account, cutoff)
  {
    hide WithCapture;
    FindAppended(db.events, e);
    assert i >= |db.captures| ==> Project(db, e).captures[i].source == e.id by {
      NewCapturesOwn(db, e);
    }
    if i < |db.captures| {
      assert CaptureSound(db.events, db.captures[i]);
      FindEventKept(db.events, db.events + [e], db.captures[i].source);
    }
    hide FindEvent, CapturesSound;
  }

  lemma NewCapturesOwn(db: Db, e: Event)
    ensures forall i :: |db.captures| <= i < |Project(db, e).captures| ==> Project(db, e).captures[i].source == e.id
  {
  }

  lemma LatestDecisionKept(db: Db, e: Event, account: Account, cutoff: nat)
    requires cutoff <= |db.events| + 1
    ensures LatestDecision(Project(db, e).decisions, account, cutoff) == LatestDecision(db.decisions, account, cutoff)
  {
    hide Project;
    DecisionsGrow(db, e);
    if e.body.DecisionRecorded? {
      assert (db.decisions + [DecisionRowOf(e, |db.events| + 1)])[..|db.decisions|] == db.decisions;
    }
  }

  /** A checked step checks identically on the ledger one event later. */
  lemma CheckStepKept(db: Db, e: Event, account: Account, recordedAt: int, log: Log, o: Observing, cutoff: nat)
    requires Inv(db) && Accepts(db, e) && cutoff <= |db.events| + 1
    requires CheckStep(db, account, recordedAt, log, o, cutoff).Done?
    ensures CheckStep(Project(db, e), account, recordedAt, log, o, cutoff).Done?
  {
    hide Project, VerifyOriginal, CheckTransition, RecordsSound, RootsSound, IdsUnique, ListingsSound, CapturesSound,
      Extends, LatestCapture, LatestDecision, FindEvent, WireValid, Validate;
    var db' := Project(db, e);
    AcceptKeepsInv(db, e);
    ProjectExtends(db, e);
    OriginalKept(db, db', account, o.intent, cutoff);
    CapturesExtend(db, db');
    LatestCaptureKept(db, e, account, cutoff, |db'.captures|);
    LatestDecisionKept(db, e, account, cutoff);
  }

  lemma CapturesExtend(a: Db, b: Db)
    requires Extends(a, b)
    ensures a.captures <= b.captures && a.events <= b.events && a.operations <= b.operations
  {
  }

  // --- The whole history still verifies -------------------------------------------------------

  lemma {:induction false} FindOperationKept(a: seq<OperationRow>, b: seq<OperationRow>, id: EventId)
    requires a <= b
    ensures FindOperation(a, id).Some? ==> FindOperation(b, id) == FindOperation(a, id)
    decreases |b|
  {
    if |a| < |b| {
      FindOperationKept(a, b[..|b| - 1], id);
    } else {
      assert a == b;
    }
  }

  lemma {:induction false} LogKept(db: Db, e: Event, account: Account, n: nat)
    requires Inv(db) && Accepts(db, e) && n <= |db.events| && VerifyLog(db, account, n).Done?
    requires Project(db, e).events == db.events + [e] && db.operations <= Project(db, e).operations
    ensures VerifyLog(Project(db, e), account, n) == VerifyLog(db, account, n)
  {
    hide Inv, Accepts, Project, CheckStep, WireValid, FindOperation;
    if n > 0 {
      LogKept(db, e, account, n - 1);
      var d := db.events[n - 1];
      assert Project(db, e).events[n - 1] == d;
      if IsOperationOf(d, account) {
        FindOperationKept(db.operations, Project(db, e).operations, d.id);
        CheckStepKept(db, e, account, d.recordedAt, VerifyLog(db, account, n - 1).value, d.body.observing, n);
      }
    }
  }

  /** Projections and events of an account still correspond one to one. */
  lemma IdsCorrespond(db: Db, e: Event, account: Account)
    requires EventIds(db.events, account) == RowIds(db.operations, account)
    ensures EventIds(Project(db, e).events, account) == RowIds(Project(db, e).operations, account)
  {
    var db' := Project(db, e);
    EventsGrow(db, e);
    OperationsGrow(db, e);
    hide Project;
    var events, rows := EventIds(db.events, account), RowIds(db.operations, account);
    var added := if IsOperationOf(e, account) then {e.id} else {};
    assert EventIds(db.events + [e], account) == events + added by { EventIdsAppend(db.events, e, account); }
    if e.body.Operation? {
      RowIdsAppend(db.operations, OperationRow(e.id, e.account, e.body.observing, |db.events| + 1), account);
    }
  }

  lemma EventsGrow(db: Db, e: Event)
    ensures Project(db, e).events == db.events + [e]
  {
  }

  lemma OperationsGrow(db: Db, e: Event)
    ensures Project(db, e).operations ==
      if e.body.Operation?
      then db.operations + [OperationRow(e.id, e.account, e.body.observing, |db.events| + 1)]
      else db.operations
  {
  }

  lemma EventIdsAppend(events: seq<Event>, e: Event, account: Account)
    ensures EventIds(events + [e], account)
         == EventIds(events, account) + if IsOperationOf(e, account) then {e.id} else {}
  {
    forall id
      ensures id in EventIds(events + [e], account) <==>
          id in EventIds(events, account) || (IsOperationOf(e, account) && id == e.id)
    {
      if id in EventIds(events + [e], account) {
        var d :| d in events + [e] && IsOperationOf(d, account) && d.id == id;
        assert d in events || d == e;
      }
      if id in EventIds(events, account) {
        var d :| d in events && IsOperationOf(d, account) && d.id == id;
        assert d in events + [e];
      }
      if IsOperationOf(e, account) && id == e.id {
        assert e in events + [e];
      }
    }
  }

  lemma RowIdsAppend(rows: seq<OperationRow>, r: OperationRow, account: Account)
    ensures RowIds(rows + [r], account) == RowIds(rows, account) + if r.account == account then {r.event} else {}
  {
    forall id
      ensures id in RowIds(rows + [r], account) <==>
          id in RowIds(rows, account) || (r.account == account && id == r.event)
    {
      if id in RowIds(rows + [r], account) {
        var d :| d in rows + [r] && d.account == account && d.event == id;
        assert d in rows || d == r;
      }
      if id in RowIds(rows, account) {
        var d :| d in rows && d.account == account && d.event == id;
        assert d in rows + [r];
      }
      if r.account == account && id == r.event {
        assert r in rows + [r];
      }
    }
  }

  /** Every projected row belongs to a recorded event. */
  lemma RowHasEvent(db: Db, r: OperationRow)
    requires HistoriesVerify(db) && r in db.operations
    ensures FindEvent(db.events, r.event).Some?
  {
    hide VerifyLog, FindEvent;
    assert OperationHistory(db, r.account).Done?;
    assert r.event in RowIds(db.operations, r.account);
    assert r.event in EventIds(db.events, r.account);
    var e :| e in db.events && IsOperationOf(e, r.account) && e.id == r.event;
    var i :| 0 <= i < |db.events| && db.events[i] == e;
    EventFound(db.events, i);
  }

  /** A fresh event has no projected row yet. */
  lemma NoRowYet(db: Db, id: EventId)
    requires HistoriesVerify(db) && FindEvent(db.events, id) == None
    ensures FindOperation(db.operations, id) == None
  {
    hide HistoriesVerify, FindEvent;
    var found := FindOperation(db.operations, id);
    if found.Some? {
      RowHasEvent(db, found.value);
    }
  }

  lemma EventFound(events: seq<Event>, i: nat)
    requires i < |events|
    ensures FindEvent(events, events[i].id).Some?
  {
  }

  lemma OperationAppended(rows: seq<OperationRow>, r: OperationRow)
    requires FindOperation(rows, r.event) == None
    ensures FindOperation(rows + [r], r.event) == Some(r)
  {
    assert (rows + [r])[..|rows|] == rows;
  }

  /** After any admitted event every account's history verifies in full, and it is the
      history before it, extended by the event when it is one of the account's. */
  lemma HistoryGrows(db: Db, e: Event, account: Account)
    requires Sound(db) && Admits(db, e)
    ensures OperationHistory(Project(db, e), account)
         == Done(OperationHistory(db, account).value + if IsOperationOf(e, account) then [e.body.observing] else [])
  {
    hide Inv, Project, CheckStep, FindOperation, EventIds, RowIds, Accepts, HistoriesVerify, VerifyLog, WireValid,
      FindEvent;
    assert OperationHistory(db, account).Done? by { HistoryOf(db, account); }
    var db' := Project(db, e);
    EventsGrow(db, e);
    OperationsGrow(db, e);
    IdsCorrespond(db, e, account);
    LogKept(db, e, account, |db.events|);
    AdmitMeans(db, e);
    assert db'.events[|db.events|] == e;
    if IsOperationOf(e, account) {
      NoRowYet(db, e.id);
      OperationAppended(db.operations, OperationRow(e.id, account, e.body.observing, |db.events| + 1));
      CheckStepKept(db, e, account, e.recordedAt, OperationHistory(db, account).value, e.body.observing,
        |db.events| + 1);
    }
    LastStep(db', account, |db.events|);
  }

  lemma HistoryOf(db: Db, account: Account)
    requires HistoriesVerify(db)
    ensures OperationHistory(db, account).Done?
  {
  }

  lemma AdmitMeans(db: Db, e: Event)
    requires Admits(db, e)
    ensures WireValid(e) && FindEvent(db.events, e.id) == None && Accepts(db, e)
    ensures e.body.Operation? ==>
      && OperationHistory(db, e.account).Done?
      && CheckStep(db, e.account, e.recordedAt, OperationHistory(db, e.account).value, e.body.observing,
        |db.events| + 1).Done?
  {
    hide WireValid, FindEvent, Validate, OperationHistory, CheckStep;
  }

  lemma LastStep(db: Db, account: Account, n: nat)
    requires n + 1 == |db.events| && VerifyLog(db, account, n).Done? && WireValid(db.events[n])
    requires IsOperationOf(db.events[n], account) ==>
      && FindOperation(db.operations, db.events[n].id) ==
         Some(OperationRow(db.events[n].id, account, db.events[n].body.observing, n + 1))
      && CheckStep(db, account, db.events[n].recordedAt, VerifyLog(db, account, n).value,
        db.events[n].body.observing, n + 1).Done?
    ensures VerifyLog(db, account, n + 1) ==
      Done(VerifyLog(db, account, n).value +
        if IsOperationOf(db.events[n], account) then [db.events[n].body.observing] else [])
  {
    hide WireValid, FindOperation, CheckStep;
    assert VerifyLog(db, account, n).value + [] == VerifyLog(db, account, n).value;
  }

  lemma AdmitKeepsSound(db: Db, e: Event)
    requires Sound(db) && Admits(db, e)
    ensures Sound(Project(db, e))
  {
    hide Inv, Project, OperationHistory, Accepts, ValidateOperation;
    AcceptKeepsInv(db, e);
    forall account ensures OperationHistory(Project(db, e), account).Done? {
      HistoryGrows(db, e, account);
    }
  }

  /** The ledger after any further events, each admitted or refused. */
  ghost function Run(db: Db, events: seq<Event>): Db
    decreases |events|
  {
    if events == [] then db else Run(if Admits(db, events[0]) then Project(db, events[0]) else db, events[1..])
  }

  /** An account's verified log is re-verified on every ledger reachable afterwards and
      only ever grows at its end. */
  lemma {:induction false} HistoryForever(db: Db, events: seq<Event>, account: Account)
    requires Sound(db)
    ensures Sound(Run(db, events))
    ensures OperationHistory(db, account).Done? && OperationHistory(Run(db, events), account).Done?
    ensures OperationHistory(db, account).value <= OperationHistory(Run(db, events), account).value
    decreases |events|
  {
    hide Inv, Project, OperationHistory, Admits, HistoriesVerify;
    HistoryOf(db, account);
    if events != [] {
      var next := if Admits(db, events[0]) then Project(db, events[0]) else db;
      if Admits(db, events[0]) {
        AdmitKeepsSound(db, events[0]);
        HistoryGrows(db, events[0], account);
      }
      HistoryForever(next, events[1..], account);
    }
  }

  /** A verified history passed every transition check, so all that CrmOperationLog proves
      of checked logs holds of it. */
  lemma HistoryIsChecked(db: Db, account: Account)
    requires OperationHistory(db, account).Done?
    ensures Checked(OperationHistory(db, account).value) && Blocks(OperationHistory(db, account).value)
  {
    hide Checked, Blocks, EventIds, RowIds, VerifyLog;
    LogIsChecked(db, account, |db.events|);
    CheckedIsBlocks(OperationHistory(db, account).value);
  }

  lemma {:induction false} LogIsChecked(db: Db, account: Account, n: nat)
    requires n <= |db.events| && VerifyLog(db, account, n).Done?
    ensures Checked(VerifyLog(db, account, n).value)
  {
    hide VerifyOriginal, CheckTransition, CheckLatest, WireValid, FindOperation;
    if n > 0 {
      LogIsChecked(db, account, n - 1);
      var log := VerifyLog(db, account, n - 1).value;
      if IsOperationOf(db.events[n - 1], account) {
        CheckedAppend(log, db.events[n - 1].body.observing);
      }
    }
  }

  /** Whatever runs afterwards, an operation left unknown after its response or a read is
      never resolved, and no other operation on the target is ever admitted. */
  lemma UnknownBlocksForever(db: Db, events: seq<Event>, account: Account, e: Event)
    requires Sound(db) && OperationHistory(db, account).Done?
    requires var log := OperationHistory(db, account).value;
      log != [] && log[|log| - 1].state == OpUnknown && log[|log| - 1].phase != SendStarted
    requires IsOperationOf(e, account)
    ensures var log := OperationHistory(db, account).value;
      var later := Run(db, events);
      && OperationHistory(later, account).Done?
      && OperationHistory(later, account).value != []
      && (var l := OperationHistory(later, account).value;
          l[|l| - 1].state == OpUnknown && l[|l| - 1].intent == log[|log| - 1].intent)
      && (e.body.observing.intent != log[|log| - 1].intent ==> !Admits(later, e))
  {
    hide Sound, OperationHistory, Checked, Blocks, Accepts, CheckTransition, Run, CheckStep;
    HistoryForever(db, events, account);
    var log, later := OperationHistory(db, account).value, Run(db, events);
    var l := OperationHistory(later, account).value;
    HistoryIsChecked(later, account);
    assert log[|log| - 1] == l[|log| - 1];
    if |log| < |l| {
      UnknownForever(l, |log| - 1, |l| - 1);
    }
    if e.body.observing.intent != log[|log| - 1].intent {
      HeldTarget(l, e.body.observing);
      StepNeedsTransition(later, account, e.recordedAt, l, e.body.observing, |later.events| + 1);
    }
  }

  lemma StepNeedsTransition(db: Db, account: Account, recordedAt: int, log: Log, o: Observing, cutoff: nat)
    requires CheckTransition(log, o).Refused?
    ensures CheckStep(db, account, recordedAt, log, o, cutoff).Refused?
  {
    hide VerifyOriginal, CheckTransition, CheckLatest;
  }

  /** At every point of every run an account's history is orderly: revisions are exactly
      1, 2, ..., no original is used twice, times never decrease across operations, every
      operation follows the phase grammar, and at most one is unfinished. */
  lemma EveryHistoryOrderly(events: seq<Event>, account: Account)
    ensures OperationHistory(Run(EMPTY, events), account).Done?
    ensures var log := OperationHistory(Run(EMPTY, events), account).value;
      var ops := Operations(log);
      && (forall m :: 0 <= m < |ops| ==> ops[m].revision == m + 1)
      && (forall a, b :: 0 <= a < b < |ops| ==> ops[a].decision != ops[b].decision)
      && (forall i, j :: 0 <= i <= j < |log| ==> log[i].observedAt <= log[j].observedAt)
      && (forall op :: PhaseGrammar(Phases(Own(log, op))))
      && (forall n: nat, i: nat, j: nat :: n <= |log| && Unfinished(log, n, i) && Unfinished(log, n, j) ==>
            log[i].intent == log[j].intent)
  {
    hide Sound, OperationHistory, Checked, Blocks, Run, PhaseGrammar, Phases, Own, LastOf;
    EmptySound();
    HistoryForever(EMPTY, events, account);
    HistoryIsChecked(Run(EMPTY, events), account);
    var log := OperationHistory(Run(EMPTY, events), account).value;
    RevisionsContiguous(log);
    forall i, j | 0 <= i <= j < |log| ensures log[i].observedAt <= log[j].observedAt {
      TimesNeverDecrease(log, i, j);
    }
    forall op ensures PhaseGrammar(Phases(Own(log, op))) {
      OperationGrammar(log, op);
    }
    forall n: nat, i: nat, j: nat | n <= |log| && Unfinished(log, n, i) && Unfinished(log, n, j)
      ensures log[i].intent == log[j].intent
    {
      OneUnfinished(log, n, i, j);
    }
  }

  /** Entry i belongs to an operation not yet terminal after the first n entries. */
  predicate Unfinished(log: Log, n: nat, i: nat)
    requires n <= |log|
  {
    i < n && !Terminal(LastOf(log[..n], log[i]).state)
  }
}
