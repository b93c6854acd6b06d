/** Which unfinished writes a ledger can still see resolved: those the transition check
    leaves open whose next observation still has its id to itself. */
module CrmOperationResolution {
  import opened Outcome
  import opened CrmModel
  import opened CrmProvenance
  import opened CrmReplay
  import opened CrmMonotone
  import opened CrmReplaySafety
  import opened CrmOperations
  import opened CrmOperationLog
  import opened CrmOperationLiveness
  import opened CrmOperationSafety

  /** The account's log ends with an unfinished operation. */
  ghost predicate Pending(db: Db, account: Account) {
    && OperationHistory(db, account).Done?
    && var log := OperationHistory(db, account).value;
    log != [] && !Terminal(log[|log| - 1].state)
  }

  /** The latest observation of the pending operation. */
  ghost function Current(db: Db, account: Account): Observing
    requires Pending(db, account)
  {
    var log := OperationHistory(db, account).value;
    log[|log| - 1]
  }

  /** The id an operation's next observation must carry. */
  function NextId(o: Observing): EventId {
    ObservationId(o.intent, o.number + 1)
  }

  /** Some other event has it. */
  predicate Taken(db: Db, o: Observing) {
    FindEvent(db.events, NextId(o)).Some?
  }

  /** The operation has reached a terminal state. */
  ghost predicate Concluded(db: Db, account: Account, op: Intent) {
    && OperationHistory(db, account).Done?
    && var log := OperationHistory(db, account).value;
    exists k :: 0 <= k < |log| && log[k].intent == op && Terminal(log[k].state)
  }

  // --- An operation is unfinished exactly while its last entry is ----------------------------

  lemma {:induction false} TerminalIsLast(log: Log, j: nat, m: nat)
    requires Blocks(log) && j < m < |log| && Terminal(log[j].state)
    ensures log[m].intent != log[j].intent
    decreases m
  {
    assert BlockAt(log, m);
    if !Terminal(log[m - 1].state) {
      TerminalIsLast(log, j, m - 1);
    }
  }

  lemma PendingNotConcluded(db: Db, account: Account)
    requires Pending(db, account)
    ensures !Concluded(db, account, Current(db, account).intent)
  {
    hide OperationHistory, Checked, Blocks;
    HistoryIsChecked(db, account);
    var log := OperationHistory(db, account).value;
    forall k | 0 <= k < |log| && log[k].intent == Current(db, account).intent ensures !Terminal(log[k].state) {
      if k < |log| - 1 && Terminal(log[k].state) {
        TerminalIsLast(log, k, |log| - 1);
      }
    }
  }

  // --- The only event that can continue it ------------------------------------------------------

  /** Whatever observation is admitted for the account is the pending operation's next one. */
  lemma OnlyNext(db: Db, account: Account, e: Event)
    requires Sound(db) && Pending(db, account) && Admits(db, e) && IsOperationOf(e, account)
    ensures e.body.observing.intent == Current(db, account).intent
    ensures e.id == NextId(Current(db, account)) && !Taken(db, Current(db, account))
  {
    hide Sound, OperationHistory, Accepts, CheckTransition, CheckStep, FindEvent, Blocks, Checked;
    AdmitMeans(db, e);
    HistoryIsChecked(db, account);
    var log, o := OperationHistory(db, account).value, e.body.observing;
    StepTransits(db, account, e.recordedAt, log, o, |db.events| + 1);
    if o.intent != log[|log| - 1].intent {
      HeldTarget(log, o);
    }
    ContinuesNumber(log, o);
  }

  lemma StepTransits(db: Db, account: Account, recordedAt: int, log: Log, o: Observing, cutoff: nat)
    requires CheckStep(db, account, recordedAt, log, o, cutoff).Done?
    ensures CheckTransition(log, o).Done?
  {
    hide VerifyOriginal, CheckTransition, CheckLatest;
  }

  lemma ContinuesNumber(log: Log, o: Observing)
    requires log != [] && CheckTransition(log, o).Done? && o.intent == log[|log| - 1].intent
    ensures o.number == log[|log| - 1].number + 1
  {
    OwnStep(log);
    hide Own, CheckRead;
  }

  // --- A taken id holds the target for good -----------------------------------------------------

  lemma TakenStays(db: Db, e: Event, o: Observing)
    requires Taken(db, o)
    ensures Taken(Project(db, e), o)
  {
    hide FindEvent, Project;
    EventsGrow(db, e);
    FindEventKept(db.events, db.events + [e], NextId(o));
  }

  lemma {:induction false} TakenHoldsForever(db: Db, account: Account, events: seq<Event>)
    requires Sound(db) && Pending(db, account) && Taken(db, Current(db, account))
    ensures OperationHistory(Run(db, events), account) == OperationHistory(db, account)
    decreases |events|
  {
    hide Sound, OperationHistory, Admits, Taken, Project;
    if events != [] {
      if Admits(db, events[0]) {
        HistoryGrows(db, events[0], account);
        AdmitKeepsSound(db, events[0]);
        TakenStays(db, events[0], Current(db, account));
        NotTheirs(db, account, events[0]);
        var log := OperationHistory(db, account).value;
        assert log + [] == log;
        TakenHoldsForever(Project(db, events[0]), account, events[1..]);
      } else {
        TakenHoldsForever(db, account, events[1..]);
      }
    }
  }

  lemma NotTheirs(db: Db, account: Account, e: Event)
    requires Sound(db) && Pending(db, account) && Taken(db, Current(db, account)) && Admits(db, e)
    ensures !IsOperationOf(e, account)
  {
    hide Sound, OperationHistory, Admits, Taken;
    if IsOperationOf(e, account) {
      OnlyNext(db, account, e);
    }
  }

  // --- A free one lets it be resolved --------------------------------------------------------------

  /** Every entry of a verified log came in an event that was legal by itself and whose
      original was verified. */
  lemma {:induction false} EntryEvent(db: Db, account: Account, n: nat, k: nat) returns (i: nat)
    requires n <= |db.events| && VerifyLog(db, account, n).Done? && k < |VerifyLog(db, account, n).value|
    ensures i < n && IsOperationOf(db.events[i], account)
    ensures db.events[i].body.observing == VerifyLog(db, account, n).value[k] && WireValid(db.events[i])
    ensures var o := db.events[i].body.observing;
      && VerifyOriginal(db, account, o.intent, i + 1).Done?
      && o.origin == VerifyOriginal(db, account, o.intent, i + 1).value.observed.origin
  {
    hide VerifyOriginal, CheckTransition, CheckLatest, WireValid, FindOperation;
    var before := VerifyLog(db, account, n - 1).value;
    if k < |before| {
      i := EntryEvent(db, account, n - 1, k);
    } else {
      i := n - 1;
    }
  }

  lemma OriginalLater(db: Db, account: Account, intent: Intent, n: nat, m: nat)
    requires n <= m && VerifyOriginal(db, account, intent, n).Done?
    ensures VerifyOriginal(db, account, intent, m) == VerifyOriginal(db, account, intent, n)
  {
    hide VerifiedHistory, Reconstruct, CrmDecision, BoundTo, FullyAvailable;
  }

  /** The event that carries a closing observation at the instant it was made. */
  function EventOf(o: Observing, account: Account): Event {
    Event(ObservationId(o.intent, o.number), account, o.observedAt, o.observedAt, Operation(o))
  }

  lemma ClosingWire(was: Event, o: Observing)
    requires was.body.Operation? && WireValid(was) && Closes(was.body.observing, o)
    ensures WireValid(EventOf(o, was.account))
  {
  }

  lemma LogOf(db: Db, account: Account)
    requires OperationHistory(db, account).Done?
    ensures VerifyLog(db, account, |db.events|) == OperationHistory(db, account)
  {
    hide VerifyLog, EventIds, RowIds;
  }

  lemma ClosingSteps(db: Db, account: Account, log: Log, o: Observing, cutoff: nat)
    requires VerifyOriginal(db, account, o.intent, cutoff).Done?
    requires o.origin == VerifyOriginal(db, account, o.intent, cutoff).value.observed.origin
    requires o.intent.createdAt <= o.observedAt && CheckTransition(log, o).Done?
    requires o.phase != Prepared && o.phase != SendStarted
    ensures CheckStep(db, account, o.observedAt, log, o, cutoff).Done?
  {
    hide VerifyOriginal, CheckTransition, CheckLatest;
  }

  lemma AdmitsWhen(db: Db, e: Event)
    requires e.body.Operation? && WireValid(e) && FindEvent(db.events, e.id) == None
    requires OperationHistory(db, e.account).Done?
    requires CheckStep(
               db, e.account, e.recordedAt, OperationHistory(db, e.account).value, e.body.observing,
               |db.events| + 1).Done?
    ensures Admits(db, e)
  {
    hide OperationHistory, CheckStep, WireValid, FindEvent;
  }

  /** An unfinished operation the transition check leaves open, whose next id is free, can be
      brought to a terminal state by one admitted event. */
  lemma FreeIsResolved(db: Db, account: Account) returns (e: Event)
    requires Pending(db, account) && !Hopeless(OperationHistory(db, account).value)
    requires !Taken(db, Current(db, account))
    ensures Admits(db, e) && IsOperationOf(e, account)
    ensures e.body.observing.intent == Current(db, account).intent && Terminal(e.body.observing.state)
  {
    hide OperationHistory, VerifyLog, VerifyOriginal, CheckStep, CheckTransition, WireValid, FindEvent, Checked,
      Hopeless;
    var log := OperationHistory(db, account).value;
    HistoryIsChecked(db, account);
    var o := EndingChecks(log);
    LogOf(db, account);
    var i := EntryEvent(db, account, |db.events|, |log| - 1);
    var was := db.events[i];
    OriginalLater(db, account, o.intent, i + 1, |db.events| + 1);
    WireBounds(was);
    ClosingWire(was, o);
    ClosingSteps(db, account, log, o, |db.events| + 1);
    e := EventOf(o, account);
    AdmitsWhen(db, e);
  }

  lemma WireBounds(e: Event)
    requires e.body.Operation? && WireValid(e)
    ensures e.body.observing.intent.createdAt <= e.body.observing.observedAt
  {
  }

  // --- The exact condition ------------------------------------------------------------------------------

  lemma HopelessHolds(db: Db, account: Account, events: seq<Event>)
    requires Sound(db) && Pending(db, account) && Hopeless(OperationHistory(db, account).value)
    ensures !Concluded(Run(db, events), account, Current(db, account).intent)
  {
    hide Sound, OperationHistory, Run, Concluded, WireValid;
    var e := EventOf(Current(db, account), account);
    UnknownBlocksForever(db, events, account, e);
    PendingNotConcluded(Run(db, events), account);
  }

  lemma TakenHolds(db: Db, account: Account, events: seq<Event>)
    requires Sound(db) && Pending(db, account) && Taken(db, Current(db, account))
    ensures !Concluded(Run(db, events), account, Current(db, account).intent)
  {
    hide Sound, OperationHistory, Run, Concluded, Taken;
    TakenHoldsForever(db, account, events);
    PendingNotConcluded(Run(db, events), account);
  }

  lemma FreeConcludes(db: Db, account: Account) returns (events: seq<Event>)
    requires Sound(db) && Pending(db, account) && !Hopeless(OperationHistory(db, account).value)
    requires !Taken(db, Current(db, account))
    ensures Concluded(Run(db, events), account, Current(db, account).intent)
  {
    hide Sound, OperationHistory, Admits, Taken, Project, Hopeless;
    var e := FreeIsResolved(db, account);
    events := [e];
    assert Run(db, events) == Project(db, e) by { RunsOne(db, e); }
    HistoryGrows(db, e, account);
    var log := OperationHistory(db, account).value;
    assert (log + [e.body.observing])[|log|] == e.body.observing;
  }

  lemma RunsOne(db: Db, e: Event)
    requires Admits(db, e)
    ensures Run(db, [e]) == Project(db, e)
  {
    hide Admits, Project;
    assert [e][1..] == [];
  }

  /** Some run of the ledger brings an unfinished write to a terminal state exactly when it is
      not unknown after a response or a read, and no event has the id of its next observation. */
  lemma WriteResolvableIff(db: Db, account: Account)
    requires Sound(db) && Pending(db, account)
    ensures (exists events :: Concluded(Run(db, events), account, Current(db, account).intent))
       <==> !Hopeless(OperationHistory(db, account).value) && !Taken(db, Current(db, account))
  {
    hide Sound, OperationHistory, Run, Concluded, Taken, Hopeless;
    if Hopeless(OperationHistory(db, account).value) {
      forall events ensures !Concluded(Run(db, events), account, Current(db, account).intent) {
        HopelessHolds(db, account, events);
      }
    } else if Taken(db, Current(db, account)) {
      forall events ensures !Concluded(Run(db, events), account, Current(db, account).intent) {
        TakenHolds(db, account, events);
      }
    } else {
      var events := FreeConcludes(db, account);
    }
  }

  /** The same after every run from the empty ledger. */
  lemma EveryRunResolvableIff(before: seq<Event>, account: Account)
    requires Pending(Run(EMPTY, before), account)
    ensures var db := Run(EMPTY, before);
      (exists events :: Concluded(Run(db, events), account, Current(db, account).intent))
      <==> !Hopeless(OperationHistory(db, account).value) && !Taken(db, Current(db, account))
  {
    hide Sound, OperationHistory, Run, Concluded, Taken, Hopeless, Pending;
    EmptySound();
    HistoryForever(EMPTY, before, account);
    WriteResolvableIff(Run(EMPTY, before), account);
  }
}
