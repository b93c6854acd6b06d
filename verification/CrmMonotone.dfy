/** Everything a verification reads is preserved by appending: what verified once
    verifies on every later ledger, with the same answer. */
module CrmMonotone {
  import opened Outcome
  import opened Rules
  import opened CrmModel
  import opened CrmProvenance
  import opened CrmReplay
  import C = Counterfactual
  import E = Evaluator

  /** The rows of b begin with the rows of a, and no recorded decision's listings grew. */
  ghost predicate Extends(a: Db, b: Db) {
    && a.events <= b.events && a.captures <= b.captures && a.evidence <= b.evidence
    && a.decisions <= b.decisions && a.artifacts <= b.artifacts && a.operations <= b.operations
    && forall i {:trigger a.decisions[i]} :: 0 <= i < |a.decisions| ==> ListingsKept(a, b, a.decisions[i].id)
  }

  ghost predicate ListingsKept(a: Db, b: Db, id: EventId) {
    EntriesOf(b.context, id) == EntriesOf(a.context, id) && EntriesOf(b.consumed, id) == EntriesOf(a.consumed, id)
  }

  lemma {:induction false} FindEventKept(a: seq<Event>, b: seq<Event>, id: EventId)
    requires a <= b
    ensures FindEvent(a, id).Some? ==> FindEvent(b, id) == FindEvent(a, id)
    ensures FindEvent(a, id).None? && FindEvent(b, id).Some? ==> FindEvent(b, id).value >= |a|
    decreases |b|
  {
    if |a| < |b| {
      FindEventKept(a, b[..|b| - 1], id);
    } else {
      assert a == b;
    }
  }

  lemma {:induction false} FindCaptureKept(a: seq<CaptureRow>, b: seq<CaptureRow>, cap: Capture)
    requires a <= b
    ensures FindCapture(a, cap).Some? ==> FindCapture(b, cap) == FindCapture(a, cap)
    decreases |b|
  {
    if |a| < |b| {
      FindCaptureKept(a, b[..|b| - 1], cap);
    } else {
      assert a == b;
    }
  }

  lemma {:induction false} FindEvidenceKept(a: seq<EvidenceRow>, b: seq<EvidenceRow>, id: EvidenceId)
    requires a <= b
    ensures FindEvidence(a, id).Some? ==> FindEvidence(b, id) == FindEvidence(a, id)
    decreases |b|
  {
    if |a| < |b| {
      FindEvidenceKept(a, b[..|b| - 1], id);
    } else {
      assert a == b;
    }
  }

  lemma {:induction false} FindDecisionKept(a: seq<DecisionRow>, b: seq<DecisionRow>, q: Question)
    requires a <= b
    ensures FindDecision(a, q).Some? ==> FindDecision(b, q) == FindDecision(a, q)
    decreases |b|
  {
    if |a| < |b| {
      FindDecisionKept(a, b[..|b| - 1], q);
    } else {
      assert a == b;
    }
  }

  lemma VerifiedEventKept(a: seq<Event>, b: seq<Event>, id: EventId)
    requires a <= b && VerifiedEvent(a, id).Done?
    ensures VerifiedEvent(b, id) == VerifiedEvent(a, id)
  {
    hide WireValid;
    FindEventKept(a, b, id);
  }

  lemma OriginalCaptureKept(a: Db, b: Db, cap: Capture)
    requires Extends(a, b) && OriginalCapture(a, cap).Done?
    ensures OriginalCapture(b, cap) == OriginalCapture(a, cap)
  {
    hide VerifiedEvent, CaptureValid;
    FindCaptureKept(a.captures, b.captures, cap);
    VerifiedEventKept(a.events, b.events, FindCapture(a.captures, cap).value.source);
  }

  lemma VerifyOriginKept(a: Db, b: Db, row: EvidenceRow)
    requires Extends(a, b) && VerifyOrigin(a, row).Done?
    ensures VerifyOrigin(b, row) == VerifyOrigin(a, row)
  {
    hide VerifiedEvent, OriginalCapture, EvidenceMatches, BoundItem, FindInput;
    OriginalCaptureKept(a, b, row.capture);
    VerifiedEventKept(a.events, b.events, row.source);
  }

  lemma CheckInputKept(a: Db, b: Db, account: Account, cap: Capture, input: Input, x: seq<Entry>, y: seq<Entry>)
    requires Extends(a, b) && CheckInput(a, account, cap, input, x).Done?
    requires LookupKey(y, input.key) == LookupKey(x, input.key)
    ensures CheckInput(b, account, cap, input, y) == CheckInput(a, account, cap, input, x)
  {
    hide VerifyOrigin, EvidenceMatches, BoundItem, FindEvidence, LookupKey;
    var id := LookupKey(x, input.key).value.version.value;
    FindEvidenceKept(a.evidence, b.evidence, id);
    VerifyOriginKept(a, b, FindEvidence(a.evidence, id).value);
  }

  /** The expected context is the same on later ledgers and for reordered listings. */
  lemma {:induction false} ExpectedKept(
    a: Db, b: Db, account: Account, cap: Capture, inputs: seq<Input>, x: seq<Entry>, y: seq<Entry>)
    requires Extends(a, b) && ExpectedContext(a, account, cap, inputs, x).Done?
    requires forall k :: LookupKey(y, k) == LookupKey(x, k)
    ensures ExpectedContext(b, account, cap, inputs, y) == ExpectedContext(a, account, cap, inputs, x)
    decreases |inputs|
  {
    hide CheckInput, BoundItem, LookupKey, Extends;
    if inputs != [] {
      ExpectedKept(a, b, account, cap, inputs[1..], x, y);
      if inputs[0].state == Available {
        CheckInputKept(a, b, account, cap, inputs[0], x, y);
      }
    }
  }

  /** A verified context verifies again, in sorted form and on every later ledger. */
  lemma ContextKept(a: Db, b: Db, account: Account, cap: Capture, x: seq<Entry>, y: seq<Entry>)
    requires Extends(a, b) && CheckContext(a, account, cap, x).Done? && KeysUnique(x)
    requires y == x || y == SortKeyed(x)
    ensures CheckContext(b, account, cap, y) == CheckContext(a, account, cap, x)
    ensures CheckContext(a, account, cap, x).value == SortKeyed(x)
  {
    hide ExpectedContext, Extends, LookupKey, SortKeyed, KeysUnique;
    forall k ensures LookupKey(y, k) == LookupKey(x, k) {
      LookupSorted(x, k);
    }
    ExpectedKept(a, b, account, cap, cap.inputs, x, y);
    SortKeyedSorts(x);
    SortSorted(SortKeyed(x));
  }

  /** Every version a verified context names is stored. */
  ghost predicate VersionsStored(db: Db, context: seq<Entry>) {
    forall i :: 0 <= i < |context| && context[i].version.Some? ==>
      FindEvidence(db.evidence, context[i].version.value).Some?
  }

  lemma CheckedVersion(db: Db, account: Account, cap: Capture, input: Input, submitted: seq<Entry>)
    requires CheckInput(db, account, cap, input, submitted).Done?
    ensures FindEvidence(db.evidence,
        BoundItem(account, cap, input, CheckInput(db, account, cap, input, submitted).value).version).Some?
  {
    hide VerifyOrigin, LookupKey;
    var row := FindEvidence(db.evidence, LookupKey(submitted, input.key).value.version.value).value;
    assert row.id == BoundItem(account, cap, input, row.supersedes).version;
  }

  lemma {:induction false} ExpectedStored(
    db: Db, account: Account, cap: Capture, inputs: seq<Input>, submitted: seq<Entry>)
    requires ExpectedContext(db, account, cap, inputs, submitted).Done?
    ensures VersionsStored(db, ExpectedContext(db, account, cap, inputs, submitted).value)
    decreases |inputs|
  {
    hide CheckInput, BoundItem, FindEvidence;
    if inputs != [] {
      ExpectedStored(db, account, cap, inputs[1..], submitted);
      if inputs[0].state == Available {
        CheckedVersion(db, account, cap, inputs[0], submitted);
      }
    }
  }

  lemma InputsKept(a: Db, b: Db, context: seq<Entry>)
    requires Extends(a, b) && VersionsStored(a, context)
    ensures InputsOf(b, context) == InputsOf(a, context)
  {
    hide Extends;
    forall i | 0 <= i < |context| ensures InputOf(b, context[i]) == InputOf(a, context[i]) {
      if context[i].version.Some? {
        EvidenceFoundKept(a, b, context[i].version.value);
      }
    }
  }

  lemma EvidenceFoundKept(a: Db, b: Db, id: EvidenceId)
    requires Extends(a, b) && FindEvidence(a.evidence, id).Some?
    ensures FindEvidence(b.evidence, id) == FindEvidence(a.evidence, id)
  {
    FindEvidenceKept(a.evidence, b.evidence, id);
  }

  lemma EvaluationKept(a: Db, b: Db, p: Payload, cap: Capture, context: seq<Entry>)
    requires Extends(a, b) && VersionsStored(a, context) && CheckEvaluation(a, p, cap, context).Done?
    ensures CheckEvaluation(b, p, cap, context) == CheckEvaluation(a, p, cap, context)
  {
    hide SortKeyed, UsedInputs, VersionsStored, InputOf;
    InputsKept(a, b, context);
    hide E.Evaluate, InputsOf;
  }

  lemma PredecessorKept(a: Db, b: Db, row: DecisionRow, cap: Capture)
    requires Extends(a, b) && CheckPredecessor(a, row, cap).Done?
    ensures CheckPredecessor(b, row, cap) == CheckPredecessor(a, row, cap)
  {
    hide OriginalCapture, VerifiedEvent, FindDecision;
    if cap.reprocesses.Some? {
      var unit := cap.reprocesses.value;
      FindDecisionKept(a.decisions, b.decisions, OfUnit(unit));
      var prior := FindDecision(a.decisions, OfUnit(unit)).value;
      OriginalCaptureKept(a, b, prior.capture);
      VerifiedEventKept(a.events, b.events, prior.id);
    }
  }

  /** A verified record verifies identically on every later ledger. */
  lemma StepKept(a: Db, b: Db, id: EventId)
    requires Extends(a, b) && HistoryStep(a, id).Done?
    ensures HistoryStep(b, id) == HistoryStep(a, id)
  {
    hide OriginalCapture, VerifiedEvent, FindDecision, FindEvent, CheckContext, CheckPredecessor, SortKeyed,
      EntriesOf, Extends, WireValid;
    var v := HistoryStep(a, id).value;
    DecisionKept(a, b, id);
    var row := v.row;
    EventsKept(a, b, id);
    OriginalCaptureKept(a, b, row.capture);
    StepIsRecorded(a, id);
    ListingsStay(a, b, id);
    StepContext(a, id);
    ContextKept(a, b, row.account, v.capture, v.context, v.context);
    PredecessorKept(a, b, row, v.capture);
  }

  lemma DecisionKept(a: Db, b: Db, id: EventId)
    requires Extends(a, b) && CrmDecision(a, id).Done?
    ensures CrmDecision(b, id) == CrmDecision(a, id)
  {
    FindEventKept(a.events, b.events, id);
    FindDecisionKept(a.decisions, b.decisions, OfId(id));
    hide FindEvent, FindDecision;
  }

  lemma EventsKept(a: Db, b: Db, id: EventId)
    requires Extends(a, b) && VerifiedEvent(a.events, id).Done?
    ensures VerifiedEvent(b.events, id) == VerifiedEvent(a.events, id)
  {
    VerifiedEventKept(a.events, b.events, id);
  }

  lemma ListingsStay(a: Db, b: Db, id: EventId)
    requires Extends(a, b) && id in DecisionIds(a)
    ensures ListingsKept(a, b, id)
  {
  }

  /** What a valid decision event says of its id and of its listings. */
  lemma WireDecision(e: Event)
    requires WireValid(e) && e.body.DecisionRecorded?
    ensures e.id == DecisionId(UnitOf(e.body.capture))
    ensures KeysUnique(e.body.payload.context) && KeysUnique(e.body.payload.consumed)
    ensures forall i :: 0 <= i < |e.body.payload.consumed| ==> e.body.payload.consumed[i].mark.Contribution?
  {
    hide CaptureValid, KeysUnique, LookupKey;
  }

  /** A verified record's context has one entry per key. */
  lemma StepContext(db: Db, id: EventId)
    requires HistoryStep(db, id).Done?
    ensures var v := HistoryStep(db, id).value;
      && KeysUnique(v.context) && KeysUnique(v.payload.context) && KeysUnique(v.payload.consumed)
      && SortedKeyed(v.context) && v.context == SortKeyed(v.payload.context)
      && v.consumed == SortKeyed(v.payload.consumed)
      && (forall i :: 0 <= i < |v.payload.consumed| ==> v.payload.consumed[i].mark.Contribution?)
      && CheckContext(db, v.row.account, v.capture, v.context).Done?
      && v.row.capture == v.capture && v.row.boundary == v.capture.boundary
  {
    hide HistoryStep, OriginalCapture, SortKeyed, EntriesOf, VerifiedEvent, WireValid, CaptureValid, LookupKey,
      CheckContext, CheckPredecessor;
    var v := HistoryStep(db, id).value;
    StepParts(db, id);
    WireDecision(VerifiedEvent(db.events, id).value);
    CapturedIs(db, v.row.capture);
    SortKeyedSorts(v.payload.context);
    SortedUnique(v.context);
  }

  lemma CapturedIs(db: Db, cap: Capture)
    ensures OriginalCapture(db, cap).Done? ==> OriginalCapture(db, cap).value.capture == cap
  {
    hide VerifiedEvent, CaptureValid;
  }

  lemma SortedUnique(entries: seq<Entry>)
    requires SortedKeyed(entries)
    ensures KeysUnique(entries)
  {
    forall i, j | 0 <= i < j < |entries| ensures entries[i].key != entries[j].key {
      LessSelf(entries[i].key);
    }
  }

  lemma LessSelf(key: string)
    ensures !C.Less(key, key)
  {
    C.LessIrreflexive(key);
  }
}
