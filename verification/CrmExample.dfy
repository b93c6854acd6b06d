/** A ledger the collector can hold, admitted event by event: one account, its artifact, one
    fully observed record, the decision over it, one prepared write, and an unrelated event
    under the id of the write's next observation. */
module CrmExample {
  import opened Outcome
  import opened CrmModel
  import opened CrmProvenance
  import opened CrmReplay
  import opened CrmMonotone
  import opened CrmReplaySafety
  import opened CrmExactReplay
  import opened CrmOperations
  import opened CrmOperationLog
  import opened CrmOperationLiveness
  import opened CrmOperationSafety
  import opened CrmOperationResolution
  import C = Counterfactual
  import E = Evaluator
  import R = Rules

  const TARGET := "target"
  const ACCOUNT := CrmAccount(TARGET)
  const KEY := "industry"
  const LITERAL := "saas"

  function RuleText(): string {
    KEY + R.EQUALS + LITERAL + R.QUOTE
  }

  function Logic(): E.Artifact {
    E.Artifact(
      "artifact", "v1", "account_prioritization", E.EVALUATOR_VERSION, E.MISSING_BEHAVIOR,
      [E.Factor(KEY, RuleText(), 10)], 10, "PRIORITIZE", "DO_NOT_PRIORITIZE")
  }

  function Seen(): Observed {
    Observed(TARGET, "connection", InjectedTransport, 0, 0, 0, Some("etag"), "content")
  }

  function Process(): Processing {
    Processing("mapping", Logic(), E.EVALUATOR_VERSION, "selection", "adapter")
  }

  /** The inputs of the mapping, in key order. */
  function KeyAt(i: nat): string {
    match i
    case 0 => "employee_count"
    case 1 => "funding_event"
    case 2 => "head_of_platform_start_date"
    case 3 => "headquarters_country"
    case 4 => KEY
    case 5 => "open_platform_engineering_roles"
    case _ => "verified_integration_pressure"
  }

  function InputAt(i: nat): (r: Input)
    ensures r.key == KeyAt(i) && r.state == Available
  {
    match i
    case 0 => Input(KeyAt(0), Available, R.IntValue(100), None, None)
    case 1 => Input(KeyAt(1), Available, R.TextValue("seed"), Some(0), None)
    case 2 => Input(KeyAt(2), Available, R.TextValue("1970-01-01"), Some(0), None)
    case 3 => Input(KeyAt(3), Available, R.TextValue("DE"), None, None)
    case 4 => Input(KeyAt(4), Available, R.TextValue(LITERAL), None, None)
    case 5 => Input(KeyAt(5), Available, R.IntValue(2), None, None)
    case _ => Input(KeyAt(i), Available, R.TextValue("HIGH"), None, Some(["call"]))
  }

  function Inputs(): (r: seq<Input>)
    ensures |r| == 7 && forall i :: 0 <= i < 7 ==> r[i] == InputAt(i)
  {
    seq(7, i requires 0 <= i < 7 => InputAt(i))
  }

  function Captured(): Capture {
    Capture(Seen(), 1, Inputs(), Process(), 1, 1, None)
  }

  function ItemAt(i: nat): Item {
    BoundItem(ACCOUNT, Captured(), InputAt(i), None)
  }

  function Items(): (r: seq<Item>)
    ensures |r| == 7 && forall i :: 0 <= i < 7 ==> r[i] == ItemAt(i)
  {
    seq(7, i requires 0 <= i < 7 => ItemAt(i))
  }

  function EntryAt(i: nat): (r: Entry)
    ensures r.key == KeyAt(i)
  {
    Entry(KeyAt(i), InputAt(i).value, Some(ItemAt(i).version), Availability(true))
  }

  function Context(): (r: seq<Entry>)
    ensures |r| == 7 && forall i :: 0 <= i < 7 ==> r[i] == EntryAt(i)
  {
    seq(7, i requires 0 <= i < 7 => EntryAt(i))
  }

  function Used(): Entry {
    EntryAt(4).(mark := Contribution(10))
  }

  function Recorded(): Payload {
    Payload(
      "account_prioritization", 1, Process(), Context(), Logic(), "artifact", "v1", E.EVALUATOR_VERSION,
      [Used()], 10, 10, "PRIORITIZE", None)
  }

  function Discovery(): Event {
    Event(Named("discovery"), ACCOUNT, 0, 0, Discovered)
  }

  function Registration(): Event {
    Event(Named("registration"), ACCOUNT, 0, 0, ArtifactRegistered(Logic()))
  }

  function Evidence(): Event {
    Event(EvidenceEventId(UnitOf(Captured())), ACCOUNT, 0, 0, EvidenceRecorded(Items(), Captured()))
  }

  function Decision(): Event {
    Event(DecisionId(UnitOf(Captured())), ACCOUNT, 1, 1, DecisionRecorded(Recorded(), Captured()))
  }

  function Write(): Intent {
    Intent(
      TARGET, "connection", Decision().id, Captured(), 1, Logic(), E.EVALUATOR_VERSION, "mapping", "selection",
      1, 1, Some("etag"), 2, WriteTuple(10, "PRIORITIZE", "v1", Decision().id, 1))
  }

  function Preparation(): Observing {
    Observing(InjectedTransport, Write(), 1, Prepared, OpPrepared, 2, None, None, None)
  }

  function Preparing(): Event {
    Event(ObservationId(Write(), 1), ACCOUNT, 2, 2, Operation(Preparation()))
  }

  function Intruder(): Event {
    Event(ObservationId(Write(), 2), ACCOUNT, 3, 3, Other("note"))
  }

  // --- The tables after each event -------------------------------------------------------------------------

  function AfterRegistration(): Db {
    EMPTY.(events := [Discovery(), Registration()], artifacts := [Logic()])
  }

  function AfterEvidence(): Db {
    AfterRegistration().(
      events := AfterRegistration().events + [Evidence()],
      captures := [CaptureRow(Captured(), ACCOUNT, Evidence().id)],
      evidence := MintedRows(ACCOUNT, Captured(), Items(), Evidence().id))
  }

  function AfterDecision(): Db {
    AfterEvidence().(
      events := AfterEvidence().events + [Decision()],
      decisions := [DecisionRowOf(Decision(), 4)],
      context := Listing(Decision().id, Context()),
      consumed := Listing(Decision().id, [Used()]))
  }

  function AfterPreparing(): Db {
    AfterDecision().(
      events := AfterDecision().events + [Preparing()],
      operations := [OperationRow(Preparing().id, ACCOUNT, Preparation(), 5)])
  }

  function AfterIntruder(): Db {
    AfterPreparing().(events := AfterPreparing().events + [Intruder()])
  }

  // --- Generic facts about ordered, available inputs ----------------------------------------------

  lemma {:induction false} LessAt(a: string, b: string, k: nat)
    requires k < |a| && k < |b| && a[..k] == b[..k] && a[k] < b[k]
    ensures C.Less(a, b)
  {
    if k > 0 {
      assert a[0] == a[..k][0] == b[..k][0] == b[0];
      assert a[1..][..k - 1] == a[..k][1..] == b[..k][1..] == b[1..][..k - 1];
      LessAt(a[1..], b[1..], k - 1);
    }
  }

  lemma {:induction false} Chained(inputs: seq<Input>, i: nat, j: nat)
    requires forall k :: 0 <= k < |inputs| - 1 ==> C.Less(inputs[k].key, inputs[k + 1].key)
    requires i < j < |inputs|
    ensures C.Less(inputs[i].key, inputs[j].key)
    decreases j
  {
    if i < j - 1 {
      Chained(inputs, i, j - 1);
      C.LessTransitive(inputs[i].key, inputs[j - 1].key, inputs[j].key);
    }
  }

  lemma {:induction false} FindInputAt(inputs: seq<Input>, i: nat)
    requires InputsOrdered(inputs) && i < |inputs|
    ensures FindInput(inputs, inputs[i].key) == Some(inputs[i])
  {
    if i > 0 {
      C.LessIrreflexive(inputs[i].key);
      FindInputAt(inputs[1..], i - 1);
    }
  }

  lemma {:induction false} AllAvailable(inputs: seq<Input>)
    requires forall i :: 0 <= i < |inputs| ==> inputs[i].state == Available
    ensures AvailableInputs(inputs) == inputs
  {
    if inputs != [] {
      AllAvailable(inputs[1..]);
      assert [inputs[0]] + inputs[1..] == inputs;
    }
  }

  lemma {:induction false} LookupAt(entries: seq<Entry>, i: nat)
    requires KeysUnique(entries) && i < |entries|
    ensures LookupKey(entries, entries[i].key) == Some(entries[i])
  {
    if i > 0 {
      LookupAt(entries[1..], i - 1);
    }
  }

  lemma {:induction false} EventAt(events: seq<Event>, i: nat)
    requires i < |events| && forall j, k :: 0 <= j < k < |events| ==> events[j].id != events[k].id
    ensures FindEvent(events, events[i].id) == Some(i)
  {
    var r := FindEvent(events, events[i].id);
  }

  // --- The inputs ---------------------------------------------------------------------------------------

  lemma KeysAscend(i: nat)
    requires i < 6
    ensures C.Less(KeyAt(i), KeyAt(i + 1))
  {
    if i == 2 {
      assert KeyAt(2)[..4] == "head" == KeyAt(3)[..4];
      LessAt(KeyAt(2), KeyAt(3), 4);
    } else {
      assert KeyAt(i)[..0] == KeyAt(i + 1)[..0];
      LessAt(KeyAt(i), KeyAt(i + 1), 0);
    }
  }

  lemma InputsAreOrdered()
    ensures InputsOrdered(Inputs())
  {
    hide KeyAt, InputAt, C.Less;
    var s := Inputs();
    forall k | 0 <= k < 6 ensures C.Less(s[k].key, s[k + 1].key) {
      KeysAscend(k);
    }
    forall i, j | 0 <= i < j < |s| ensures C.Less(s[i].key, s[j].key) {
      Chained(s, i, j);
    }
  }

  lemma FieldAt(key: string) returns (i: nat)
    requires key in FIELDS
    ensures i < 7 && KeyAt(i) == key
  {
    i := if key == KeyAt(0) then 0
    else if key == KeyAt(1) then 1
    else if key == KeyAt(2) then 2
    else if key == KeyAt(3) then 3
    else if key == KeyAt(4) then 4
    else if key == KeyAt(5) then 5
    else 6;
  }

  lemma OneField(key: string)
    requires key in FIELDS
    ensures FindInput(Inputs(), key).Some? && FindInput(Inputs(), key).value.state == Available
  {
    hide KeyAt, InputAt, FindInput;
    InputsAreOrdered();
    var i := FieldAt(key);
    FindInputAt(Inputs(), i);
  }

  lemma EveryField()
    ensures FullyAvailable(Captured())
  {
    hide KeyAt, InputAt, Inputs, FindInput, Process, Seen;
    forall key | key in FIELDS
      ensures FindInput(Inputs(), key).Some? && FindInput(Inputs(), key).value.state == Available
    {
      OneField(key);
    }
  }

  lemma CaptureIsValid()
    ensures CaptureValid(Captured()) && AccountOf(Captured()) == ACCOUNT
  {
    hide KeyAt, InputAt, Inputs, Logic, InputsOrdered;
    InputsAreOrdered();
  }

  lemma ContextOrdered()
    ensures SortedKeyed(Context()) && KeysUnique(Context())
  {
    hide KeyAt, InputAt, EntryAt, ItemAt, C.Less;
    InputsAreOrdered();
    var inputs := Inputs();
    forall i, j | 0 <= i < j < 7
      ensures C.Less(Context()[i].key, Context()[j].key) && Context()[i].key != Context()[j].key
    {
      assert C.Less(inputs[i].key, inputs[j].key);
      C.LessIrreflexive(Context()[i].key);
    }
  }

  lemma ItemsAreBound()
    ensures ItemsBound(ACCOUNT, Captured(), Items())
  {
    hide KeyAt, InputAt, BoundItem, Process, Seen;
    AllAvailable(Inputs());
    BoundToNothing();
  }

  lemma BoundToNothing()
    ensures forall i: nat :: ItemAt(i).supersedes == None
  {
    hide KeyAt, InputAt, Captured;
  }

  lemma LogicIsFormed()
    ensures E.WellFormed(Logic())
  {
    hide RuleText;
  }

  // --- Each event is legal by itself --------------------------------------------------------------------

  lemma EvidenceWire()
    ensures WireValid(Evidence())
  {
    hide KeyAt, InputAt, Inputs, Items, Process, Seen, ItemsBound, CaptureValid;
    CaptureIsValid();
    ItemsAreBound();
    ReadAtZero();
  }

  lemma ReadAtZero()
    ensures Captured().observed.readFinished == 0 && Captured().boundary == 1 && Captured().processing == Process()
  {
    hide Inputs, Logic;
  }

  lemma DecisionWire()
    ensures WireValid(Decision())
  {
    hide KeyAt, InputAt, Inputs, Context, CaptureValid, KeysUnique, LookupKey, ItemAt, Logic, Recorded, Used, Process;
    CaptureIsValid();
    ContextOrdered();
    ReadAtZero();
    RecordedIs();
    PinnedRules();
    UsedIsPreserved();
    EntriesAvailable();
    assert KeysUnique([Used()]) by { OneKey(Used()); }
  }

  lemma OneKey(x: Entry)
    ensures KeysUnique([x])
  {
  }

  lemma PinnedRules()
    ensures Process().artifact == Logic() && Process().evaluatorVersion == E.EVALUATOR_VERSION
    ensures Captured().processing == Process()
  {
    hide Logic, Inputs;
  }

  lemma UsedIsPreserved()
    ensures LookupKey(Context(), Used().key) == Some(EntryAt(4))
    ensures EntryAt(4).mark == Availability(true) && EntryAt(4).value == Used().value && EntryAt(4).version
         == Used().version
    ensures Used().mark.Contribution?
  {
    ContextOrdered();
    LookupAt(Context(), 4);
    hide InputAt, ItemAt, LookupKey, KeysUnique, SortedKeyed;
  }

  lemma EntriesAvailable()
    ensures |Context()| == 7 && forall i :: 0 <= i < 7 ==> Context()[i].mark == Availability(true)
    ensures Context()[4] == EntryAt(4) && EntryAt(4).key == KEY
    ensures EntryAt(4).mark == Availability(true)
  {
    hide InputAt, ItemAt;
  }

  lemma PreparingWire()
    ensures WireValid(Preparing())
  {
    hide Captured, Decision, Logic;
  }

  // --- The evidence is admitted -----------------------------------------------------------------------------

  lemma EvidenceAccepted()
    ensures Accepts(AfterRegistration(), Evidence()) && Project(AfterRegistration(), Evidence()) == AfterEvidence()
  {
    EvidenceWire();
    hide KeyAt, InputAt, Inputs, Items, Captured, WireValid, MintedRows, CheckItems, Logic;
    BoundToNothing();
    FreshItems(Items());
  }

  lemma {:induction false} FreshItems(items: seq<Item>)
    requires forall i :: 0 <= i < |items| ==> items[i].supersedes == None
    ensures CheckItems(AfterRegistration(), ACCOUNT, Captured(), items).Done?
  {
    hide Captured, Logic;
    if items != [] {
      FreshItems(items[..|items| - 1]);
    }
  }

  // --- The decision is admitted -----------------------------------------------------------------------------

  lemma EvidenceStored(i: nat)
    requires i < 7
    ensures FindEvidence(AfterEvidence().evidence, ItemAt(i).version)
         == Some(RowOf(ACCOUNT, Captured(), ItemAt(i), Evidence().id))
  {
    hide KeyAt, InputAt, Inputs, Captured, Logic, BoundItem;
    var rows := AfterEvidence().evidence;
    var r := FindEvidence(rows, ItemAt(i).version);
    assert rows[i].id == ItemAt(i).version;
    var j :| 0 <= j < |rows| && rows[j] == r.value;
    SameVersion(i, j);
  }

  /** An item is determined by its version. */
  lemma SameVersion(i: nat, j: nat)
    requires ItemAt(i).version == ItemAt(j).version
    ensures ItemAt(i) == ItemAt(j)
  {
    hide KeyAt, InputAt, Captured, SemanticOf;
  }

  lemma CaptureFound()
    ensures OriginalCapture(AfterEvidence(), Captured()) == Done(CaptureRow(Captured(), ACCOUNT, Evidence().id))
    ensures VerifiedEvent(AfterEvidence().events, Evidence().id) == Done(Evidence())
  {
    CaptureIsValid();
    EvidenceWire();
    hide KeyAt, InputAt, Inputs, Items, Captured, Logic, WireValid, CaptureValid, MintedRows;
    EventAt(AfterEvidence().events, 2);
  }

  /** Evidence minted from this capture verifies against it. */
  lemma OriginVerifies(i: nat)
    requires i < 7
    ensures VerifyOrigin(AfterEvidence(), RowOf(ACCOUNT, Captured(), ItemAt(i), Evidence().id)) == Done(Captured())
  {
    CaptureFound();
    CaptureIsValid();
    InputsAreOrdered();
    FindInputAt(Inputs(), i);
    ItemKind(i);
    Minted(i);
    assert ItemAt(i) in Items() by { assert Items()[i] == ItemAt(i); }
    hide KeyAt, InputAt, Inputs, Items, Logic, WireValid, CaptureValid, MintedRows, OriginalCapture, VerifiedEvent,
      FindInput, EvidenceMatches, BoundItem, AfterEvidence;
  }

  lemma ItemKind(i: nat)
    ensures ItemAt(i).kind == KeyAt(i) && ItemAt(i).supersedes == None
    ensures Captured().inputs == Inputs()
  {
    hide KeyAt, Inputs, Logic;
  }

  lemma Minted(i: nat)
    ensures var row := RowOf(ACCOUNT, Captured(), ItemAt(i), Evidence().id);
      && EvidenceMatches(row, ACCOUNT, Captured(), ItemAt(i))
      && row.kind == ItemAt(i).kind && row.supersedes == None && row.source == Evidence().id
        && row.capture == Captured()
  {
    hide KeyAt, InputAt, Inputs, Logic, Items;
  }

  lemma InputChecks(i: nat)
    requires i < 7
    ensures CheckInput(AfterEvidence(), ACCOUNT, Captured(), InputAt(i), Context()) == Done(None)
  {
    ContextOrdered();
    LookupAt(Context(), i);
    EvidenceStored(i);
    OriginVerifies(i);
    Minted(i);
    hide KeyAt, InputAt, Inputs, Items, Context, Logic, VerifyOrigin, LookupKey, EvidenceMatches, AfterEvidence,
      FindEvidence, ItemAt, BoundItem;
    ItemIsBound(i);
  }

  lemma ItemIsBound(i: nat)
    ensures ItemAt(i) == BoundItem(ACCOUNT, Captured(), InputAt(i), None)
  {
    hide BoundItem, InputAt, Captured;
  }

  lemma {:induction false} ContextExpected(k: nat)
    requires k <= 7
    ensures ExpectedContext(AfterEvidence(), ACCOUNT, Captured(), Inputs()[k..], Context()) == Done(Context()[k..])
    decreases 7 - k
  {
    hide KeyAt, InputAt, CheckInput, AfterEvidence, Captured, ItemAt;
    if k < 7 {
      ContextExpected(k + 1);
      InputChecks(k);
      assert Inputs()[k..][1..] == Inputs()[k + 1..];
      assert Context()[k..] == [EntryAt(k)] + Context()[k + 1..];
      EntryIsExpected(k);
    } else {
      assert Inputs()[k..] == [] && Context()[k..] == [];
    }
  }

  lemma EntryIsExpected(i: nat)
    ensures EntryAt(i) == Entry(
              InputAt(i).key, InputAt(i).value, Some(BoundItem(ACCOUNT, Captured(), InputAt(i), None).version),
                Availability(true))
  {
    hide BoundItem, InputAt, Captured, KeyAt;
  }

  lemma ContextChecks()
    ensures CheckContext(AfterEvidence(), ACCOUNT, Captured(), Context()) == Done(Context())
  {
    ContextOrdered();
    SortSorted(Context());
    ContextExpected(0);
    ItemKind(0);
    hide KeyAt, InputAt, ExpectedContext, AfterEvidence, Captured, Context, Inputs, SortedKeyed, SortKeyed;
    assert Inputs()[0..] == Inputs() && Context()[0..] == Context();
  }

  // --- The pinned evaluation ---------------------------------------------------------------------------------

  lemma RuleReads()
    ensures R.ParseRule(KEY, RuleText()) == Done(R.EqualsRule(LITERAL))
  {
    assert R.ValidKey(KEY);
    var rest := R.EQUALS + LITERAL + R.QUOTE;
    assert RuleText() == KEY + rest;
    assert R.Phrase(rest, R.EqualsRule(LITERAL));
    R.RuleExact(KEY, RuleText(), R.EqualsRule(LITERAL));
  }

  /** The preserved inputs as the rules read them. */
  function Read(): seq<E.ContextInput<EvidenceId>> {
    InputsOf(AfterEvidence(), Context())
  }

  lemma ReadIsKeyed()
    ensures E.UniqueKeys(Read()) && |Read()| == 7
    ensures Read()[4].key == KEY && Read()[4].available && Read()[4].value == R.TextValue(LITERAL)
    ensures Read()[4].version == Some(ItemAt(4).version)
    ensures E.Lookup(Read(), KEY) == Some(Read()[4])
  {
    ContextOrdered();
    hide KeyAt, AfterEvidence, ItemAt, E.Lookup, FindEvidence, SortedKeyed;
    FourthEntry();
    assert Read()[4] in Read();
    E.LookupUnique(Read(), Read()[4]);
  }

  lemma FourthEntry()
    ensures Context()[4].key == KEY && Context()[4].value == R.TextValue(LITERAL)
    ensures Context()[4].version == Some(ItemAt(4).version) && Context()[4].mark == Availability(true)
  {
    hide ItemAt;
  }

  lemma FactorMatches()
    ensures E.EvaluateFactor(Logic().factors[0], Read(), 1)
         == Done(E.FactorResult(KEY, RuleText(), 10, E.Consumed, true, 10, Some(ItemAt(4).version)))
  {
    RuleReads();
    ReadIsKeyed();
    hide Read, R.ParseRule, E.Lookup, RuleText, ItemAt;
  }

  function Result(): E.FactorResult<EvidenceId> {
    E.FactorResult(KEY, RuleText(), 10, E.Consumed, true, 10, Some(ItemAt(4).version))
  }

  lemma Evaluates() returns (result: E.Evaluation<EvidenceId>)
    ensures E.Evaluate(Logic(), Read(), 1) == Done(result)
    ensures result.score == 10 && result.threshold == 10 && result.output == "PRIORITIZE"
    ensures result.factors == [Result()]
  {
    RuleReads();
    FactorMatches();
    ReadIsKeyed();
    OneFactor();
    hide Read, R.ParseRule, E.Lookup, RuleText, ItemAt, E.States, E.IgnoredKeys, E.EvaluateFactor, E.UniqueKeys,
      E.EvaluateFactors, E.ParseAll, E.Score;
    result := E.Evaluate(Logic(), Read(), 1).value;
  }

  lemma OneFactor()
    ensures E.ParseAll(Logic().factors).Done?
    ensures E.EvaluateFactors(Logic().factors, Read(), 1) == Done([Result()])
    ensures E.Score([Result()]) == 10
  {
    RuleReads();
    FactorMatches();
    hide Read, R.ParseRule, RuleText, ItemAt, E.EvaluateFactor;
    var factors := Logic().factors;
    assert factors[..0] == [];
    var none: seq<E.FactorResult<EvidenceId>> := [];
    assert none + [Result()] == [Result()];
    assert E.ParseAll(factors[..0]).Done?;
    assert E.EvaluateFactors(factors[..0], Read(), 1) == Done(none);
    assert [Result()][..0] == none;
  }

  lemma UsedIs()
    ensures UsedInputs(Context(), [Result()]) == [Used()]
  {
    ContextOrdered();
    LookupAt(Context(), 4);
    FourthEntry();
    hide Context, LookupKey, ItemAt, KeyAt, RuleText, InputAt;
    assert [Result()][..0] == [];
    assert UsedInputs(Context(), []) == [];
    UsedEntry();
  }

  lemma UsedEntry()
    ensures Used() == Entry(KEY, R.TextValue(LITERAL), Some(ItemAt(4).version), Contribution(10))
  {
    hide ItemAt;
  }

  lemma EvaluationChecks()
    ensures CheckEvaluation(AfterEvidence(), Recorded(), Captured(), Context()).Done?
  {
    var result := Evaluates();
    UsedIs();
    LogicStored();
    RecordedIs();
    ReadAtZero();
    hide Context, Logic, AfterEvidence, E.Evaluate, UsedInputs, Used, Captured, ItemAt, RuleText, Result;
  }

  lemma LogicStored()
    ensures AfterEvidence().artifacts == [Logic()]
    ensures Logic().id == "artifact" && Logic().logicVersion == "v1" && Logic().evaluatorVersion == E.EVALUATOR_VERSION
    ensures Logic().kind == "account_prioritization"
  {
    hide Items, Captured, MintedRows, RuleText;
  }

  lemma RecordedIs()
    ensures var p := Recorded();
      && p.artifact == Logic() && p.artifactId == "artifact" && p.logicVersion == "v1"
      && p.evaluatorVersion == E.EVALUATOR_VERSION && p.kind == "account_prioritization"
      && p.consumed == [Used()] && p.score == 10 && p.threshold == 10 && p.output == "PRIORITIZE"
      && p.context == Context() && p.workflow == Process() && p.boundary == 1
  {
    hide Context, Logic, Used, Process;
  }

  lemma DecisionAccepted()
    ensures Accepts(AfterEvidence(), Decision()) && Project(AfterEvidence(), Decision()) == AfterDecision()
  {
    DecisionWire();
    ContextChecks();
    EvaluationChecks();
    RecordedIs();
    LineageIsOpen();
    DecisionIsFresh();
    hide Captured, Context, WireValid, CheckContext, CheckEvaluation, CheckLineage, FindEvent, Logic, Used, Recorded,
      MintedRows, Listing, Items;
  }

  lemma LineageIsOpen()
    ensures CheckLineage(AfterEvidence(), ACCOUNT, Captured()).Done?
    ensures AfterEvidence().decisions == [] && Captured().reprocesses == None
  {
    hide Items, MintedRows, Logic, Inputs;
  }

  lemma DecisionIsFresh()
    ensures FindEvent(AfterEvidence().events, Decision().id) == None
  {
    hide Items, Captured, Recorded, Logic;
    var found := FindEvent(AfterEvidence().events, Decision().id);
  }

  // --- The ledger up to the decision ---------------------------------------------------------------------------

  lemma StartAdmitted()
    ensures Admits(EMPTY, Discovery()) && Admits(Project(EMPTY, Discovery()), Registration())
    ensures Project(Project(EMPTY, Discovery()), Registration()) == AfterRegistration()
  {
    hide Logic;
    LogicIsFormed();
    var first := Project(EMPTY, Discovery());
    assert first.events == [Discovery()];
  }

  lemma NotOperations()
    ensures !Evidence().body.Operation? && !Decision().body.Operation? && !Intruder().body.Operation?
    ensures Preparing().body == Operation(Preparation()) && Preparing().account == ACCOUNT && Preparing().recordedAt
         == 2
  {
    hide Items, Captured, Recorded, Write;
  }

  lemma DecisionIsSound()
    ensures Sound(AfterDecision()) && Run(EMPTY, [Discovery(), Registration(), Evidence(), Decision()])
         == AfterDecision()
  {
    EmptySound();
    StartAdmitted();
    EvidenceAccepted();
    DecisionAccepted();
    NotOperations();
    hide Accepts, Project, Sound, Run, AfterRegistration, AfterEvidence, AfterDecision, Discovery, Registration,
      Evidence, Decision, ValidateOperation;
    var first := Project(EMPTY, Discovery());
    AdmitKeepsSound(EMPTY, Discovery());
    AdmitKeepsSound(first, Registration());
    AdmitKeepsSound(AfterRegistration(), Evidence());
    AdmitKeepsSound(AfterEvidence(), Decision());
    RunsFour(EMPTY, Discovery(), Registration(), Evidence(), Decision());
  }

  lemma RunsFirst(db: Db, e: Event, rest: seq<Event>)
    requires Admits(db, e)
    ensures Run(db, [e] + rest) == Run(Project(db, e), rest)
  {
    hide Admits, Project;
    assert ([e] + rest)[1..] == rest;
  }

  lemma RunsFour(db: Db, a: Event, b: Event, c: Event, d: Event)
    requires Admits(db, a) && Admits(Project(db, a), b) && Admits(Project(Project(db, a), b), c)
    requires Admits(Project(Project(Project(db, a), b), c), d)
    ensures Run(db, [a, b, c, d]) == Project(Project(Project(Project(db, a), b), c), d)
  {
    hide Admits, Project;
    assert [a, b, c, d] == [a] + [b, c, d] && [b, c, d] == [b] + [c, d] && [c, d] == [c] + [d];
    RunsFirst(db, a, [b, c, d]);
    RunsFirst(Project(db, a), b, [c, d]);
    RunsFirst(Project(Project(db, a), b), c, [d]);
    RunsOne(Project(Project(Project(db, a), b), c), d);
  }

  // --- The prepared write is admitted ---------------------------------------------------------------------------

  lemma {:induction false} NothingVerified(db: Db, account: Account, n: nat)
    requires n <= |db.events| && forall i :: 0 <= i < n ==> !db.events[i].body.Operation?
    ensures VerifyLog(db, account, n) == Done([])
  {
    if n > 0 {
      NothingVerified(db, account, n - 1);
    }
  }

  lemma FourEvents()
    ensures AfterDecision().events == [Discovery(), Registration(), Evidence(), Decision()]
    ensures AfterDecision().operations == [] && AfterDecision().decisions == [DecisionRowOf(Decision(), 4)]
    ensures AfterDecision().captures == [CaptureRow(Captured(), ACCOUNT, Evidence().id)]
  {
    hide Items, Captured, Recorded, Logic, Listing, MintedRows, Context, Used;
  }

  lemma NoHistory()
    ensures OperationHistory(AfterDecision(), ACCOUNT) == Done([])
  {
    FourEvents();
    NotOperations();
    assert !Discovery().body.Operation? && !Registration().body.Operation?;
    hide AfterDecision, Evidence, Decision, VerifyLog, Registration;
    NothingVerified(AfterDecision(), ACCOUNT, 4);
  }

  lemma FoundAt(i: nat)
    requires i < 4
    ensures FindEvent(AfterDecision().events, AfterDecision().events[i].id) == Some(i)
  {
    FourEvents();
    hide AfterDecision, Captured, Items, Recorded, Logic;
    EventAt(AfterDecision().events, i);
  }

  /** The columns of the decision row. */
  lemma RowColumns()
    ensures var row := DecisionRowOf(Decision(), 4);
      && row.id == Decision().id && row.account == ACCOUNT && row.sequence == 4 && row.capture == Captured()
      && row.score == 10 && row.output == "PRIORITIZE" && row.artifact == Logic()
    ensures Decision().id.DecisionId? && Decision().recordedAt == 1 && Decision().body.DecisionRecorded?
  {
    RecordedIs();
    hide Captured, Recorded, Logic;
  }

  lemma WriteBinds(r: Reconstruction)
    requires r.result.score == 10 && r.result.output == "PRIORITIZE" && r.artifact == Logic()
    ensures BoundTo(Write(), DecisionRowOf(Decision(), 4), Captured(), r)
    ensures Write().createdAt == 2 && Write().decision == Decision().id && Write().capture == Captured()
  {
    RowColumns();
    hide DecisionRowOf, Inputs, RuleText;
  }

  lemma CaptureColumns()
    ensures Captured().boundary == 1 && Captured().observed.origin == InjectedTransport
  {
    hide Inputs, Logic;
  }

  lemma OriginalVerifies()
    ensures VerifyOriginal(AfterDecision(), ACCOUNT, Write(), 5) == Done(Captured())
  {
    DecisionIsSound();
    FourEvents();
    RowColumns();
    EveryField();
    CaptureColumns();
    hide AfterDecision, Captured, Logic, Write, Decision, DecisionRowOf, FullyAvailable, BoundTo, Inv,
      HistoriesVerify, VerifiedHistory, HistoryStep, Reconstruct, CrmDecision, RecordSound, Discovery, Registration,
      Evidence, Run, FindEvent;
    var db := AfterDecision();
    HistoryVerifies(db, 0);
    ReconstructsExactly(db, 0);
    var r := Reconstruct(db, Decision().id).value;
    WriteBinds(r);
    var v := VerifiedHistory(db, Decision().id).value;
    StepContext(db, Decision().id);
    RecordRow(db, 0);
    DecisionFound();
  }

  lemma RecordRow(db: Db, i: nat)
    requires Inv(db) && i < |db.decisions|
    ensures HistoryStep(db, db.decisions[i].id).Done? && HistoryStep(db, db.decisions[i].id).value.row
         == db.decisions[i]
  {
    hide HistoryStep, CheckEvaluation, CapturesSound, ListingsSound, IdsUnique, RootsSound, Precedes;
    assert RecordSound(db, i);
  }

  lemma DecisionFound()
    ensures CrmDecision(AfterDecision(), Decision().id).Done?
    ensures CrmDecision(AfterDecision(), Decision().id).value.1 == Decision()
  {
    FoundAt(3);
    FourEvents();
    RowColumns();
    hide AfterDecision, Captured, Decision, DecisionRowOf, Logic, FindEvent, Evidence;
  }

  lemma NothingNewer()
    ensures CheckLatest(AfterDecision(), ACCOUNT, Write(), 5).Done?
  {
    FoundAt(2);
    FourEvents();
    RowColumns();
    WriteNames();
    hide AfterDecision, Captured, Decision, Evidence, DecisionRowOf, Logic, FindEvent, Write;
    var db := AfterDecision();
    assert LatestCapture(db, ACCOUNT, 5, 0) == None;
    assert CaptureBefore(db, db.captures[0], ACCOUNT, 5);
    assert LatestCapture(db, ACCOUNT, 5, 1) == Some(Captured());
    assert db.decisions[..0] == [];
  }

  lemma WriteNames()
    ensures Write().capture == Captured() && Write().decision == Decision().id
    ensures Write().revision == 1 && Write().createdAt == 2
  {
    hide Captured, Decision, Logic;
  }

  lemma PreparingAdmitted()
    ensures Admits(AfterDecision(), Preparing()) && Project(AfterDecision(), Preparing()) == AfterPreparing()
  {
    NoHistory();
    OriginalVerifies();
    NothingNewer();
    CaptureColumns();
    PreparingWire();
    WriteNames();
    PreparingIsFresh();
    NotOperations();
    FourEvents();
    hide AfterDecision, Captured, Write, Decision, Evidence, WireValid, VerifyOriginal, CheckLatest, OperationHistory,
      FindEvent, Logic, DecisionRowOf, Discovery, Registration;
    assert CheckTransition([], Preparation()).Done?;
    PreparingIs();
  }

  lemma PreparingIs()
    ensures Preparing() == Event(ObservationId(Write(), 1), ACCOUNT, 2, 2, Operation(Preparation()))
  {
    hide Write;
  }

  lemma PreparingIsFresh()
    ensures FindEvent(AfterDecision().events, Preparing().id) == None
  {
    FourEvents();
    hide AfterDecision, Captured, Recorded, Items, Write, Logic;
    var found := FindEvent(AfterDecision().events, Preparing().id);
  }

  lemma PreparingIsSound()
    ensures Sound(AfterPreparing())
    ensures OperationHistory(AfterPreparing(), ACCOUNT) == Done([Preparation()])
  {
    DecisionIsSound();
    PreparingAdmitted();
    NoHistory();
    NotOperations();
    hide Sound, Admits, Project, AfterDecision, AfterPreparing, Preparing, Preparation, OperationHistory, Run;
    AdmitKeepsSound(AfterDecision(), Preparing());
    HistoryGrows(AfterDecision(), Preparing(), ACCOUNT);
    assert [] + [Preparation()] == [Preparation()];
  }

  // --- The unrelated event ------------------------------------------------------------------------------------------

  lemma IntruderAdmitted()
    ensures Admits(AfterPreparing(), Intruder()) && Project(AfterPreparing(), Intruder()) == AfterIntruder()
    ensures Intruder().id == NextId(Preparation())
  {
    FiveEvents();
    hide AfterPreparing, AfterDecision, Captured, Recorded, Items, Write, Logic;
    var found := FindEvent(AfterPreparing().events, Intruder().id);
  }

  lemma FiveEvents()
    ensures AfterPreparing().events == [Discovery(), Registration(), Evidence(), Decision(), Preparing()]
    ensures AfterIntruder() == AfterPreparing().(events := AfterPreparing().events + [Intruder()])
  {
    FourEvents();
    hide AfterDecision, Captured, Recorded, Items, Write, Logic, DecisionRowOf;
  }

  lemma IntruderTakes()
    ensures Taken(AfterIntruder(), Preparation())
  {
    IntruderAdmitted();
    hide AfterPreparing, Write;
    var db := AfterIntruder();
    assert db.events[|db.events| - 1].id == NextId(Preparation());
  }

  /** On a ledger the collector can hold a prepared write can never be resolved, although it
      was neither sent nor answered: an unrelated event has its next observation's id. */
  lemma TakenObservationHolds(events: seq<Event>)
    ensures AfterIntruder()
         == Run(EMPTY, [Discovery(), Registration(), Evidence(), Decision(), Preparing(), Intruder()])
    ensures Sound(AfterIntruder()) && OperationHistory(AfterIntruder(), ACCOUNT) == Done([Preparation()])
    ensures Pending(AfterIntruder(), ACCOUNT) && !Hopeless([Preparation()]) && Taken(AfterIntruder(), Preparation())
    ensures !Concluded(Run(AfterIntruder(), events), ACCOUNT, Write())
  {
    PreparingIsSound();
    IntruderAdmitted();
    IntruderTakes();
    NotOperations();
    WholeTrace();
    PreparationIs();
    hide Sound, Admits, Project, AfterPreparing, AfterIntruder, Intruder, OperationHistory, Run, Taken, Concluded,
      Preparation, Write;
    AdmitKeepsSound(AfterPreparing(), Intruder());
    HistoryGrows(AfterPreparing(), Intruder(), ACCOUNT);
    assert [Preparation()] + [] == [Preparation()];
    TakenHolds(AfterIntruder(), ACCOUNT, events);
  }

  lemma PreparationIs()
    ensures Preparation().intent == Write() && Preparation().state == OpPrepared
  {
    hide Write;
  }

  lemma WholeTrace()
    ensures AfterIntruder()
         == Run(EMPTY, [Discovery(), Registration(), Evidence(), Decision(), Preparing(), Intruder()])
  {
    DecisionIsSound();
    PreparingAdmitted();
    IntruderAdmitted();
    hide Sound, Admits, Project, AfterDecision, AfterPreparing, AfterIntruder, Discovery, Registration, Evidence,
      Decision, Preparing, Intruder;
    var start := [Discovery(), Registration(), Evidence(), Decision()];
    assert [Discovery(), Registration(), Evidence(), Decision(), Preparing(), Intruder()] == start + [Preparing(),
      Intruder()];
    RunsOn(EMPTY, start, [Preparing(), Intruder()]);
    assert [Preparing(), Intruder()] == [Preparing()] + [Intruder()];
    RunsFirst(AfterDecision(), Preparing(), [Intruder()]);
    RunsOne(AfterPreparing(), Intruder());
  }

  lemma {:induction false} RunsOn(db: Db, a: seq<Event>, b: seq<Event>)
    ensures Run(db, a + b) == Run(Run(db, a), b)
    decreases |a|
  {
    hide Admits, Project;
    if a == [] {
      assert a + b == b;
    } else {
      assert (a + b)[1..] == a[1..] + b;
      RunsOn(if Admits(db, a[0]) then Project(db, a[0]) else db, a[1..], b);
    }
  }
}
