/** Resumable execution of a seed schedule through the collector. */
module Schedules {
  import opened Outcome
  import opened Ledger
  import opened AttributionPolicy
  import opened Collector
  import opened AttributionSafety
  import opened AttributionRun

  datatype Operation = Operation(outcome: EventId, account: string)

  datatype Item = Post(envelope: Event) | Attribution(operation: Operation)

  /** The attribution instant is fixed, so a rebuilt operation never changes. */
  datatype Schedule = Schedule(
    canonical: seq<Event>, stage1: seq<Event>, operations: seq<Operation>, stage2: seq<Event>, instant: int)
  {
    function Cutoff(): nat {
      |canonical| + |stage1|
    }

    function Items(): (r: seq<Item>)
      ensures |r| == |canonical| + |stage1| + |operations| + |stage2|
    {
      Posts(canonical + stage1) + Attributions(operations) + Posts(stage2)
    }
  }

  function Posts(events: seq<Event>): (r: seq<Item>)
    ensures |r| == |events| && forall i :: 0 <= i < |r| ==> r[i] == Post(events[i])
  {
    seq(|events|, i requires 0 <= i < |events| => Post(events[i]))
  }

  function Attributions(operations: seq<Operation>): (r: seq<Item>)
    ensures |r| == |operations| && forall i :: 0 <= i < |r| ==> r[i] == Attribution(operations[i])
  {
    seq(|operations|, i requires 0 <= i < |operations| => Attribution(operations[i]))
  }

  function OutcomesOf(events: seq<Event>): seq<Operation> {
    if events == [] then []
    else
      var before := OutcomesOf(events[..|events| - 1]);
      var last := events[|events| - 1];
      if IsOutcome(last) then before + [Operation(last.id, last.account)] else before
  }

  function Build(canonical: seq<Event>, stage1: seq<Event>, stage2: seq<Event>, instant: int): Outcome<Schedule> {
    var _ :- Require(
      forall i :: 0 <= i < |stage1| && IsOutcome(stage1[i]) ==> SupersededBy(stage1[i]) == None,
      "stage-1 outcome supersedes another version");
    Done(Schedule(canonical, stage1, OutcomesOf(canonical) + OutcomesOf(stage1), stage2, instant))
  }

  /** The schedule is built by its loops over the envelopes. */
  method BuildSchedule(
    canonical: seq<Event>, stage1: seq<Event>, stage2: seq<Event>, instant: int) returns (r: Outcome<Schedule>)
    ensures r == Build(canonical, stage1, stage2, instant)
  {
    var operations: seq<Operation> := [];
    for i := 0 to |canonical|
      invariant operations == OutcomesOf(canonical[..i])
    {
      assert canonical[..i + 1][..i] == canonical[..i];
      if IsOutcome(canonical[i]) {
        operations := operations + [Operation(canonical[i].id, canonical[i].account)];
      }
    }
    assert canonical[..|canonical|] == canonical;
    for i := 0 to |stage1|
      invariant operations == OutcomesOf(canonical) + OutcomesOf(stage1[..i])
      invariant forall k :: 0 <= k < i && IsOutcome(stage1[k]) ==> SupersededBy(stage1[k]) == None
    {
      assert stage1[..i + 1][..i] == stage1[..i];
      if IsOutcome(stage1[i]) {
        if SupersededBy(stage1[i]) != None {
          return Refused("stage-1 outcome supersedes another version");
        }
        operations := operations + [Operation(stage1[i].id, stage1[i].account)];
      }
    }
    assert stage1[..|stage1|] == stage1;
    r := Done(Schedule(canonical, stage1, operations, stage2, instant));
  }

  function Identity(s: Schedule, op: Operation): EventId {
    AttributionId(op.outcome, POLICY_VERSION, s.Cutoff())
  }

  /** An operation's envelope, rebuilt from the ledger prefix at the cutoff. */
  function Rebuild(l: Ledger, s: Schedule, op: Operation): Outcome<Event> {
    var result :- Attribute(l, op.outcome, s.Cutoff(), POLICY_VERSION);
    Done(Envelope(result, op.account, (s.instant, s.instant), None))
  }

  function ItemEvent(l: Ledger, s: Schedule, item: Item): Outcome<Event> {
    match item
    case Post(e) => Done(e)
    case Attribution(op) => Rebuild(l, s, op)
  }

  /** The stored row at its sequence is exactly what the item would submit. */
  predicate Matches(l: Ledger, s: Schedule, k: nat)
    requires k < |l| && k < |s.Items()|
  {
    ItemEvent(l, s, s.Items()[k]) == Done(l[k])
  }

  /** Every recorded result for a scheduled outcome is the scheduled operation itself. */
  predicate OnlyScheduled(l: Ledger, s: Schedule) {
    forall k, i :: 0 <= k < |s.operations| && 0 <= i < |l| ==>
      IsResultFor(l[i], s.operations[k].outcome, POLICY_VERSION) ==> l[i].id == Identity(s, s.operations[k])
  }

  /** The read-only entry check. */
  function CheckSchedule(l: Ledger, s: Schedule): Outcome<()> {
    var _ :- Require(forall k :: 0 <= k < |l| && k < |s.Items()| ==> Matches(l, s, k), "schedule diverged");
    Require(|l| >= s.Cutoff() ==> OnlyScheduled(l, s), "schedule diverged")
  }

  datatype SeedReport = SeedReport(ledger: Ledger, answers: seq<Answer>, refusal: Option<string>)

  /** The items from position k on, up to the limit. */
  function RunFrom(l: Ledger, s: Schedule, k: nat, limit: nat, verified: bool, answers: seq<Answer>): SeedReport
    decreases |s.Items()| - k
  {
    if k >= |s.Items()| || k >= limit then SeedReport(l, answers, None)
    else
      var item := s.Items()[k];
      var checked := if item.Attribution? && !verified then CheckSchedule(l, s) else Done(());
      if checked.Refused? then SeedReport(l, answers, Some(checked.reason))
      else
        match ItemEvent(l, s, item)
        case Refused(why) => SeedReport(l, answers, Some(why))
        case Done(e) =>
          match Ingest(l, e)
          case Refused(why) => SeedReport(l, answers, Some(why))
          case Done((after, answer)) =>
            RunFrom(after, s, k + 1, limit, verified || item.Attribution?, answers + [answer])
  }

  function Perform(l: Ledger, s: Schedule, limit: nat): SeedReport {
    match CheckSchedule(l, s)
    case Refused(why) => SeedReport(l, [], Some(why))
    case Done(_) => RunFrom(l, s, 0, limit, |l| >= s.Cutoff(), [])
  }

  /** The runner as its loop over the store. */
  method RunSchedule(store: Store, s: Schedule, limit: nat) returns (r: SeedReport)
    requires store.Valid()
    modifies store
    ensures store.Valid() && r == Perform(old(store.events), s, limit) && store.events == r.ledger
  {
    hide Reachable, CheckSchedule, ItemEvent, Ingest;
    var entry := CheckSchedule(store.events, s);
    if entry.Refused? {
      return SeedReport(store.events, [], Some(entry.reason));
    }
    var verified := |store.events| >= s.Cutoff();
    var answers: seq<Answer> := [];
    var items := s.Items();
    var k := 0;
    while k < |items| && k < limit
      invariant store.Valid() && k <= |items|
      invariant Perform(old(store.events), s, limit) == RunFrom(store.events, s, k, limit, verified, answers)
      decreases |items| - k
    {
      if items[k].Attribution? && !verified {
        var again := CheckSchedule(store.events, s);
        if again.Refused? {
          return SeedReport(store.events, answers, Some(again.reason));
        }
      }
      verified := verified || items[k].Attribution?;
      var e := ItemEvent(store.events, s, items[k]);
      if e.Refused? {
        return SeedReport(store.events, answers, Some(e.reason));
      }
      var answer := store.Submit(e.value);
      if answer.Refused? {
        return SeedReport(store.events, answers, Some(answer.reason));
      }
      answers := answers + [answer.value];
      k := k + 1;
    }
    r := SeedReport(store.events, answers, None);
  }

  // --- What a fresh run leaves ----------------------------------------------------------------

  predicate AllCreated(answers: seq<Answer>) {
    forall i :: 0 <= i < |answers| ==> answers[i] == Created
  }

  /** An uninterrupted run from the empty ledger creates every item. */
  ghost predicate Completes(s: Schedule) {
    var r := Perform([], s, |s.Items()|);
    r.refusal == None && AllCreated(r.answers)
  }

  function Final(s: Schedule): Ledger {
    Perform([], s, |s.Items()|).ledger
  }

  /** What a fresh run does at its next item, having stored one row for each item before it:
      the schedule is checked again before the first operation. */
  function NextStep(s: Schedule, l: Ledger): Outcome<(Ledger, Answer)>
    requires |l| < |s.Items()|
  {
    var item := s.Items()[|l|];
    var _ :- if item.Attribution? && |l| == s.Cutoff() then CheckSchedule(l, s) else Done(());
    var e :- ItemEvent(l, s, item);
    Ingest(l, e)
  }

  /** Row k is what item k creates over the rows before it. */
  ghost predicate BuiltAt(s: Schedule, l: Ledger, k: nat)
    requires k < |l| && k < |s.Items()|
  {
    NextStep(s, l[..k]) == Done((l[..k + 1], Created))
  }

  /** The ledger holds the rows of the first items and nothing else. */
  ghost predicate Built(s: Schedule, l: Ledger) {
    |l| <= |s.Items()| && forall k :: 0 <= k < |l| ==> BuiltAt(s, l, k)
  }

  lemma ItemKinds(s: Schedule, k: nat)
    requires k < |s.Items()|
    ensures s.Items()[k].Attribution? <==> s.Cutoff() <= k < s.Cutoff() + |s.operations|
    ensures s.Items()[k].Attribution? ==> s.Items()[k].operation == s.operations[k - s.Cutoff()]
    ensures k >= s.Cutoff() + |s.operations| ==> s.Items()[k] == Post(s.stage2[k - s.Cutoff() - |s.operations|])
  {
  }

  lemma {:induction false} AnswersGrow(l: Ledger, s: Schedule, k: nat, limit: nat, verified: bool, answers: seq<Answer>)
    ensures answers <= RunFrom(l, s, k, limit, verified, answers).answers
    decreases |s.Items()| - k
  {
    hide CheckSchedule, ItemEvent, Ingest;
    if k < |s.Items()| && k < limit {
      var item := s.Items()[k];
      var e := ItemEvent(l, s, item);
      if e.Done? && Ingest(l, e.value).Done? {
        var (after, answer) := Ingest(l, e.value).value;
        AnswersGrow(after, s, k + 1, limit, verified || item.Attribution?, answers + [answer]);
      }
    }
  }

  lemma CreatedAppends(l: Ledger, e: Event)
    ensures Ingest(l, e).Done? && Ingest(l, e).value.1 == Created ==> Ingest(l, e).value.0 == l + [e]
    ensures Ingest(l, e).Done? ==> WireValid(e)
    ensures Ingest(l, e).Done? && Ingest(l, e).value.1 == Created ==> Find(l, e.id) == None
  {
    hide WireValid, Admit, Find;
  }

  lemma EmptyChecks(s: Schedule)
    ensures CheckSchedule([], s).Done?
  {
  }

  /** Whether the entry check has been repeated before the operations of a fresh run. */
  predicate FreshVerified(s: Schedule, k: nat, verified: bool) {
    verified == (s.Cutoff() == 0 || (k > s.Cutoff() && s.operations != []))
  }

  /** One item of a fresh run is its next step. */
  lemma StepOfRun(s: Schedule, l: Ledger, limit: nat, verified: bool, answers: seq<Answer>)
    requires |l| < |s.Items()| && |l| < limit && FreshVerified(s, |l|, verified)
    ensures RunFrom(l, s, |l|, limit, verified, answers) == match NextStep(s, l)
      case Refused(why) => SeedReport(l, answers, Some(why))
      case Done((after, answer)) =>
        RunFrom(after, s, |l| + 1, limit, verified || s.Items()[|l|].Attribution?, answers + [answer])
  {
    ItemKinds(s, |l|);
    EmptyChecks(s);
    hide CheckSchedule, ItemEvent, Ingest;
  }

  /** A fresh run in which every answer is a creation leaves exactly the rows of the items it
      reached, and was refused, if it was, by its next step. */
  lemma {:induction false} FreshRuns(s: Schedule, l: Ledger, limit: nat, verified: bool, answers: seq<Answer>)
    requires |l| <= |s.Items()| && FreshVerified(s, |l|, verified)
    requires var r := RunFrom(l, s, |l|, limit, verified, answers);
      forall i :: |answers| <= i < |r.answers| ==> r.answers[i] == Created
    ensures var r := RunFrom(l, s, |l|, limit, verified, answers);
      && l <= r.ledger && |r.ledger| <= |s.Items()|
      && (forall j :: |l| <= j < |r.ledger| ==> BuiltAt(s, r.ledger, j))
      && |r.answers| - |answers| == |r.ledger| - |l|
      && (r.refusal == None ==> |r.ledger| == Max(|l|, Min(limit, |s.Items()|)))
      && (r.refusal.Some? ==> |r.ledger| < Min(limit, |s.Items()|) && NextStep(s, r.ledger) == Refused(r.refusal.value))
    decreases |s.Items()| - |l|
  {
    hide CheckSchedule, ItemEvent, Ingest, NextStep, RunFrom;
    if |l| < |s.Items()| && |l| < limit {
      StepOfRun(s, l, limit, verified, answers);
      if NextStep(s, l).Done? {
        var (after, answer) := NextStep(s, l).value;
        var verified' := verified || s.Items()[|l|].Attribution?;
        AnswersGrow(after, s, |l| + 1, limit, verified', answers + [answer]);
        var r := RunFrom(after, s, |l| + 1, limit, verified', answers + [answer]);
        assert answer == Created by {
          assert (answers + [answer])[|answers|] == r.answers[|answers|];
        }
        StepAppends(s, l);
        ItemKinds(s, |l|);
        FreshRuns(s, after, limit, verified', answers + [answer]);
        assert r.ledger[..|l|] == after[..|l|] == l && r.ledger[..|l| + 1] == after;
      }
    } else {
      RunEnds(s, l, limit, verified, answers);
    }
  }

  lemma RunEnds(s: Schedule, l: Ledger, limit: nat, verified: bool, answers: seq<Answer>)
    requires |l| >= |s.Items()| || |l| >= limit
    ensures RunFrom(l, s, |l|, limit, verified, answers) == SeedReport(l, answers, None)
  {
  }

  lemma StepAppends(s: Schedule, l: Ledger)
    requires |l| < |s.Items()| && NextStep(s, l).Done? && NextStep(s, l).value.1 == Created
    ensures var e := ItemEvent(l, s, s.Items()[|l|]);
      && e.Done? && NextStep(s, l).value.0 == l + [e.value] && Ingest(l, e.value) == NextStep(s, l)
      && WireValid(e.value) && Find(l, e.value.id) == None
  {
    hide CheckSchedule, ItemEvent, Ingest, WireValid, Find;
    CreatedAppends(l, ItemEvent(l, s, s.Items()[|l|]).value);
  }

  /** A run from the empty ledger stores its accepted items as the schedule's first rows. */
  lemma FreshRun(s: Schedule, limit: nat)
    requires AllCreated(Perform([], s, limit).answers)
    ensures var r := Perform([], s, limit);
      && Built(s, r.ledger) && |r.answers| == |r.ledger|
      && (r.refusal == None ==> |r.ledger| == Min(limit, |s.Items()|))
      && (r.refusal.Some? ==> |r.ledger| < Min(limit, |s.Items()|) && NextStep(s, r.ledger) == Refused(r.refusal.value))
  {
    hide CheckSchedule, BuiltAt, NextStep, RunFrom;
    EmptyChecks(s);
    FreshRuns(s, [], limit, 0 >= s.Cutoff(), []);
  }

  lemma CompletesBuilds(s: Schedule)
    requires Completes(s)
    ensures Built(s, Final(s)) && |Final(s)| == |s.Items()|
  {
    hide Perform, Built;
    FreshRun(s, |s.Items()|);
  }

  // --- Which prefixes pass the entry check ------------------------------------------------------

  lemma BuiltFresh(s: Schedule, final: Ledger, k: nat)
    requires Built(s, final) && k < |final|
    ensures Find(final[..k], final[k].id) == None && WireValid(final[k])
    ensures ItemEvent(final[..k], s, s.Items()[k]) == Done(final[k])
    ensures Ingest(final[..k], final[k]) == Done((final[..k + 1], Created))
  {
    hide Ingest, ItemEvent, CheckSchedule, NextStep, Find, WireValid;
    assert BuiltAt(s, final, k);
    StepAppends(s, final[..k]);
    assert final[..k + 1][k] == final[k];
  }

  lemma BuiltUnique(s: Schedule, final: Ledger)
    requires Built(s, final)
    ensures UniqueIds(final)
  {
    hide BuiltAt, Ingest;
    forall i, j | 0 <= i < j < |final| ensures final[i].id != final[j].id {
      BuiltFresh(s, final, j);
      assert final[..j][i] == final[i];
    }
  }

  lemma BuiltPrefix(s: Schedule, final: Ledger, m: nat)
    requires Built(s, final) && m <= |final|
    ensures Built(s, final[..m])
  {
    hide NextStep;
    forall k | 0 <= k < m ensures BuiltAt(s, final[..m], k) {
      assert BuiltAt(s, final, k);
      assert final[..m][..k] == final[..k] && final[..m][..k + 1] == final[..k + 1];
    }
  }

  /** An operation is rebuilt identically over every prefix that contains the cutoff. */
  lemma RebuildKept(s: Schedule, final: Ledger, op: Operation, i: nat, j: nat)
    requires s.Cutoff() <= i <= |final| && s.Cutoff() <= j <= |final| && Rebuild(final[..i], s, op).Done?
    ensures Rebuild(final[..j], s, op) == Rebuild(final[..i], s, op)
  {
    hide Attribute;
    var c := s.Cutoff();
    assert final[..i] == final[..c] + final[c..i] && final[..j] == final[..c] + final[c..j];
    AttributeSnapshot(final[..c], final[c..i], op.outcome, c, POLICY_VERSION);
    AttributeSnapshot(final[..c], final[c..j], op.outcome, c, POLICY_VERSION);
  }

  lemma PrefixMatches(s: Schedule, final: Ledger, m: nat, k: nat)
    requires Built(s, final) && k < m <= |final|
    ensures Matches(final[..m], s, k)
    ensures ItemEvent(final[..m], s, s.Items()[k]) == Done(final[k])
  {
    hide Rebuild, Ingest, CheckSchedule, Built;
    BuiltLength(s, final);
    BuiltFresh(s, final, k);
    ItemKinds(s, k);
    var item := s.Items()[k];
    if item.Attribution? {
      RebuildKept(s, final, item.operation, k, m);
    }
    assert final[..m][k] == final[k];
  }

  predicate ScheduledResult(s: Schedule, e: Event) {
    exists k :: 0 <= k < |s.operations| && IsResultFor(e, s.operations[k].outcome, POLICY_VERSION)
  }

  /** Once the cutoff is reached, none of the first m items is itself an envelope with a result
      for an outcome the schedule attributes. */
  predicate NoStrayResult(s: Schedule, m: nat) {
    m >= s.Cutoff() ==>
      forall i :: 0 <= i < m && i < |s.Items()| && s.Items()[i].Post? ==> !ScheduledResult(s, s.Items()[i].envelope)
  }

  lemma OperationRow(s: Schedule, final: Ledger, k: nat)
    requires Built(s, final) && k < |final| && s.Cutoff() <= k < s.Cutoff() + |s.operations|
    ensures final[k].id == Identity(s, s.operations[k - s.Cutoff()])
    ensures final[k].body.Attributed? && final[k].body.result.outcome == s.operations[k - s.Cutoff()].outcome
  {
    hide Ingest, CheckSchedule, Attribute, Built;
    BuiltFresh(s, final, k);
    ItemKinds(s, k);
    ResultNames(final[..k], s.operations[k - s.Cutoff()].outcome, s.Cutoff());
  }

  lemma ResultNames(l: Ledger, id: EventId, cutoff: int)
    requires Attribute(l, id, cutoff, POLICY_VERSION).Done?
    ensures var r := Attribute(l, id, cutoff, POLICY_VERSION).value;
      r.outcome == id && r.policy == POLICY_VERSION && r.cutoff == cutoff
  {
    hide LoadAction, LoadDecision, AccountActions, MostRecent, Eligible, ActionProblem, DecisionProblem;
  }

  lemma PostRow(s: Schedule, final: Ledger, i: nat)
    requires Built(s, final) && i < |final| && s.Items()[i].Post?
    ensures final[i] == s.Items()[i].envelope
  {
    hide Ingest, CheckSchedule, Built;
    BuiltFresh(s, final, i);
  }

  lemma IngestAdmits(l: Ledger, e: Event)
    requires Ingest(l, e).Done? && Ingest(l, e).value.1 == Created
    ensures Admit(l, e).Done?
  {
    hide Admit, WireValid, Find;
  }

  /** A stored result posted as an item does not have the identity of a scheduled operation:
      before the cutoff its own cutoff is too old, and after the operations theirs is used. */
  lemma PostedIsStray(s: Schedule, final: Ledger, i: nat, k: nat)
    requires Built(s, final) && i < |final| && s.Items()[i].Post? && k < |s.operations|
    requires IsResultFor(final[i], s.operations[k].outcome, POLICY_VERSION)
    ensures final[i].id != Identity(s, s.operations[k])
  {
    hide Ingest, CheckSchedule, Built, Attribute, Admit, CheckResultSupersession, LoadOutcome;
    BuiltLength(s, final);
    ItemKinds(s, i);
    BuiltFresh(s, final, i);
    if i < s.Cutoff() {
      IngestAdmits(final[..i], final[i]);
      AttributionChecks(final[..i], final[i]);
    } else {
      BuiltUnique(s, final);
      OperationRow(s, final, s.Cutoff() + k);
    }
  }

  lemma PrefixOnlyScheduled(s: Schedule, final: Ledger, m: nat)
    requires Built(s, final) && s.Cutoff() <= m <= |final|
    ensures OnlyScheduled(final[..m], s) <==> NoStrayResult(s, m)
  {
    hide Built;
    var l := final[..m];
    if NoStrayResult(s, m) {
      forall k, i | 0 <= k < |s.operations| && 0 <= i < m && IsResultFor(l[i], s.operations[k].outcome, POLICY_VERSION)
        ensures l[i].id == Identity(s, s.operations[k])
      {
        BuiltLength(s, final);
        ItemKinds(s, i);
        if s.Items()[i].Post? {
          PostRow(s, final, i);
          assert false;
        } else {
          OperationRow(s, final, i);
        }
      }
    }
    if OnlyScheduled(l, s) {
      forall i | 0 <= i < m && i < |s.Items()| && s.Items()[i].Post?
        ensures !ScheduledResult(s, s.Items()[i].envelope)
      {
        PostRow(s, final, i);
        forall k | 0 <= k < |s.operations| ensures !IsResultFor(final[i], s.operations[k].outcome, POLICY_VERSION) {
          if IsResultFor(final[i], s.operations[k].outcome, POLICY_VERSION) {
            PostedIsStray(s, final, i, k);
          }
        }
      }
    }
  }

  lemma BuiltLength(s: Schedule, final: Ledger)
    requires Built(s, final)
    ensures |final| <= |s.Items()|
  {
  }

  /** The rows of a schedule's first items pass its entry check exactly when none of those
      items is itself a result for an outcome the schedule attributes. */
  lemma PrefixChecks(s: Schedule, final: Ledger, m: nat)
    requires Built(s, final) && m <= |final|
    ensures CheckSchedule(final[..m], s).Done? <==> NoStrayResult(s, m)
    ensures !NoStrayResult(s, m) ==> CheckSchedule(final[..m], s) == Refused("schedule diverged")
  {
    hide Built, Matches, OnlyScheduled, ItemEvent, NoStrayResult;
    forall k | 0 <= k < m ensures k < |s.Items()| && Matches(final[..m], s, k) {
      BuiltLength(s, final);
      PrefixMatches(s, final, m, k);
    }
    if m >= s.Cutoff() {
      PrefixOnlyScheduled(s, final, m);
    } else {
      EarlyIsUnchecked(s, m);
    }
  }

  lemma EarlyIsUnchecked(s: Schedule, m: nat)
    requires m < s.Cutoff()
    ensures NoStrayResult(s, m)
  {
  }

  // --- Resuming --------------------------------------------------------------------------------------

  function Max(a: nat, b: nat): nat {
    if a < b then b else a
  }

  function Min(a: nat, b: nat): nat {
    if a < b then a else b
  }

  /** What a run resumed from m stored items answers from item k on: duplicates, then creations. */
  function Answers(k: nat, m: nat, end: nat): (r: seq<Answer>)
    requires k <= end
    ensures |r| == end - k && forall i :: 0 <= i < |r| ==> r[i] == if k + i < m then Duplicate else Created
  {
    seq(end - k, i requires 0 <= i < end - k => if k + i < m then Duplicate else Created)
  }

  lemma IngestStored(l: Ledger, k: nat)
    requires UniqueIds(l) && k < |l| && WireValid(l[k])
    ensures Ingest(l, l[k]) == Done((l, Duplicate))
  {
    FindAt(l, k);
    hide Find, WireValid;
  }

  /** The schedule has been checked, has no operations, or will be checked at the cutoff. */
  predicate ChecksLater(s: Schedule, m: nat, k: nat, verified: bool) {
    verified || s.operations == [] || (m < s.Cutoff() && k <= s.Cutoff())
  }

  /** Whether an operation lies among the items from k up to end. */
  predicate PassesOperations(s: Schedule, k: nat, end: nat) {
    Max(k, s.Cutoff()) < Min(end, s.Cutoff() + |s.operations|)
  }

  /** A run resumed over m stored items passes every item that was built: duplicates for those
      stored, creations for the others. */
  lemma {:induction false} Resumes(
    s: Schedule, final: Ledger, m: nat, k: nat, limit: nat, verified: bool, answers: seq<Answer>)
    requires Built(s, final) && m <= |final| && k <= Min(limit, |final|) && ChecksLater(s, m, k, verified)
    ensures var end := Min(limit, |final|);
      RunFrom(final[..Max(m, k)], s, k, limit, verified, answers)
      == RunFrom(
           final[..Max(m, end)], s, end, limit, verified || PassesOperations(s, k, end),
           answers + Answers(k, m, end))
    decreases |final| - k
  {
    hide Built, CheckSchedule, ItemEvent, Ingest, RunFrom;
    BuiltLength(s, final);
    var end := Min(limit, |final|);
    if k < end {
      ResumesOne(s, final, m, k, limit, verified, answers);
      ItemKinds(s, k);
      var answer := if k < m then Duplicate else Created;
      var verified' := verified || s.Items()[k].Attribution?;
      assert (verified' || PassesOperations(s, k + 1, end)) == (verified || PassesOperations(s, k, end));
      Resumes(s, final, m, k + 1, limit, verified', answers + [answer]);
      assert answers + [answer] + Answers(k + 1, m, end) == answers + Answers(k, m, end);
    } else {
      assert answers + Answers(k, m, end) == answers;
    }
  }

  lemma ResumesOne(
    s: Schedule, final: Ledger, m: nat, k: nat, limit: nat, verified: bool, answers: seq<Answer>)
    requires Built(s, final) && m <= |final| && k < Min(limit, |final|) && ChecksLater(s, m, k, verified)
    ensures RunFrom(final[..Max(m, k)], s, k, limit, verified, answers)
         == RunFrom(
              final[..Max(m, k + 1)], s, k + 1, limit, verified || s.Items()[k].Attribution?,
              answers + [if k < m then Duplicate else Created])
  {
    BuiltLength(s, final);
    BuiltFresh(s, final, k);
    ItemKinds(s, k);
    if s.Items()[k].Attribution? && !verified {
      CheckedAtCutoff(s, final, k);
    }
    hide Built, CheckSchedule, ItemEvent, Ingest;
    if k < m {
      PrefixMatches(s, final, m, k);
      BuiltUnique(s, final);
      PrefixUnique(final, m);
      assert final[..m][k] == final[k];
      IngestStored(final[..m], k);
    }
  }

  lemma CheckedAtCutoff(s: Schedule, final: Ledger, k: nat)
    requires Built(s, final) && k < |final| && k == s.Cutoff() && s.Items()[k].Attribution?
    ensures CheckSchedule(final[..k], s).Done?
  {
    hide CheckSchedule, ItemEvent, Ingest;
    assert BuiltAt(s, final, k);
  }

  lemma PrefixUnique(l: Ledger, m: nat)
    requires UniqueIds(l) && m <= |l|
    ensures UniqueIds(l[..m])
  {
  }

  lemma RunAtEnd(s: Schedule, l: Ledger, end: nat, limit: nat, verified: bool, answers: seq<Answer>)
    requires end >= |s.Items()| || end >= limit
    ensures RunFrom(l, s, end, limit, verified, answers) == SeedReport(l, answers, None)
  {
  }

  lemma PerformIs(s: Schedule, l: Ledger, limit: nat)
    ensures Perform(l, s, limit) == match CheckSchedule(l, s)
      case Refused(why) => SeedReport(l, [], Some(why))
      case Done(_) => RunFrom(l, s, 0, limit, |l| >= s.Cutoff(), [])
  {
    hide CheckSchedule, RunFrom;
  }

  /** What a further run does over the first m rows of a completed schedule. */
  lemma ResumesBuilt(s: Schedule, final: Ledger, m: nat, limit: nat)
    requires Built(s, final) && |final| == |s.Items()| && m <= |final|
    ensures Perform(final[..m], s, limit) ==
      if NoStrayResult(s, m) then
        SeedReport(final[..Max(m, Min(limit, |final|))], Answers(0, m, Min(limit, |final|)), None)
      else SeedReport(final[..m], [], Some("schedule diverged"))
  {
    hide Built, NoStrayResult, CheckSchedule, RunFrom, Perform;
    PerformIs(s, final[..m], limit);
    PrefixChecks(s, final, m);
    if NoStrayResult(s, m) {
      var end := Min(limit, |final|);
      var verified := m >= s.Cutoff();
      Resumes(s, final, m, 0, limit, verified, []);
      assert [] + Answers(0, m, end) == Answers(0, m, end);
      RunAtEnd(s, final[..Max(m, end)], end, limit, verified || PassesOperations(s, 0, end), Answers(0, m, end));
    }
  }

  /** From the ledger a stopped run leaves, a further run is refused exactly when a stored item
      is itself a result for an outcome the schedule attributes. Otherwise it answers duplicate
      for every stored item and created for the rest, and leaves exactly what an uninterrupted
      run of that length leaves. */
  lemma ResumptionIsExact(s: Schedule, stop: nat, limit: nat)
    requires Completes(s)
    ensures var m := Min(stop, |Final(s)|);
      var stopped := Perform([], s, stop).ledger;
      && stopped == Final(s)[..m]
      && Perform(stopped, s, limit) ==
           if NoStrayResult(s, m) then
             SeedReport(Final(s)[..Max(m, Min(limit, |Final(s)|))], Answers(0, m, Min(limit, |Final(s)|)), None)
           else SeedReport(Final(s)[..m], [], Some("schedule diverged"))
  {
    hide Built, NoStrayResult, CheckSchedule, Completes, Final, Perform;
    CompletesBuilds(s);
    var final := Final(s);
    EmptyChecks(s);
    assert final[..0] == [];
    PrefixChecks(s, final, 0);
    ResumesBuilt(s, final, 0, stop);
    ResumesBuilt(s, final, Min(stop, |final|), limit);
  }

  /** A run on the complete ledger changes nothing. */
  lemma CompleteRunIsIdle(s: Schedule)
    requires Completes(s) && NoStrayResult(s, |s.Items()|)
    ensures var r := Perform(Final(s), s, |s.Items()|);
      r.refusal == None && r.ledger == Final(s) && forall i :: 0 <= i < |r.answers| ==> r.answers[i] == Duplicate
  {
    hide Built, NoStrayResult, Completes, Final, Perform;
    CompletesBuilds(s);
    ResumesBuilt(s, Final(s), |s.Items()|, |s.Items()|);
    assert Final(s)[..|Final(s)|] == Final(s);
  }

  // --- Schedules that cannot be run again --------------------------------------------------------------

  /** No stage-2 envelope is itself a result for a scheduled outcome. */
  ghost predicate NoLateResult(s: Schedule) {
    forall j :: 0 <= j < |s.stage2| ==> !ScheduledResult(s, s.stage2[j])
  }

  /** In a schedule that completes no earlier envelope can be one. */
  lemma LateIsStray(s: Schedule)
    requires Completes(s)
    ensures NoLateResult(s) <==> NoStrayResult(s, |s.Items()|)
  {
    hide Completes, Final, Built, ScheduledResult;
    CompletesBuilds(s);
    var items := s.Items();
    forall i | 0 <= i < |items| && items[i].Post?
      ensures i < s.Cutoff() ==> !ScheduledResult(s, items[i].envelope)
      ensures i >= s.Cutoff() ==>
          i >= s.Cutoff() + |s.operations| && items[i].envelope == s.stage2[i - s.Cutoff() - |s.operations|]
    {
      ItemKinds(s, i);
      if i < s.Cutoff() {
        EarlyNotStray(s, Final(s), i);
      }
    }
    forall j | 0 <= j < |s.stage2| ensures items[s.Cutoff() + |s.operations| + j] == Post(s.stage2[j]) {
      ItemKinds(s, s.Cutoff() + |s.operations| + j);
    }
  }

  lemma EarlyNotStray(s: Schedule, final: Ledger, i: nat)
    requires Built(s, final) && |final| == |s.Items()| && i < s.Cutoff() && s.Items()[i].Post?
    ensures !ScheduledResult(s, s.Items()[i].envelope)
  {
    if s.operations != [] {
      var c := s.Cutoff();
      ItemKinds(s, c);
      CheckedAtCutoff(s, final, c);
      PrefixChecks(s, final, c);
    }
  }

  /** A schedule that completes once can be repeated exactly when none of its stage-2 envelopes
      is a result for an outcome it schedules. */
  lemma RepeatsIff(s: Schedule)
    requires Completes(s)
    ensures NoLateResult(s) <==> Perform(Final(s), s, |s.Items()|).refusal == None
  {
    hide Built, Completes, Final, Perform, NoStrayResult, NoLateResult;
    CompletesBuilds(s);
    LateIsStray(s);
    ResumesBuilt(s, Final(s), |s.Items()|, |s.Items()|);
    assert Final(s)[..|Final(s)|] == Final(s);
  }

  // --- Schedules refused midway ---------------------------------------------------------------------------

  lemma RefusedAgain(s: Schedule, l: Ledger, limit: nat, verified: bool, answers: seq<Answer>, why: string)
    requires |l| < |s.Items()| && |l| < limit && NextStep(s, l) == Refused(why)
    requires |l| == s.Cutoff() ==> CheckSchedule(l, s).Done?
    requires s.Items()[|l|].Attribution? ==> verified
    ensures RunFrom(l, s, |l|, limit, verified, answers) == SeedReport(l, answers, Some(why))
  {
    hide CheckSchedule, ItemEvent, Ingest;
  }

  /** The items a refused run had accepted are the schedule's first rows. A later run finds them
      as a matching prefix, answers duplicate for each, and is refused where the first one was,
      unless one of them is itself a result for an outcome the schedule attributes. */
  lemma RefusedRunRepeats(s: Schedule, limit: nat)
    requires Perform([], s, limit).refusal.Some? && AllCreated(Perform([], s, limit).answers)
    ensures var r := Perform([], s, limit);
      && Built(s, r.ledger)
      && Perform(r.ledger, s, limit) ==
           if NoStrayResult(s, |r.ledger|) then SeedReport(r.ledger, Answers(0, |r.ledger|, |r.ledger|), r.refusal)
           else SeedReport(r.ledger, [], Some("schedule diverged"))
  {
    hide Built, NoStrayResult, CheckSchedule, RunFrom, Perform, NextStep;
    FreshRun(s, limit);
    var r := Perform([], s, limit);
    var l := r.ledger;
    assert l[..|l|] == l;
    PerformIs(s, l, limit);
    PrefixChecks(s, l, |l|);
    if NoStrayResult(s, |l|) {
      var verified := |l| >= s.Cutoff();
      Resumes(s, l, |l|, 0, limit, verified, []);
      assert [] + Answers(0, |l|, |l|) == Answers(0, |l|, |l|);
      ItemKinds(s, |l|);
      RefusedAgain(s, l, limit, verified || PassesOperations(s, 0, |l|), Answers(0, |l|, |l|), r.refusal.value);
    }
  }
}
