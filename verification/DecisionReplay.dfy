/** Replaying a recorded decision from its preserved context: the reader's own checks never
    refuse what ingest accepted, the answer never changes, and it is a reproduction exactly
    when the pinned rules give what was recorded. */
module DecisionReplay {
  import opened Outcome
  import opened Ledger
  import opened DecisionRecords
  import opened Collector
  import AttributionSafety
  import E = Evaluator
  import C = Counterfactual

  // --- The preserved context in key order ------------------------------------------------------

  function InsertEntry(x: ContextEntry, entries: seq<ContextEntry>): seq<ContextEntry> {
    if entries == [] then [x]
    else if C.Less(entries[0].key, x.key) then [entries[0]] + InsertEntry(x, entries[1..])
    else [x] + entries
  }

  function SortEntries(entries: seq<ContextEntry>): seq<ContextEntry> {
    if entries == [] then [] else InsertEntry(entries[0], SortEntries(entries[1..]))
  }

  lemma {:induction false} InsertIsPermutation(x: ContextEntry, entries: seq<ContextEntry>)
    ensures multiset(InsertEntry(x, entries)) == multiset{x} + multiset(entries)
  {
    if entries == [] {
    } else if C.Less(entries[0].key, x.key) {
      InsertIsPermutation(x, entries[1..]);
      assert entries == [entries[0]] + entries[1..];
    }
  }

  /** The rows read back are the rows preserved, in another order. */
  lemma {:induction false} SortIsPermutation(entries: seq<ContextEntry>)
    ensures multiset(SortEntries(entries)) == multiset(entries)
  {
    if entries != [] {
      SortIsPermutation(entries[1..]);
      InsertIsPermutation(entries[0], SortEntries(entries[1..]));
      assert entries == [entries[0]] + entries[1..];
    }
  }

  lemma SortMembers(entries: seq<ContextEntry>)
    ensures forall x :: x in SortEntries(entries) <==> x in entries
  {
    SortIsPermutation(entries);
    forall x ensures x in SortEntries(entries) <==> x in entries {
      assert x in multiset(SortEntries(entries)) <==> x in multiset(entries);
    }
  }

  ghost predicate OncePerKey(entries: seq<ContextEntry>) {
    forall i, j :: 0 <= i < j < |entries| ==> entries[i].key != entries[j].key
  }

  lemma {:induction false} InsertOnce(x: ContextEntry, entries: seq<ContextEntry>)
    requires OncePerKey(entries) && forall y :: y in entries ==> y.key != x.key
    ensures OncePerKey(InsertEntry(x, entries))
    ensures forall y :: y in InsertEntry(x, entries) <==> y == x || y in entries
  {
    if entries != [] && C.Less(entries[0].key, x.key) {
      assert entries == [entries[0]] + entries[1..];
      InsertOnce(x, entries[1..]);
      var rest := InsertEntry(x, entries[1..]);
      forall j | 0 <= j < |rest| ensures rest[j].key != entries[0].key {
        assert rest[j] in rest;
      }
    } else {
      forall j | 0 <= j < |entries| ensures entries[j].key != x.key {
        assert entries[j] in entries;
      }
    }
  }

  lemma {:induction false} SortOnce(entries: seq<ContextEntry>)
    requires OncePerKey(entries)
    ensures OncePerKey(SortEntries(entries))
    ensures forall y :: y in SortEntries(entries) <==> y in entries
  {
    if entries != [] {
      assert entries == [entries[0]] + entries[1..];
      SortOnce(entries[1..]);
      InsertOnce(entries[0], SortEntries(entries[1..]));
    }
  }

  // --- Reading the context back ------------------------------------------------------------------

  function LoadEntry(l: Ledger, x: ContextEntry, boundary: int): Outcome<E.ContextInput<string>> {
    match x.version
    case None => Done(E.ContextInput(x.key, x.available, x.value, None, None))
    case Some(version) =>
      var evidence := FindVersion(l, version);
      var _ :- Require(evidence.Some?, "evidence_version_id");
      var _ :- Require(evidence.value.availableAt <= boundary, "available_at");
      Done(E.ContextInput(x.key, x.available, x.value, x.version, evidence.value.observedAt))
  }

  function LoadEntries(l: Ledger, entries: seq<ContextEntry>, boundary: int): (r: Outcome<seq<E.ContextInput<string>>>)
    ensures r.Done? ==> |r.value| == |entries|
    ensures r.Done? ==> forall i :: 0 <= i < |entries| ==> LoadEntry(l, entries[i], boundary) == Done(r.value[i])
  {
    if entries == [] then Done([])
    else
      var before :- LoadEntries(l, entries[..|entries| - 1], boundary);
      var last :- LoadEntry(l, entries[|entries| - 1], boundary);
      Done(before + [last])
  }

  /** The loop that resolves each preserved reference by its own id. */
  method ReadContext(
    l: Ledger, context: seq<ContextEntry>, boundary: int) returns (r: Outcome<seq<E.ContextInput<string>>>)
    ensures r == LoadEntries(l, SortEntries(context), boundary)
  {
    hide LoadEntry;
    var rows := SortEntries(context);
    var inputs: seq<E.ContextInput<string>> := [];
    for i := 0 to |rows|
      invariant LoadEntries(l, rows[..i], boundary) == Done(inputs)
    {
      assert rows[..i + 1][..i] == rows[..i];
      LoadRefusedStays(l, rows, i + 1, boundary);
      var one := LoadEntry(l, rows[i], boundary);
      if one.Refused? {
        return Refused(one.reason);
      }
      inputs := inputs + [one.value];
    }
    assert rows[..|rows|] == rows;
    r := Done(inputs);
  }

  lemma LoadRefusedStays(l: Ledger, entries: seq<ContextEntry>, n: nat, boundary: int)
    requires n <= |entries|
    ensures LoadEntries(l, entries[..n], boundary).Refused? ==>
              LoadEntries(l, entries, boundary) == LoadEntries(l, entries[..n], boundary)
    decreases |entries| - n
  {
    hide LoadEntry;
    if n < |entries| {
      assert entries[..n + 1][..n] == entries[..n];
      LoadRefusedStays(l, entries, n + 1, boundary);
    } else {
      assert entries[..n] == entries;
    }
  }

  // --- Reconstruction --------------------------------------------------------------------------------

  type Triple = (string, Option<string>, int)

  function RecordedTriples(consumed: seq<UsedInput>): set<Triple> {
    set i | 0 <= i < |consumed| :: (consumed[i].key, Some(consumed[i].version), consumed[i].contribution)
  }

  function EvaluatedTriples(factors: seq<E.FactorResult<string>>): set<Triple> {
    set i | 0 <= i < |factors| && factors[i].state == E.Consumed ::
      (factors[i].key, factors[i].version, factors[i].contribution)
  }

  function CompareWithRecorded(result: E.Evaluation<string>, r: DecisionRecord): Outcome<()> {
    var _ :- Require(r.score == result.score, "score");
    var _ :- Require(r.threshold == result.threshold, "threshold");
    var _ :- Require(r.output == result.output, "output");
    Require(RecordedTriples(r.consumed) == EvaluatedTriples(result.factors), "consumed_inputs")
  }

  /** An artifact hash is the artifact, so the stored row is what its hash names. */
  function VerifyArtifact(l: Ledger, kind: string, r: DecisionRecord): Outcome<E.Artifact> {
    var _ :- Require(Registered(l, r.artifact), "artifact_missing");
    var _ :- Require(r.artifact.evaluatorVersion == E.EVALUATOR_VERSION, "evaluator_version");
    var _ :- Require(
      r.logicVersion == r.artifact.logicVersion && kind == r.artifact.kind
        && r.evaluatorVersion == r.artifact.evaluatorVersion,
      "decision logic identity");
    Done(r.artifact)
  }

  function ReconstructRow(l: Ledger, d: Event): Outcome<E.Evaluation<string>>
    requires d.body.Decided?
  {
    var r := d.body.record;
    var artifact :- VerifyArtifact(l, d.body.kind, r);
    var context :- LoadEntries(l, SortEntries(r.context), d.body.boundary);
    var result :- E.Evaluate(artifact, context, d.body.boundary);
    var _ :- CompareWithRecorded(result, r);
    Done(result)
  }

  /** Reproduces one recorded decision from what it preserved, or refuses. */
  function Reconstruct(l: Ledger, id: EventId): Outcome<E.Evaluation<string>> {
    match Find(l, id)
    case None => Refused("decision_not_found")
    case Some(i) =>
      if l[i].body.Decided? then ReconstructRow(l, l[i]) else Refused("decision_not_found")
  }

  // --- What acceptance guarantees the reader -----------------------------------------------------------

  /** Everything an accepted decision refers to is stored, and stays stored. */
  ghost predicate Backed(l: Ledger, d: Event)
    requires d.body.Decided?
  {
    && Registered(l, d.body.record.artifact)
    && d.body.record.artifact.logicVersion == d.body.record.logicVersion
    && d.body.record.artifact.evaluatorVersion == d.body.record.evaluatorVersion
    && d.body.record.artifact.kind == d.body.kind
    && RecordCoherent(d.body.record)
    && forall x :: x in d.body.record.context && x.version.Some? ==>
         x.available && Refers(l, d.account, d.body.boundary, x.key, x.version.value, x.value)
  }

  lemma DecisionChecked(l: Ledger, e: Event)
    requires e.body.Decided? && Admit(l, e).Done?
    ensures WireValid(e) && CheckDecision(l, e).Done?
  {
    hide Find, CheckAccount, CheckDecision, WireValid;
  }

  lemma CheckedIsBacked(l: Ledger, e: Event)
    requires e.body.Decided? && Admit(l, e).Done?
    ensures Backed(l, e)
  {
    DecisionChecked(l, e);
    hide Admit, Registered, CheckContext, CheckConsumed, Refers;
    var r := e.body.record;
    forall x | x in r.context && x.version.Some?
      ensures x.available && Refers(l, e.account, e.body.boundary, x.key, x.version.value, x.value)
    {
      var i :| 0 <= i < |r.context| && r.context[i] == x;
      assert EntryCoherent(r.context[i]);
      ContextRefers(l, e.account, e.body.boundary, r.context, x);
    }
  }

  lemma BackedKept(l: Ledger, more: Ledger, d: Event)
    requires d.body.Decided? && Backed(l, d)
    ensures Backed(l + more, d)
  {
    hide Registered, Refers, RecordCoherent;
    RegisteredKept(l, more, d.body.record.artifact);
    forall x | x in d.body.record.context && x.version.Some?
      ensures Refers(l + more, d.account, d.body.boundary, x.key, x.version.value, x.value)
    {
      RefersKept(l, more, d.account, d.body.boundary, x.key, x.version.value, x.value);
    }
  }

  /** Every accepted decision is backed on its own ledger and on every later one. */
  lemma AcceptedIsBacked(l: Ledger, i: nat)
    requires Reachable(l) && i < |l| && l[i].body.Decided?
    ensures Backed(l, l[i])
  {
    hide Reachable, Admit, Backed;
    AttributionSafety.AdmittedAt(l, i);
    CheckedIsBacked(l[..i], l[i]);
    BackedKept(l[..i], l[i..], l[i]);
    assert l[..i] + l[i..] == l;
  }

  lemma EntryLoads(l: Ledger, more: Ledger, d: Event, x: ContextEntry)
    requires d.body.Decided? && Backed(l, d) && x in d.body.record.context
    ensures LoadEntry(l, x, d.body.boundary).Done?
    ensures LoadEntry(l + more, x, d.body.boundary) == LoadEntry(l, x, d.body.boundary)
  {
    hide FindVersion, Registered, RecordCoherent;
    if x.version.Some? {
      VersionKept(l, more, x.version.value);
    }
  }

  lemma {:induction false} EntriesLoad(l: Ledger, more: Ledger, d: Event, entries: seq<ContextEntry>)
    requires d.body.Decided? && Backed(l, d)
    requires forall x :: x in entries ==> x in d.body.record.context
    ensures LoadEntries(l, entries, d.body.boundary).Done?
    ensures LoadEntries(l + more, entries, d.body.boundary) == LoadEntries(l, entries, d.body.boundary)
  {
    hide Backed, LoadEntry;
    if entries != [] {
      EntriesLoad(l, more, d, entries[..|entries| - 1]);
      EntryLoads(l, more, d, entries[|entries| - 1]);
    }
  }

  /** Reading an accepted decision's context back never fails, and never changes. */
  lemma ContextLoads(l: Ledger, more: Ledger, i: nat)
    requires Reachable(l) && i < |l| && l[i].body.Decided?
    ensures var entries := SortEntries(l[i].body.record.context);
      && LoadEntries(l, entries, l[i].body.boundary).Done?
      && LoadEntries(l + more, entries, l[i].body.boundary) == LoadEntries(l, entries, l[i].body.boundary)
  {
    hide Reachable, Backed, LoadEntries;
    AcceptedIsBacked(l, i);
    SortMembers(l[i].body.record.context);
    EntriesLoad(l, more, l[i], SortEntries(l[i].body.record.context));
  }

  /** The context an accepted decision is evaluated over. */
  function Preserved(l: Ledger, d: Event): seq<E.ContextInput<string>>
    requires d.body.Decided?
  {
    var loaded := LoadEntries(l, SortEntries(d.body.record.context), d.body.boundary);
    if loaded.Done? then loaded.value else []
  }

  /** What was recorded is what these rules give. */
  predicate Agrees(result: E.Evaluation<string>, r: DecisionRecord) {
    && r.score == result.score && r.threshold == result.threshold && r.output == result.output
    && RecordedTriples(r.consumed) == EvaluatedTriples(result.factors)
  }

  /** An accepted decision is reproduced exactly when this runtime evaluates its artifact and
      the pinned rules give, over the preserved context, the recorded score, threshold, output
      and consumed triples. Nothing else can refuse it. */
  lemma ReconstructIff(l: Ledger, i: nat)
    requires Reachable(l) && i < |l| && l[i].body.Decided?
    ensures var r := l[i].body.record;
      var result := E.Evaluate(r.artifact, Preserved(l, l[i]), l[i].body.boundary);
      && (Reconstruct(l, l[i].id).Done? <==>
            r.artifact.evaluatorVersion == E.EVALUATOR_VERSION && result.Done? && Agrees(result.value, r))
      && (Reconstruct(l, l[i].id).Done? ==> Reconstruct(l, l[i].id) == result)
  {
    hide Reachable, E.Evaluate, LoadEntries, Registered, RecordedTriples, EvaluatedTriples, RecordCoherent, Find;
    AttributionSafety.ReachableUnique(l);
    FindAt(l, i);
    AcceptedIsBacked(l, i);
    ContextLoads(l, [], i);
  }

  /** A recorded decision is replayed with the same answer, or the same refusal, on every
      later ledger. */
  lemma ReconstructKept(l: Ledger, more: Ledger, i: nat)
    requires Reachable(l) && i < |l| && l[i].body.Decided?
    ensures Reconstruct(l + more, l[i].id) == Reconstruct(l, l[i].id)
    ensures Preserved(l + more, l[i]) == Preserved(l, l[i])
  {
    hide Reachable, E.Evaluate, LoadEntries, Registered, CompareWithRecorded, RecordCoherent, Find, Refers;
    AttributionSafety.ReachableUnique(l);
    FindAt(l, i);
    FindAppend(l, more, l[i].id);
    AcceptedIsBacked(l, i);
    RegisteredKept(l, more, l[i].body.record.artifact);
    ContextLoads(l, more, i);
  }
}
