/** The second write protocol: several operations may be prepared for one company, but
    at most one is ever uncertain and only the newest may send. */
module SimulatedOperations {
  import opened Outcome

  /** The operation id digests the whole intent, so the intent is the identity. The original
      decision behind an intent is verified elsewhere. */
  datatype Intent = Intent(company: string, decision: string, revision: nat, createdAt: int, content: string)

  datatype State = Prepared | Refusal | Superseded | Unknown | Applied | NotApplied

  datatype Reason = SendStarted | DefiniteRejection | OtherReason(text: string)

  datatype Properties = Nothing | Exactly(intent: Intent) | Different(text: string)

  datatype Observation = Observation(
    intent: Intent,
    number: nat,
    at: int,
    state: State,
    reason: Reason,
    properties: Properties,
    settled: set<Intent>,
    pending: set<Intent>,
    notApplied: set<Intent>)

  /** The log of one account. */
  type Log = seq<Observation>

  predicate Terminal(s: State) {
    s == Superseded || s == Applied || s == NotApplied
  }

  predicate Resolved(s: State) {
    s == Applied || s == NotApplied
  }

  predicate Allowed(was: State, now: State) {
    match was
    case Prepared => now == Refusal || now == Superseded || now == Unknown
    case Refusal => now == Refusal || now == Superseded || now == Unknown
    case Unknown => now == Unknown || now == Applied || now == NotApplied
    case _ => false
  }

  /** The company's observations. */
  function OfCompany(log: Log, company: string): (r: Log)
    ensures forall o :: o in r <==> o in log && o.intent.company == company
  {
    if log == [] then []
    else
      var before := OfCompany(log[..|log| - 1], company);
      var last := log[|log| - 1];
      if last.intent.company == company then before + [last] else before
  }

  function Own(log: Log, op: Intent): (r: Log)
    ensures forall o :: o in r <==> o in log && o.intent == op
  {
    if log == [] then []
    else
      var before := Own(log[..|log| - 1], op);
      var last := log[|log| - 1];
      if last.intent == op then before + [last] else before
  }

  function Latest(log: Log, op: Intent): (r: Option<Observation>)
    ensures r.None? <==> forall o :: o in log ==> o.intent != op
    ensures r.Some? ==> r.value in log && r.value.intent == op
  {
    if log == [] then None
    else if log[|log| - 1].intent == op then Some(log[|log| - 1])
    else Latest(log[..|log| - 1], op)
  }

  function HighestRevision(log: Log): (r: nat)
    ensures forall o :: o in log ==> o.intent.revision <= r
  {
    if log == [] then 0
    else
      var before := HighestRevision(log[..|log| - 1]);
      var last := log[|log| - 1].intent.revision;
      if last > before then last else before
  }

  predicate Marked(log: Log, op: Intent) {
    exists o :: o in log && o.intent == op && o.reason == SendStarted
  }

  /** Some other operation of the company was last seen unknown. */
  predicate OtherUnknown(log: Log, op: Intent) {
    exists o :: o in log && o.intent.company == op.company && o.intent != op
                && Latest(log, o.intent).Some? && Latest(log, o.intent).value.state == Unknown
  }

  function Step(log: Log, o: Observation): Outcome<()> {
    var op := o.intent;
    var last := Latest(log, op);
    var prior := OfCompany(log, op.company);
    var _ :-
      match last
      case None =>
        var _ :- Require(o.state == Prepared && o.number == 1, "operation_prepared_required");
        var _ :- Require(
          forall x :: x in prior ==> x.intent.decision != op.decision, "operation_original_already_bound");
        Require(op.revision == HighestRevision(prior) + 1, "operation_revision_conflict")
      case Some(was) =>
        var _ :- Require(o.number == was.number + 1, "operation_observation_sequence");
        var _ :- Require(was.at <= o.at, "operation_observation_time_reversed");
        var _ :- Require(!Terminal(was.state), "operation_terminal");
        Require(Allowed(was.state, o.state), "operation_invalid_transition");
    var _ :-
      if o.reason == SendStarted then
        var _ :- Require(
          && o.state == Unknown && last.Some?
          && (last.value.state == Prepared || last.value.state == Refusal) && !Marked(log, op),
          "operation_send_grant_already_used");
        Require(op.revision == HighestRevision(prior), "operation_stale_revision")
      else Require(o.state == Unknown ==> Marked(log, op), "operation_send_marker_required");
    var _ :- Require(o.reason == SendStarted || Resolved(o.state) ==>
      !OtherUnknown(log, op), "operation_earlier_uncertainty");
    var _ :- Require(
      o.state == Prepared || o.state == Refusal || o.state == Superseded ==>
        o.properties == Nothing && o.settled == {} && o.pending == {} && o.notApplied == {},
      "operation_unsent_claim_has_disposition");
    if Resolved(o.state) then
      var _ :- Require(op in o.settled && o.pending == {}, "operation_quiescence_required");
      if o.state == Applied then
        Require(op !in o.notApplied && o.properties == Exactly(op), "operation_full_tuple_required")
      else Require(op in o.notApplied && o.reason == DefiniteRejection, "operation_no_effect_proof_required")
    else Done(())
  }

  /** The logs the collector can reach: every observation passed its step. */
  ghost predicate Reachable(log: Log) {
    forall k :: 0 <= k < |log| ==> Step(log[..k], log[k]).Done?
  }

  /** Reading back: the whole log is stepped again from nothing. */
  method ReadHistory(log: Log) returns (r: Outcome<Log>)
    ensures r.Done? <==> Reachable(log)
    ensures r.Done? ==> r.value == log
  {
    hide Step;
    var documents: Log := [];
    for i := 0 to |log|
      invariant documents == log[..i] && Reachable(documents)
    {
      var step := Step(documents, log[i]);
      if step.Refused? {
        assert Step(log[..i], log[i]).Refused?;
        return Refused(step.reason);
      }
      assert log[..i + 1] == documents + [log[i]];
      ReachableAppend(documents, log[i]);
      documents := documents + [log[i]];
    }
    assert log[..|log|] == log;
    r := Done(documents);
  }

  lemma ReachableAppend(log: Log, o: Observation)
    requires Reachable(log) && Step(log, o).Done?
    ensures Reachable(log + [o])
  {
    hide Step;
    forall k | 0 <= k < |log + [o]| ensures Step((log + [o])[..k], (log + [o])[k]).Done? {
      assert (log + [o])[..k] == log[..k];
      if k == |log| {
        assert log[..k] == log;
      }
    }
  }

  lemma ReachablePrefix(log: Log, n: nat)
    requires Reachable(log) && n <= |log|
    ensures Reachable(log[..n])
  {
    hide Step;
    forall k | 0 <= k < n ensures Step(log[..n][..k], log[..n][k]).Done? {
      assert log[..n][..k] == log[..k];
    }
  }

  lemma StepAt(log: Log, k: nat)
    requires Reachable(log) && k < |log|
    ensures Step(log[..k], log[k]).Done?
  {
    hide Step;
  }

  // --- Uncertainty and send markers ---------------------------------------------------------

  ghost predicate IsUnknown(log: Log, op: Intent) {
    Latest(log, op).Some? && Latest(log, op).value.state == Unknown
  }

  /** At most one operation of a company is uncertain, and an operation at or past unknown
      is exactly one whose send was marked. */
  ghost predicate Certain(log: Log) {
    && (forall a, b :: IsUnknown(log, a) && IsUnknown(log, b) && a.company == b.company ==> a == b)
    && (forall op :: Marked(log, op) <==>
          Latest(log, op).Some? && (Latest(log, op).value.state == Unknown || Resolved(Latest(log, op).value.state)))
  }

  lemma LatestAppend(log: Log, o: Observation, op: Intent)
    ensures Latest(log + [o], op) == if o.intent == op then Some(o) else Latest(log, op)
    ensures Marked(log + [o], op) <==> Marked(log, op) || (o.intent == op && o.reason == SendStarted)
  {
    assert (log + [o])[..|log|] == log;
    assert o in log + [o];
  }

  predicate PastSend(s: State) {
    s == Unknown || Resolved(s)
  }

  /** What a step says about uncertainty: an operation becomes unknown only by a marked
      send while nothing else of the company is, and stays past its send afterwards. */
  lemma StepUncertainty(log: Log, o: Observation)
    requires Step(log, o).Done?
    ensures o.reason == SendStarted ==> o.state == Unknown && !OtherUnknown(log, o.intent)
    ensures o.state == Unknown && o.reason != SendStarted ==> Marked(log, o.intent)
    ensures Latest(log, o.intent).Some? ==>
      && !Terminal(Latest(log, o.intent).value.state)
      && (Latest(log, o.intent).value.state == Unknown ==> PastSend(o.state))
      && (Resolved(o.state) ==> Latest(log, o.intent).value.state == Unknown)
    ensures Latest(log, o.intent).None? ==> o.state == Prepared
  {
    hide Latest, Marked, HighestRevision, OfCompany, OtherUnknown;
  }

  lemma StepKeepsCertain(log: Log, o: Observation)
    requires Certain(log) && Step(log, o).Done?
    ensures Certain(log + [o])
  {
    StepUncertainty(log, o);
    hide Step, Latest, Marked, HighestRevision, OfCompany, OtherUnknown, IsUnknown;
    var all := log + [o];
    forall op
      ensures Marked(all, op) <==> Latest(all, op).Some? && PastSend(Latest(all, op).value.state)
    {
      LatestAppend(log, o, op);
      CertainAt(log, op);
    }
    forall a, b | IsUnknown(all, a) && IsUnknown(all, b) && a.company == b.company ensures a == b {
      UnknownAfter(log, o, a);
      UnknownAfter(log, o, b);
      assert IsUnknown(log, a) && IsUnknown(log, b) ==> a == b;
    }
  }

  lemma CertainAt(log: Log, op: Intent)
    requires Certain(log)
    ensures Marked(log, op) <==> Latest(log, op).Some? && PastSend(Latest(log, op).value.state)
  {
    hide Latest, Marked;
  }

  /** After a step an operation is unknown because it was, or because it was just sent
      while nothing else of its company was unknown. */
  lemma UnknownAfter(log: Log, o: Observation, op: Intent)
    requires Certain(log) && Step(log, o).Done? && IsUnknown(log + [o], op)
    ensures IsUnknown(log, op) || op == o.intent
    ensures op == o.intent && !IsUnknown(log, op) ==>
              forall x: Intent :: x.company == op.company && x != op ==> !IsUnknown(log, x)
  {
    StepUncertainty(log, o);
    LatestAppend(log, o, op);
    CertainAt(log, op);
    hide Step, Latest, Marked, Certain, OtherUnknown;
    if op == o.intent && !IsUnknown(log, op) {
      NoOtherUnknown(log, op);
    }
  }

  lemma NoOtherUnknown(log: Log, op: Intent)
    requires !OtherUnknown(log, op)
    ensures forall x: Intent :: x.company == op.company && x != op ==> !IsUnknown(log, x)
  {
    hide Latest;
    forall x: Intent | x.company == op.company && x != op ensures !IsUnknown(log, x) {
      if Latest(log, x).Some? {
        assert Latest(log, x).value in log;
      }
    }
  }

  lemma {:induction false} ReachableCertain(log: Log)
    requires Reachable(log)
    ensures Certain(log)
  {
    hide Step, Certain;
    if log == [] {
      assert Certain([]) by { EmptyCertain(); }
    } else {
      var n := |log| - 1;
      ReachablePrefix(log, n);
      ReachableCertain(log[..n]);
      StepAt(log, n);
      StepKeepsCertain(log[..n], log[n]);
      assert log[..n] + [log[n]] == log;
    }
  }

  lemma EmptyCertain()
    ensures Certain([])
  {
  }

  /** At every point of every run at most one operation of a company is uncertain. */
  lemma OneUnknown(log: Log, n: nat, a: Intent, b: Intent)
    requires Reachable(log) && n <= |log| && a.company == b.company
    requires IsUnknown(log[..n], a) && IsUnknown(log[..n], b)
    ensures a == b
  {
    ReachablePrefix(log, n);
    ReachableCertain(log[..n]);
  }

  predicate SentAt(log: Log, i: nat, op: Intent) {
    i < |log| && log[i].intent == op && log[i].reason == SendStarted
  }

  /** An operation is at or past unknown exactly when its send was marked, once. */
  lemma SentExactlyOnce(log: Log, op: Intent)
    requires Reachable(log)
    ensures (exists i: nat :: SentAt(log, i, op)) <==>
      Latest(log, op).Some? && (Latest(log, op).value.state == Unknown || Resolved(Latest(log, op).value.state))
    ensures forall i: nat, j: nat :: SentAt(log, i, op) && SentAt(log, j, op) ==> i == j
  {
    ReachableCertain(log);
    assert Marked(log, op) <==> exists i: nat :: SentAt(log, i, op) by { MarkedIsSent(log, op); }
    forall i: nat, j: nat | SentAt(log, i, op) && SentAt(log, j, op) ensures i == j {
      if i < j { OnceSent(log, i, j, op); }
      if j < i { OnceSent(log, j, i, op); }
    }
    hide Reachable, Certain;
  }

  lemma MarkedIsSent(log: Log, op: Intent)
    ensures Marked(log, op) <==> exists i: nat :: SentAt(log, i, op)
  {
    if Marked(log, op) {
      var o :| o in log && o.intent == op && o.reason == SendStarted;
      var i :| 0 <= i < |log| && log[i] == o;
      assert SentAt(log, i, op);
    }
    if exists i: nat :: SentAt(log, i, op) {
      var i: nat :| SentAt(log, i, op);
      assert log[i] in log;
    }
  }

  lemma OnceSent(log: Log, i: nat, j: nat, op: Intent)
    requires Reachable(log) && i < j && SentAt(log, i, op)
    ensures !SentAt(log, j, op)
  {
    if j < |log| {
      StepAt(log, j);
      assert log[..j][i] in log[..j];
      assert Marked(log[..j], op);
    }
    hide Reachable;
  }

  // --- Revisions ---------------------------------------------------------------------------------

  /** The company's operations in the order they were opened. */
  function Opened(log: Log, company: string): seq<Intent> {
    if log == [] then []
    else
      var before := Opened(log[..|log| - 1], company);
      var last := log[|log| - 1];
      if last.intent.company == company && last.state == Prepared then before + [last.intent] else before
  }

  ghost predicate Numbered(ops: seq<Intent>) {
    && (forall m :: 0 <= m < |ops| ==> ops[m].revision == m + 1)
    && (forall a, b :: 0 <= a < b < |ops| ==> ops[a].decision != ops[b].decision)
  }

  /** A company's operations carry revisions exactly 1, 2, ..., no original is used twice,
      and every observation belongs to one of them. */
  lemma {:induction false} RevisionsContiguous(log: Log, company: string)
    requires Reachable(log)
    ensures Numbered(Opened(log, company))
    ensures forall o :: o in log && o.intent.company == company ==> o.intent in Opened(log, company)
    ensures forall op :: op in Opened(log, company) ==> exists o :: o in log && o.intent == op && op.company == company
  {
    hide Step, Numbered;
    if log == [] {
      assert Numbered([]) by { NoneNumbered(); }
    } else {
      var n := |log| - 1;
      var before, o := log[..n], log[n];
      ReachablePrefix(log, n);
      RevisionsContiguous(before, company);
      StepAt(log, n);
      assert log == before + [o];
      StepOpens(before, o);
      if o.intent.company == company && o.state == Prepared {
        HighestIsCount(before, company);
        forall op | op in Opened(before, company) ensures op.decision != o.intent.decision {
          var x :| x in before && x.intent == op;
          assert x in OfCompany(before, company);
        }
        NumberedAppend(Opened(before, company), o.intent);
      }
    }
  }

  lemma NoneNumbered()
    ensures Numbered([])
  {
  }

  lemma StepOpens(log: Log, o: Observation)
    requires Step(log, o).Done?
    ensures o.state == Prepared <==> forall x :: x in log ==> x.intent != o.intent
    ensures o.state == Prepared ==>
      && o.intent.revision == HighestRevision(OfCompany(log, o.intent.company)) + 1
      && forall x :: x in OfCompany(log, o.intent.company) ==> x.intent.decision != o.intent.decision
    ensures o.reason == SendStarted ==>
      o.intent.revision == HighestRevision(OfCompany(log, o.intent.company))
    ensures o.reason == SendStarted ==> o.state == Unknown && exists x :: x in log && x.intent == o.intent
  {
    hide HighestRevision, OfCompany, Marked, OtherUnknown;
  }

  lemma NumberedAppend(ops: seq<Intent>, op: Intent)
    requires Numbered(ops) && op.revision == |ops| + 1
    requires forall x :: x in ops ==> x.decision != op.decision
    ensures Numbered(ops + [op])
  {
  }

  lemma HighestIsCount(log: Log, company: string)
    requires Numbered(Opened(log, company))
    requires forall o :: o in log && o.intent.company == company ==> o.intent in Opened(log, company)
    requires forall op :: op in Opened(log, company) ==> exists o :: o in log && o.intent == op && op.company == company
    ensures HighestRevision(OfCompany(log, company)) == |Opened(log, company)|
  {
    var prior, ops := OfCompany(log, company), Opened(log, company);
    hide Opened, OfCompany, HighestRevision;
    if ops != [] {
      var last := ops[|ops| - 1];
      assert last in ops;
      var o :| o in log && o.intent == last;
      assert o in prior;
    }
    if prior != [] {
      HighestAttained(prior);
      var o :| o in prior && o.intent.revision == HighestRevision(prior);
      var m :| 0 <= m < |ops| && ops[m] == o.intent;
    } else {
      assert HighestRevision(prior) == 0 by { HighestOfNone(prior); }
    }
  }

  lemma {:induction false} HighestAttained(log: Log)
    requires log != []
    ensures exists o :: o in log && o.intent.revision == HighestRevision(log)
  {
    var last := log[|log| - 1];
    assert last in log;
    if |log| > 1 {
      HighestAttained(log[..|log| - 1]);
      var o :| o in log[..|log| - 1] && o.intent.revision == HighestRevision(log[..|log| - 1]);
      assert o in log;
    } else {
      assert log[..0] == [] && HighestRevision(log[..0]) == 0;
    }
  }

  lemma HighestOfNone(log: Log)
    requires log == []
    ensures HighestRevision(log) == 0
  {
  }

  /** Two operations of a company never share a revision. */
  lemma RevisionsDistinct(log: Log, a: Observation, b: Observation)
    requires Reachable(log) && a in log && b in log
    requires a.intent.company == b.intent.company && a.intent.revision == b.intent.revision
    ensures a.intent == b.intent
  {
    RevisionsContiguous(log, a.intent.company);
    hide Reachable;
    var ops := Opened(log, a.intent.company);
    var i :| 0 <= i < |ops| && ops[i] == a.intent;
    var j :| 0 <= j < |ops| && ops[j] == b.intent;
  }

  /** The revisions actually sent strictly increase over every run. */
  lemma SentRevisionsIncrease(log: Log, i: nat, j: nat, a: Intent, b: Intent)
    requires Reachable(log) && i < j && SentAt(log, i, a) && SentAt(log, j, b) && a.company == b.company
    ensures a.revision < b.revision
  {
    hide Reachable, Step;
    StepAt(log, j);
    StepOpens(log[..j], log[j]);
    assert log[..j][i] in log[..j];
    assert log[i] in OfCompany(log[..j], a.company);
    if a.revision == b.revision {
      assert log[i] in log && log[j] in log;
      RevisionsDistinct(log, log[i], log[j]);
      OnceSent(log, i, j, b);
    }
  }

  /** Once a newer operation exists for the company, an older one can never send again,
      after any further observations. */
  lemma OvertakenNeverSends(log: Log, more: Log, newer: Observation, o: Observation)
    requires newer in log && newer.intent.company == o.intent.company && o.intent.revision < newer.intent.revision
    requires o.reason == SendStarted
    ensures Step(log + more, o).Refused?
  {
    hide Step;
    var all := log + more;
    assert newer in all;
    assert newer in OfCompany(all, o.intent.company);
    if Step(all, o).Done? {
      StepOpens(all, o);
    }
  }

  /** While an operation is uncertain, nothing else of its company may send or be resolved. */
  lemma UncertaintyBlocks(log: Log, op: Intent, o: Observation)
    requires IsUnknown(log, op) && o.intent.company == op.company && o.intent != op
    requires o.reason == SendStarted || Resolved(o.state)
    ensures Step(log, o).Refused?
  {
    assert Latest(log, op).value in log;
    assert OtherUnknown(log, o.intent);
    hide Latest, HighestRevision, OfCompany, Marked;
  }

  /** Only an uncertain, sent operation can be resolved, and applied only by a read of
      exactly what it intended with nothing pending. */
  lemma ResolutionIsProved(log: Log, o: Observation)
    requires Reachable(log) && Step(log, o).Done? && Resolved(o.state)
    ensures IsUnknown(log, o.intent) && exists i: nat :: SentAt(log, i, o.intent)
    ensures o.intent in o.settled && o.pending == {}
    ensures o.state == Applied ==> o.properties == Exactly(o.intent) && o.intent !in o.notApplied
    ensures o.state == NotApplied ==> o.intent in o.notApplied && o.reason == DefiniteRejection
  {
    hide Reachable, Latest, Marked, HighestRevision, OfCompany, OtherUnknown;
    StepUncertainty(log, o);
    SentExactlyOnce(log, o.intent);
  }
}
