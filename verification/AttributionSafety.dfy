/** What holds in every reachable ledger: snapshots never change, versions and results
    form linear chains whose selection is never ambiguous, and every stored result is
    what the policy recomputes. */
module AttributionSafety {
  import opened Outcome
  import opened Ledger
  import opened AttributionPolicy
  import opened Collector

  lemma AdmittedAt(l: Ledger, i: nat)
    requires Reachable(l) && i < |l|
    ensures Admit(l[..i], l[i]).Done?
  {
  }

  lemma ReachableUnique(l: Ledger)
    requires Reachable(l)
    ensures UniqueIds(l)
  {
    forall i, j | 0 <= i < j < |l| ensures l[i].id != l[j].id {
      AdmittedAt(l, j);
      assert l[..j][i] == l[i];
    }
  }

  // --- Snapshots never change -------------------------------------------------------

  lemma DecisionSnapshot(l: Ledger, more: Ledger, id: EventId, cutoff: int)
    requires cutoff <= |l|
    ensures LoadDecision(l + more, id, cutoff) == LoadDecision(l, id, cutoff)
  {
    FindAppend(l, more, id);
  }

  lemma CandidateSnapshot(l: Ledger, more: Ledger, i: nat, cutoff: int)
    requires cutoff <= |l| && i < |l| && l[i].body.Acted?
    ensures CandidateAt(l + more, i, cutoff) == CandidateAt(l, i, cutoff)
  {
    DecisionSnapshot(l, more, l[i].body.decision, cutoff);
  }

  lemma ActionSnapshot(l: Ledger, more: Ledger, id: EventId, cutoff: int)
    requires cutoff <= |l|
    ensures LoadAction(l + more, id, cutoff) == LoadAction(l, id, cutoff)
  {
    FindAppend(l, more, id);
    var found := Find(l, id);
    if found.Some? && l[found.value].body.Acted? {
      CandidateSnapshot(l, more, found.value, cutoff);
    }
  }

  lemma {:induction false} AccountActionsSnapshot(l: Ledger, more: Ledger, account: string, cutoff: int, n: nat)
    requires cutoff <= |l| && n <= |l + more|
    ensures AccountActions(l + more, account, cutoff, n)
         == AccountActions(l, account, cutoff, if n <= |l| then n else |l|)
  {
    if n > 0 {
      AccountActionsSnapshot(l, more, account, cutoff, n - 1);
      if n <= |l| && l[n - 1].body.Acted? {
        CandidateSnapshot(l, more, n - 1, cutoff);
      }
    }
  }

  lemma OutcomeSnapshot(l: Ledger, more: Ledger, id: EventId, cutoff: int)
    requires cutoff <= |l|
    ensures LoadOutcome(l, id, cutoff).Done? <==> LoadOutcome(l + more, id, cutoff).Done?
    ensures LoadOutcome(l, id, cutoff).Done? ==> LoadOutcome(l + more, id, cutoff) == LoadOutcome(l, id, cutoff)
  {
    FindAppend(l, more, id);
  }

  /** A computed result is the same on every later ledger, and one refused for anything
      inside its snapshot stays refused. */
  lemma AttributeSnapshot(l: Ledger, more: Ledger, id: EventId, cutoff: int, policy: string)
    requires cutoff <= |l|
    ensures Attribute(l, id, cutoff, policy).Done? <==> Attribute(l + more, id, cutoff, policy).Done?
    ensures Attribute(l, id, cutoff, policy).Done? ==>
              Attribute(l + more, id, cutoff, policy) == Attribute(l, id, cutoff, policy)
  {
    hide LoadOutcome, LoadAction, LoadDecision, AccountActions, Resolve;
    OutcomeSnapshot(l, more, id, cutoff);
    if LoadOutcome(l, id, cutoff).Done? {
      var e := LoadOutcome(l, id, cutoff).value;
      if ActionClaim(e).Some? {
        ActionSnapshot(l, more, ActionClaim(e).value, cutoff);
      }
      if DecisionClaim(e).Some? {
        DecisionSnapshot(l, more, DecisionClaim(e).value, cutoff);
      }
      AccountActionsSnapshot(l, more, e.account, cutoff, |l + more|);
    }
  }

  lemma {:induction false} SuccessorsSnapshot(l: Ledger, more: Ledger, current: EventId, cutoff: int, n: nat)
    requires cutoff <= |l| && n <= |l + more|
    ensures Successors(l + more, current, cutoff, n) == Successors(l, current, cutoff, if n <= |l| then n else |l|)
  {
    if n > 0 {
      SuccessorsSnapshot(l, more, current, cutoff, n - 1);
    }
  }

  lemma {:induction false} WalkSnapshot(l: Ledger, more: Ledger, current: EventId, seen: set<EventId>, cutoff: int)
    requires cutoff <= |l|
    ensures Walk(l + more, current, seen, cutoff) == Walk(l, current, seen, cutoff)
    decreases Ids(l) - seen
  {
    SuccessorsSnapshot(l, more, current, cutoff, |l + more|);
    var successors := Successors(l, current, cutoff, |l|);
    if |successors| == 1 && successors[0] !in seen {
      SuccessorsRecorded(l, current, cutoff, |l|);
      assert successors[0] in successors;
      WalkSnapshot(l, more, successors[0], seen + {successors[0]}, cutoff);
    }
  }

  lemma VersionSnapshot(l: Ledger, more: Ledger, id: EventId, cutoff: int)
    requires cutoff <= |l| && LoadOutcome(l, id, cutoff).Done?
    ensures EffectiveVersion(l + more, id, cutoff) == EffectiveVersion(l, id, cutoff)
  {
    OutcomeSnapshot(l, more, id, cutoff);
    WalkSnapshot(l, more, id, {id}, cutoff);
  }

  lemma {:induction false} ResultsSnapshot(
    l: Ledger, more: Ledger, outcome: EventId, policy: string, cutoff: int, n: nat)
    requires cutoff <= |l| && n <= |l + more|
    ensures Results(l + more, outcome, policy, cutoff, n)
         == Results(l, outcome, policy, cutoff, if n <= |l| then n else |l|)
  {
    if n > 0 {
      ResultsSnapshot(l, more, outcome, policy, cutoff, n - 1);
    }
  }

  /** The tip selected at a cutoff never changes. */
  lemma EffectiveSnapshot(l: Ledger, more: Ledger, outcome: EventId, policy: string, cutoff: int)
    requires cutoff <= |l|
    ensures EffectiveAttribution(l + more, outcome, policy, cutoff) == EffectiveAttribution(l, outcome, policy, cutoff)
  {
    ResultsSnapshot(l, more, outcome, policy, cutoff, |l + more|);
  }

  // --- Outcome versions form linear chains -------------------------------------------

  ghost predicate Replaces(l: Ledger, i: nat, id: EventId)
    requires i < |l|
  {
    IsOutcome(l[i]) && SupersededBy(l[i]) == Some(id)
  }

  /** A walk answers where it stands or somewhere it has not been. */
  lemma {:induction false} WalkLeavesSeen(l: Ledger, current: EventId, seen: set<EventId>, cutoff: int)
    ensures var r := Walk(l, current, seen, cutoff);
      r.Done? ==> (r.value == current && Successors(l, current, cutoff, |l|) == []) || r.value !in seen
    decreases Ids(l) - seen
  {
    var successors := Successors(l, current, cutoff, |l|);
    if |successors| == 1 && successors[0] !in seen {
      SuccessorsRecorded(l, current, cutoff, |l|);
      assert successors[0] in successors;
      WalkLeavesSeen(l, successors[0], seen + {successors[0]}, cutoff);
    }
  }

  /** An accepted replacement names an earlier version of its own account which nothing
      had replaced. */
  lemma ReplacementNamesATip(l: Ledger, i: nat, id: EventId) returns (k: nat)
    requires Reachable(l) && i < |l| && Replaces(l, i, id)
    ensures k < i && l[k].id == id && IsOutcome(l[k]) && l[k].account == l[i].account
    ensures forall j :: 0 <= j < i ==> !Replaces(l, j, id)
  {
    hide Reachable, Admit, LoadOutcome, EffectiveVersion;
    AdmittedAt(l, i);
    var prefix := l[..i];
    SupersessionChecks(prefix, l[i], id);
    k := VersionLocated(prefix, id, i);
    NoSuccessors(prefix, id, i, i);
    forall j | 0 <= j < i ensures !Replaces(l, j, id) {
      assert Replaces(prefix, j, id) <==> Replaces(l, j, id);
    }
  }

  lemma SupersessionChecks(l: Ledger, e: Event, id: EventId)
    requires Admit(l, e).Done? && IsOutcome(e) && SupersededBy(e) == Some(id)
    ensures LoadOutcome(l, id, |l|).Done? && LoadOutcome(l, id, |l|).value.account == e.account
    ensures EffectiveVersion(l, id, |l|) == Done(id)
  {
    hide LoadOutcome, EffectiveVersion, WireValid, CheckAccount;
    assert CheckOutcomeSupersession(l, e, id).Done?;
  }

  lemma VersionLocated(l: Ledger, id: EventId, cutoff: int) returns (k: nat)
    requires LoadOutcome(l, id, cutoff).Done? && EffectiveVersion(l, id, cutoff) == Done(id)
    ensures k < |l| && l[k].id == id && l[k] == LoadOutcome(l, id, cutoff).value && IsOutcome(l[k])
    ensures Successors(l, id, cutoff, |l|) == []
  {
    k := Find(l, id).value;
    WalkLeavesSeen(l, id, {id}, cutoff);
  }

  lemma {:induction false} NoSuccessors(l: Ledger, id: EventId, cutoff: int, n: nat)
    requires n <= |l|
    ensures Successors(l, id, cutoff, n) == [] <==> forall i :: 0 <= i < n && i < cutoff ==> !Replaces(l, i, id)
  {
    if n > 0 {
      NoSuccessors(l, id, cutoff, n - 1);
      assert Successors(l, id, cutoff, n) == []
        <==> Successors(l, id, cutoff, n - 1) == [] && !(n - 1 < cutoff && Replaces(l, n - 1, id));
    }
  }

  /** No version is ever replaced twice. */
  lemma OnlyReplacement(l: Ledger, i: nat, j: nat, id: EventId)
    requires Reachable(l) && i < |l| && j < |l| && i != j && Replaces(l, j, id)
    ensures !Replaces(l, i, id)
  {
    hide Reachable;
    var b := ReplacementNamesATip(l, j, id);
    if j < i && Replaces(l, i, id) {
      var a := ReplacementNamesATip(l, i, id);
    }
  }

  lemma {:induction false} AtMostOneSuccessor(l: Ledger, id: EventId, cutoff: int, n: nat)
    requires Reachable(l) && n <= |l|
    ensures |Successors(l, id, cutoff, n)| <= 1
  {
    hide Reachable;
    if n > 0 {
      AtMostOneSuccessor(l, id, cutoff, n - 1);
      if n <= cutoff && Replaces(l, n - 1, id) {
        forall i | 0 <= i < n - 1 ensures !Replaces(l, i, id) {
          OnlyReplacement(l, i, n - 1, id);
        }
        NoSuccessors(l, id, cutoff, n - 1);
      }
    }
  }

  /** Nothing recorded by the cutoff replaces this version. */
  ghost predicate Unreplaced(l: Ledger, id: EventId, cutoff: int) {
    forall i :: 0 <= i < |l| && i < cutoff ==> !Replaces(l, i, id)
  }

  ghost predicate VersionAt(l: Ledger, i: nat, id: EventId, cutoff: int) {
    i < |l| && i < cutoff && IsOutcome(l[i]) && l[i].id == id
  }

  /** The row of the first recorded member of the chain row i belongs to. */
  function Origin(l: Ledger, i: nat): (r: nat)
    requires i < |l|
    ensures r <= i
  {
    if SupersededBy(l[i]) == None then i
    else
      var k := Find(l, SupersededBy(l[i]).value);
      if k.Some? && k.value < i then Origin(l, k.value) else i
  }

  /** A replacement belongs to the chain of the version it replaces. */
  lemma ReplacementKeepsOrigin(l: Ledger, k: nat, i: nat)
    requires UniqueIds(l) && k < i < |l| && Replaces(l, i, l[k].id)
    ensures Origin(l, i) == Origin(l, k)
  {
    hide Find;
    FindAt(l, k);
  }

  /** The forward walk always ends: every step moves to a later row, so the guards against
      ambiguity and cycles never fire, and it ends at an unreplaced version of the same chain. */
  lemma {:induction false} WalkEnds(l: Ledger, k: nat, seen: set<EventId>, cutoff: int) returns (m: nat)
    requires Reachable(l) && k < |l| && k < cutoff && IsOutcome(l[k])
    requires l[k].id in seen && forall i :: 0 <= i < |l| && l[i].id in seen ==> i <= k
    ensures k <= m < |l| && VersionAt(l, m, l[m].id, cutoff) && l[m].account == l[k].account
    ensures Walk(l, l[k].id, seen, cutoff) == Done(l[m].id)
    ensures Unreplaced(l, l[m].id, cutoff) && Origin(l, m) == Origin(l, k)
    decreases |l| - k
  {
    hide Reachable, Origin;
    var id := l[k].id;
    var successors := Successors(l, id, cutoff, |l|);
    AtMostOneSuccessor(l, id, cutoff, |l|);
    SuccessorsRecorded(l, id, cutoff, |l|);
    if successors == [] {
      NoSuccessors(l, id, cutoff, |l|);
      m := k;
    } else {
      assert successors[0] in successors;
      var i :| 0 <= i < |l| && i < cutoff && Replaces(l, i, id) && l[i].id == successors[0];
      var k' := ReplacementNamesATip(l, i, id);
      ReachableUnique(l);
      assert k' == k;
      ReplacementKeepsOrigin(l, k, i);
      m := WalkEnds(l, i, seen + {l[i].id}, cutoff);
    }
  }

  lemma OnlyAt(l: Ledger, k: nat)
    requires UniqueIds(l) && k < |l|
    ensures forall i :: 0 <= i < |l| && l[i].id in {l[k].id} ==> i <= k
  {
  }

  /** The effective version of any recorded outcome exists at every cutoff containing it. */
  lemma EffectiveVersionExists(l: Ledger, k: nat, cutoff: int) returns (m: nat)
    requires Reachable(l) && k < |l| && k < cutoff && IsOutcome(l[k])
    ensures k <= m < |l| && VersionAt(l, m, l[m].id, cutoff) && l[m].account == l[k].account
    ensures EffectiveVersion(l, l[k].id, cutoff) == Done(l[m].id)
    ensures Unreplaced(l, l[m].id, cutoff) && Origin(l, m) == Origin(l, k)
  {
    hide Reachable, UniqueIds, Origin;
    ReachableUnique(l);
    FindAt(l, k);
    OnlyAt(l, k);
    m := WalkEnds(l, k, {l[k].id}, cutoff);
  }

  lemma UnreplacedIsEffective(l: Ledger, id: EventId, cutoff: int)
    requires LoadOutcome(l, id, cutoff).Done? && Unreplaced(l, id, cutoff)
    ensures EffectiveVersion(l, id, cutoff) == Done(id)
  {
    NoSuccessors(l, id, cutoff, |l|);
  }

  lemma RecordedLoads(l: Ledger, i: nat, cutoff: int)
    requires i < |l| && i < cutoff && IsOutcome(l[i]) && Find(l, l[i].id) == Some(i)
    ensures LoadOutcome(l, l[i].id, cutoff) == Done(l[i])
  {
  }

  ghost predicate Selected(l: Ledger, id: EventId, cutoff: int, account: Option<string>, i: nat) {
    VersionAt(l, i, id, cutoff) && Unreplaced(l, id, cutoff) && (account == None || account == Some(l[i].account))
  }

  ghost predicate Distinct<T>(s: seq<T>) {
    forall i, j :: 0 <= i < j < |s| ==> s[i] != s[j]
  }

  ghost predicate IsSelected(l: Ledger, id: EventId, cutoff: int, account: Option<string>) {
    exists i :: Selected(l, id, cutoff, account, i)
  }

  /** Every effective outcome version is selected, exactly once, and nothing else is. */
  lemma {:induction false} SelectionExact(l: Ledger, cutoff: int, account: Option<string>)
    requires Reachable(l)
    ensures var r := EffectiveVersions(l, cutoff, account, |l|);
      && r.Done? && Distinct(r.value)
      && forall v :: v in r.value <==> IsSelected(l, v, cutoff, account)
  {
    hide Reachable, UniqueIds, EffectiveVersion, Unreplaced, LoadOutcome;
    SelectionSound(l, cutoff, account, |l|);
    var r := EffectiveVersions(l, cutoff, account, |l|);
    forall v | IsSelected(l, v, cutoff, account) ensures v in r.value {
      var i: nat :| Selected(l, v, cutoff, account, i);
      ReachableUnique(l);
      FindAt(l, i);
      RecordedLoads(l, i, cutoff);
      UnreplacedIsEffective(l, v, cutoff);
      assert EffectiveVersion(l, l[i].id, cutoff).value in r.value;
    }
  }

  /** Over the first n rows: the chains seen so far are represented and nothing else is. */
  lemma {:induction false} SelectionSound(l: Ledger, cutoff: int, account: Option<string>, n: nat)
    requires Reachable(l) && n <= |l|
    ensures var r := EffectiveVersions(l, cutoff, account, n);
      && r.Done? && Distinct(r.value)
      && (forall v :: v in r.value ==> IsSelected(l, v, cutoff, account))
      && (forall i :: 0 <= i < n && i < cutoff && IsOutcome(l[i]) && account in {None, Some(l[i].account)} ==>
            EffectiveVersion(l, l[i].id, cutoff).Done? && EffectiveVersion(l, l[i].id, cutoff).value in r.value)
  {
    hide Reachable, EffectiveVersion;
    if n > 0 {
      SelectionSound(l, cutoff, account, n - 1);
      var e := l[n - 1];
      if n <= cutoff && IsOutcome(e) && (account == None || account == Some(e.account)) {
        var m := EffectiveVersionExists(l, n - 1, cutoff);
        assert Selected(l, l[m].id, cutoff, account, m);
      }
    }
  }

  // --- Results form linear chains ------------------------------------------------------

  /** Each result replaces the one before it, at a strictly newer cutoff. */
  ghost predicate Linked(rows: seq<Event>) {
    && (forall k :: 0 <= k < |rows| ==> rows[k].body.Attributed?)
    && (rows != [] ==> rows[0].body.supersedesResult == None)
    && (forall k :: 1 <= k < |rows| ==> rows[k].body.supersedesResult == Some(rows[k - 1].id))
    && (forall k :: 1 <= k < |rows| ==> rows[k - 1].body.result.cutoff < rows[k].body.result.cutoff)
    && (forall j, k :: 0 <= j < k < |rows| ==> rows[j].id != rows[k].id)
  }

  lemma {:induction false} TipsOfPrefix(rows: seq<Event>, n: nat)
    requires Linked(rows) && n < |rows|
    ensures Tips(rows, rows[..n]) == []
  {
    if n > 0 {
      assert rows[..n][..n - 1] == rows[..n - 1];
      TipsOfPrefix(rows, n - 1);
      assert rows[n].body.supersedesResult == Some(rows[n - 1].id);
      assert Replaced(rows, rows[n - 1].id);
    }
  }

  lemma LastUnreplaced(rows: seq<Event>)
    requires Linked(rows) && rows != []
    ensures !Replaced(rows, rows[|rows| - 1].id)
  {
    var n := |rows| - 1;
    forall k | 0 <= k < |rows| ensures rows[k].body.supersedesResult != Some(rows[n].id) {
      if k > 0 {
        assert rows[k].body.supersedesResult == Some(rows[k - 1].id) && rows[k - 1].id != rows[n].id;
      }
    }
  }

  lemma LinkedTips(rows: seq<Event>)
    requires Linked(rows)
    ensures Tips(rows, rows) == if rows == [] then [] else [rows[|rows| - 1]]
  {
    if rows != [] {
      TipsOfPrefix(rows, |rows| - 1);
      LastUnreplaced(rows);
      hide Linked, Replaced;
    }
  }

  lemma {:induction false} ResultsOrigin(l: Ledger, outcome: EventId, policy: string, cutoff: int, n: nat)
    requires n <= |l|
    ensures forall e :: e in Results(l, outcome, policy, cutoff, n) ==> e in l[..n] && IsResultFor(e, outcome, policy)
  {
    if n > 0 {
      ResultsOrigin(l, outcome, policy, cutoff, n - 1);
    }
  }

  lemma ResultsOfPrefix(l: Ledger, outcome: EventId, policy: string, cutoff: int, n: nat)
    requires n <= |l| && n <= cutoff
    ensures Results(l[..n], outcome, policy, n, n) == Results(l, outcome, policy, cutoff, n)
  {
    ResultsBelow(l, outcome, policy, cutoff, n, n);
  }

  lemma {:induction false} ResultsBelow(l: Ledger, outcome: EventId, policy: string, cutoff: int, n: nat, m: nat)
    requires m <= n <= |l| && n <= cutoff
    ensures Results(l[..n], outcome, policy, n, m) == Results(l, outcome, policy, cutoff, m)
  {
    if m > 0 {
      ResultsBelow(l, outcome, policy, cutoff, n, m - 1);
    }
  }

  lemma {:induction false} ResultsLinked(l: Ledger, outcome: EventId, policy: string, cutoff: int, n: nat)
    requires Reachable(l) && n <= |l|
    ensures Linked(Results(l, outcome, policy, cutoff, n))
  {
    hide Reachable, IsResultFor;
    if n > 0 {
      ResultsLinked(l, outcome, policy, cutoff, n - 1);
      if n <= cutoff && IsResultFor(l[n - 1], outcome, policy) {
        NextIsLinked(l, outcome, policy, cutoff, n - 1);
      }
    }
  }

  lemma NextIsLinked(l: Ledger, outcome: EventId, policy: string, cutoff: int, n: nat)
    requires Reachable(l) && n < |l| && n < cutoff && IsResultFor(l[n], outcome, policy)
    requires Linked(Results(l, outcome, policy, cutoff, n))
    ensures Linked(Results(l, outcome, policy, cutoff, n) + [l[n]])
  {
    hide Linked, Reachable, UniqueIds, Results, Admit, Tips;
    var before := Results(l, outcome, policy, cutoff, n);
    AdmittedAt(l, n);
    ReachablePrefix(l, n);
    ReachableUnique(l[..n]);
    ResultsOfPrefix(l, outcome, policy, cutoff, n);
    LinkedTips(before);
    ResultsOrigin(l, outcome, policy, cutoff, n);
    TipSelected(l[..n], outcome, policy, n);
    if before != [] {
      assert before[|before| - 1] in before;
      StoredFound(l[..n], before[|before| - 1]);
    }
    AttributionChecks(l[..n], l[n]);
    ChainStep(l[..n], l[n], Latest(before));
    ReachableUnique(l);
    EarlierIds(l, n);
    LinkedAppend(before, l[n]);
  }

  lemma TipSelected(l: Ledger, outcome: EventId, policy: string, cutoff: int)
    requires Linked(Results(l, outcome, policy, cutoff, |l|))
    ensures EffectiveAttribution(l, outcome, policy, cutoff) == Done(Latest(Results(l, outcome, policy, cutoff, |l|)))
  {
    hide Linked, Results, Tips;
    LinkedTips(Results(l, outcome, policy, cutoff, |l|));
  }

  lemma EarlierIds(l: Ledger, n: nat)
    requires UniqueIds(l) && n < |l|
    ensures forall e :: e in l[..n] ==> e.id != l[n].id
  {
  }

  lemma LinkedAppend(rows: seq<Event>, e: Event)
    requires Linked(rows) && e.body.Attributed? && forall k :: 0 <= k < |rows| ==> rows[k].id != e.id
    requires e.body.supersedesResult == if rows == [] then None else Some(rows[|rows| - 1].id)
    requires rows != [] ==>
        rows[|rows| - 1].body.Attributed? && rows[|rows| - 1].body.result.cutoff < e.body.result.cutoff
    ensures Linked(rows + [e])
  {
    var all := rows + [e];
    forall k | 1 <= k < |all| ensures all[k].body.Attributed? && all[k].body.supersedesResult == Some(all[k - 1].id) {
      assert all[k - 1] == rows[k - 1];
      if k < |rows| {
        assert all[k] == rows[k];
      }
    }
  }

  lemma StoredFound(l: Ledger, e: Event)
    requires UniqueIds(l) && e in l
    ensures Find(l, e.id).Some? && l[Find(l, e.id).value] == e
  {
    var i :| 0 <= i < |l| && l[i] == e;
    FindAt(l, i);
  }

  /** What the supersession check says once the current tip is known. */
  lemma ChainStep(l: Ledger, e: Event, tip: Option<Event>)
    requires e.body.Attributed? && CheckResultSupersession(l, e.body.result, e.body.supersedesResult).Done?
    requires EffectiveAttribution(l, e.body.result.outcome, e.body.result.policy, |l|) == Done(tip)
    requires tip.Some? ==>
        tip.value.body.Attributed? && Find(l, tip.value.id).Some? && l[Find(l, tip.value.id).value] == tip.value
    ensures e.body.supersedesResult == if tip.None? then None else Some(tip.value.id)
    ensures tip.Some? ==> tip.value.body.result.cutoff < e.body.result.cutoff
  {
    hide EffectiveAttribution, Find, CheckResultSupersession;
    LinkChecked(l, e.body.result, e.body.supersedesResult, tip);
  }

  lemma LinkChecked(l: Ledger, r: Result, supersedes: Option<EventId>, tip: Option<Event>)
    requires CheckResultSupersession(l, r, supersedes).Done?
    requires EffectiveAttribution(l, r.outcome, r.policy, |l|) == Done(tip)
    requires tip.Some? ==>
        tip.value.body.Attributed? && Find(l, tip.value.id).Some? && l[Find(l, tip.value.id).value] == tip.value
    ensures supersedes == if tip.None? then None else Some(tip.value.id)
    ensures tip.Some? ==> tip.value.body.result.cutoff < r.cutoff
  {
    hide EffectiveAttribution, Find;
    match supersedes {
      case None =>
      case Some(_) =>
    }
  }

  /** The latest stored result of this version and policy recorded by the cutoff. */
  function Latest(rows: seq<Event>): Option<Event> {
    if rows == [] then None else Some(rows[|rows| - 1])
  }

  /** At every cutoff of every reachable ledger the results of one outcome version and
      policy form one chain and exactly its latest row is selected. */
  lemma UniqueTip(l: Ledger, outcome: EventId, policy: string, cutoff: int)
    requires Reachable(l)
    ensures var rows := Results(l, outcome, policy, cutoff, |l|);
      Linked(rows) && EffectiveAttribution(l, outcome, policy, cutoff) == Done(Latest(rows))
  {
    ResultsLinked(l, outcome, policy, cutoff, |l|);
    TipSelected(l, outcome, policy, cutoff);
  }

  // --- Stored results are what the policy computes ---------------------------------------

  /** Every stored result equals the policy recomputed at its own cutoff, on this ledger
      and so on every later one; it was computed on a snapshot older than itself. */
  lemma StoredIsRecomputed(l: Ledger, i: nat)
    requires Reachable(l) && i < |l| && l[i].body.Attributed?
    ensures var r := l[i].body.result;
      && Attribute(l, r.outcome, r.cutoff, r.policy) == Done(r)
      && 1 <= r.cutoff <= i
      && l[i].id == AttributionId(r.outcome, r.policy, r.cutoff)
      && r.policy == POLICY_VERSION
  {
    AdmittedAt(l, i);
    AttributionChecks(l[..i], l[i]);
    var r := l[i].body.result;
    AttributeSnapshot(l[..i], l[i..], r.outcome, r.cutoff, r.policy);
    assert l[..i] + l[i..] == l;
  }

  lemma AttributionChecks(l: Ledger, e: Event)
    requires e.body.Attributed? && Admit(l, e).Done?
    ensures var r := e.body.result;
      && Attribute(l, r.outcome, r.cutoff, r.policy) == Done(r)
      && 1 <= r.cutoff <= |l|
      && e.id == AttributionId(r.outcome, r.policy, r.cutoff)
      && r.policy == POLICY_VERSION
      && CheckResultSupersession(l, r, e.body.supersedesResult).Done?
      && LoadOutcome(l, r.outcome, r.cutoff).Done?
      && LoadOutcome(l, r.outcome, |l|).Done?
      && LoadOutcome(l, r.outcome, |l|).value.account == e.account
  {
    hide Attribute, EffectiveVersion, CheckResolved, CheckResultSupersession, WireValid, CheckAccount, LoadOutcome;
  }
}
