/** Repeating a reevaluation: the policy reads no result rows, so an immediate second
    reevaluation finds nothing to change. */
module AttributionRepeat {
  import opened Outcome
  import opened Ledger
  import opened AttributionPolicy
  import opened Collector
  import opened AttributionSafety
  import opened AttributionRun
  import opened AttributionRunSafety

  ghost predicate OnlyResults(more: Ledger) {
    forall k :: 0 <= k < |more| ==> more[k].body.Attributed?
  }

  // --- The policy reads no result rows ----------------------------------------------------

  lemma DecisionUnaffected(l: Ledger, more: Ledger, id: EventId)
    requires OnlyResults(more)
    ensures LoadDecision(l + more, id, |l + more|) == LoadDecision(l, id, |l|)
  {
    hide Find;
    FindAppend(l, more, id);
  }

  lemma CandidateUnaffected(l: Ledger, more: Ledger, i: nat)
    requires OnlyResults(more) && i < |l| && l[i].body.Acted?
    ensures CandidateAt(l + more, i, |l + more|) == CandidateAt(l, i, |l|)
  {
    hide LoadDecision;
    DecisionUnaffected(l, more, l[i].body.decision);
  }

  lemma ActionUnaffected(l: Ledger, more: Ledger, id: EventId)
    requires OnlyResults(more)
    ensures LoadAction(l + more, id, |l + more|) == LoadAction(l, id, |l|)
  {
    hide Find, CandidateAt;
    FindAppend(l, more, id);
    var found := Find(l, id);
    if found.Some? && l[found.value].body.Acted? {
      CandidateUnaffected(l, more, found.value);
    }
  }

  lemma {:induction false} AccountActionsUnaffected(l: Ledger, more: Ledger, account: string, n: nat)
    requires OnlyResults(more) && n <= |l + more|
    ensures AccountActions(l + more, account, |l + more|, n)
         == AccountActions(l, account, |l|, if n <= |l| then n else |l|)
  {
    hide CandidateAt;
    if n > 0 {
      AccountActionsUnaffected(l, more, account, n - 1);
      if n <= |l| && l[n - 1].body.Acted? {
        CandidateUnaffected(l, more, n - 1);
      }
    }
  }

  lemma OutcomeUnaffected(l: Ledger, more: Ledger, id: EventId)
    requires LoadOutcome(l, id, |l|).Done?
    ensures LoadOutcome(l + more, id, |l + more|) == LoadOutcome(l, id, |l|)
  {
    hide Find;
    FindAppend(l, more, id);
  }

  lemma ResolveCutoff(
    e: Event, a: int, b: int, action: Option<Candidate>, decision: Option<Event>, candidates: seq<Candidate>)
    requires decision.Some? ==> decision.value.body.Decided?
    ensures SameResult(Resolve(e, a, action, decision, candidates), Resolve(e, b, action, decision, candidates))
  {
    hide ActionProblem, DecisionProblem, MostRecent, Eligible;
  }

  /** Only the cutoff of the policy's answer changes when nothing but results is appended. */
  lemma AttributeUnaffected(l: Ledger, more: Ledger, id: EventId)
    requires OnlyResults(more) && LoadOutcome(l, id, |l|).Done?
    ensures Attribute(l, id, |l|, POLICY_VERSION).Done? && Attribute(l + more, id, |l + more|, POLICY_VERSION).Done?
    ensures SameResult(
              Attribute(l + more, id, |l + more|, POLICY_VERSION).value, Attribute(l, id, |l|, POLICY_VERSION).value)
  {
    hide LoadOutcome, LoadAction, LoadDecision, AccountActions, Resolve, SameResult;
    OutcomeUnaffected(l, more, id);
    AttributeDone(l, id, |l|);
    AttributeDone(l + more, id, |l + more|);
    var e := LoadOutcome(l, id, |l|).value;
    if ActionClaim(e).Some? {
      ActionUnaffected(l, more, ActionClaim(e).value);
    }
    if DecisionClaim(e).Some? {
      DecisionUnaffected(l, more, DecisionClaim(e).value);
    }
    AccountActionsUnaffected(l, more, e.account, |l + more|);
    var action := if ActionClaim(e).Some? then LoadAction(l, ActionClaim(e).value, |l|) else None;
    var decision := if DecisionClaim(e).Some? then LoadDecision(l, DecisionClaim(e).value, |l|) else None;
    ResolveCutoff(e, |l + more|, |l|, action, decision, AccountActions(l, e.account, |l|, |l|));
  }

  // --- Tips after a run ------------------------------------------------------------------------

  /** What a reevaluation leaves as the effective result of one version: the result it
      submitted, or the one it found. */
  ghost predicate TipAfter(l: Ledger, submitted: Ledger, v: EventId, clock: Clock) {
    var after := l + submitted;
    var d := Decide(l, v, |l|, true, clock);
    EffectiveAttribution(after, v, POLICY_VERSION, |after|)
    == if d.Submit? then Done(Some(d.envelope)) else EffectiveAttribution(l, v, POLICY_VERSION, |l|)
  }

  ghost predicate RunWrote(l: Ledger, ids: seq<EventId>, submitted: Ledger, clock: Clock) {
    && WrittenFor(l, submitted, SetOf(ids))
    && (forall e :: e in submitted ==> IsOperation(e, |l|))
    && (forall e :: e in submitted <==> exists k :: 0 <= k < |ids| && Decide(l, ids[k], |l|, true, clock) == Submit(e))
  }

  lemma SubmitNames(l: Ledger, v: EventId, clock: Clock)
    requires Reachable(l) && IsSelected(l, v, |l|, None)
    ensures var d := Decide(l, v, |l|, true, clock);
      && !d.Raises?
      && (d.Submit? ==>
            && IsOperation(d.envelope, |l|) && d.envelope.body.result.outcome == v
            && Attribute(l, v, |l|, POLICY_VERSION) == Done(d.envelope.body.result))
  {
    hide Reachable, Decide, EffectiveAttribution, Attribute, LoadOutcome;
    var i: nat :| Selected(l, v, |l|, None, i);
    var tip := DecideMeans(l, i, true, clock);
    AttributeDone(l, v, |l|);
  }

  lemma UntouchedTip(l: Ledger, ids: seq<EventId>, submitted: Ledger, v: EventId, clock: Clock)
    requires Reachable(l) && RunWrote(l, ids, submitted, clock) && Reachable(l + submitted)
    requires forall w :: w in ids ==> IsSelected(l, w, |l|, None)
    requires !Decide(l, v, |l|, true, clock).Submit?
    ensures TipAfter(l, submitted, v, clock)
  {
    hide Reachable, Decide, EffectiveAttribution, IsSelected;
    forall k | 0 <= k < |submitted| ensures submitted[k].body.result.outcome != v {
      assert submitted[k] in submitted;
      var j :| 0 <= j < |ids| && Decide(l, ids[j], |l|, true, clock) == Submit(submitted[k]);
      assert ids[j] in ids;
      SubmitNames(l, ids[j], clock);
    }
    assert WrittenFor(l, submitted, SetOf(ids) - {v});
    ResultsUntouched(l, submitted, SetOf(ids) - {v}, v, |l + submitted|);
    UniqueTip(l, v, POLICY_VERSION, |l|);
    UniqueTip(l + submitted, v, POLICY_VERSION, |l + submitted|);
  }

  /** The newest cutoff among the results is the latest row's. */
  lemma LatestCutoff(rows: seq<Event>, k: nat)
    requires Linked(rows) && k < |rows|
    ensures rows[k].body.Attributed? && rows[|rows| - 1].body.Attributed?
    ensures rows[k].body.result.cutoff <= rows[|rows| - 1].body.result.cutoff
    decreases |rows| - k
  {
    if k + 1 < |rows| {
      LatestCutoff(rows, k + 1);
    }
  }

  lemma {:induction false} ResultListed(l: Ledger, e: Event, outcome: EventId, n: nat)
    requires n <= |l| && e in l[..n] && IsResultFor(e, outcome, POLICY_VERSION)
    ensures e in Results(l, outcome, POLICY_VERSION, |l|, n)
  {
    if e != l[n - 1] {
      assert l[..n] == l[..n - 1] + [l[n - 1]];
      ResultListed(l, e, outcome, n - 1);
    }
  }

  lemma SubmittedTip(l: Ledger, ids: seq<EventId>, submitted: Ledger, v: EventId, clock: Clock)
    requires Reachable(l) && RunWrote(l, ids, submitted, clock) && Reachable(l + submitted)
    requires IsSelected(l, v, |l|, None) && v in ids && Decide(l, v, |l|, true, clock).Submit?
    ensures TipAfter(l, submitted, v, clock)
  {
    hide Reachable, Decide, EffectiveAttribution, IsSelected, Results, Linked, UniqueIds;
    var after := l + submitted;
    SubmitNames(l, v, clock);
    var e := Decide(l, v, |l|, true, clock).envelope;
    var j :| 0 <= j < |ids| && ids[j] == v;
    assert e in submitted;
    UniqueTip(after, v, POLICY_VERSION, |after|);
    var rows := Results(after, v, POLICY_VERSION, |after|, |after|);
    assert after[..|after|] == after;
    ResultListed(after, e, v, |after|);
    var k :| 0 <= k < |rows| && rows[k] == e;
    LatestCutoff(rows, k);
    ResultsOrigin(after, v, POLICY_VERSION, |after|, |after|);
    var last := rows[|rows| - 1];
    assert last in rows;
    ReachableUnique(after);
    NewestIsSubmitted(l, submitted, last);
    SameId(after, last, e);
  }

  lemma NewestIsSubmitted(l: Ledger, submitted: Ledger, last: Event)
    requires Reachable(l) && last in l + submitted && last.body.Attributed? && last.body.result.cutoff >= |l|
    ensures last in submitted
  {
    hide Reachable;
    if last in l {
      var i :| 0 <= i < |l| && l[i] == last;
      StoredIsRecomputed(l, i);
    }
  }

  lemma SameId(l: Ledger, a: Event, b: Event)
    requires UniqueIds(l) && a in l && b in l && a.id == b.id
    ensures a == b
  {
    var i :| 0 <= i < |l| && l[i] == a;
    var j :| 0 <= j < |l| && l[j] == b;
    assert i == j;
  }

  /** With no other writer, a reevaluation repeated right after one that was not refused
      submits nothing and changes nothing. */
  lemma SecondReevaluationIsIdle(l: Ledger, clock: Clock, again: Clock)
    requires Reachable(l) && Run(l, true, clock).refusal == None
    ensures var after := Run(l, true, clock).ledger;
      var r := Run(after, true, again);
      r.refusal == None && r.submitted == [] && r.ledger == after
  {
    hide Reachable, Run, Decide, IsSelected, EffectiveAttribution, Attribute, LoadOutcome, TipAfter, SameResult;
    var first := Run(l, true, clock);
    RunIs(l, true, clock);
    var ids, submitted, after := Versions(l), first.submitted, first.ledger;
    assert ids[..|ids|] == ids;
    assert RunWrote(l, ids, submitted, clock);
    RunRefusedIff(l, true, clock);
    RunIs(after, true, again);
    var r := Run(after, true, again);
    var later := Versions(after);
    forall v | v in later ensures !Decide(after, v, |after|, true, again).Submit? {
      SelectedStill(l, submitted, SetOf(ids), v);
      if Decide(l, v, |l|, true, clock).Submit? {
        SubmittedTip(l, ids, submitted, v, clock);
      } else {
        UntouchedTip(l, ids, submitted, v, clock);
      }
      NothingToChange(l, submitted, v, clock, again);
    }
    SomethingListed(r.submitted);
    assert after + [] == after;
  }

  lemma SomethingListed(es: seq<Event>)
    ensures es == [] || exists e :: e in es
  {
    if es != [] {
      assert es[0] in es;
    }
  }

  /** A version whose effective result is what the policy would answer is left alone. */
  lemma NothingToChange(l: Ledger, submitted: Ledger, v: EventId, clock: Clock, again: Clock)
    requires Reachable(l) && Reachable(l + submitted) && OnlyResults(submitted)
    requires IsSelected(l, v, |l|, None) && IsSelected(l + submitted, v, |l + submitted|, None)
    requires TipAfter(l, submitted, v, clock)
    ensures !Decide(l + submitted, v, |l + submitted|, true, again).Submit?
  {
    hide Reachable, EffectiveAttribution, Attribute, LoadOutcome;
    var after := l + submitted;
    var i: nat :| Selected(l, v, |l|, None, i);
    var tip := DecideMeans(l, i, true, clock);
    var j: nat :| Selected(after, v, |after|, None, j);
    var now := DecideMeans(after, j, true, again);
    AttributeUnaffected(l, submitted, v);
  }
}
