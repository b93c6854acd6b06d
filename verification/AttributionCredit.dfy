/** What a result means, stated over the recorded rows and not over the policy's own
    lookups: which action is eligible, when credit is direct, and whose decision it is. */
module AttributionCredit {
  import opened Outcome
  import opened Ledger
  import opened AttributionPolicy
  import opened Collector
  import opened AttributionSafety

  /** Row k is a prioritization decision of this account recorded by the cutoff. */
  predicate DecisionRow(l: Ledger, k: nat, id: EventId, account: string, cutoff: int) {
    && k < |l| && k < cutoff
    && l[k].id == id && l[k].body.Decided?
    && l[k].account == account && l[k].body.kind == PRIORITIZATION
  }

  ghost predicate DecisionRecorded(l: Ledger, id: EventId, account: string, cutoff: int) {
    exists k: nat :: DecisionRow(l, k, id, account, cutoff)
  }

  /** Row a is an action that may be credited for outcome e at this cutoff. */
  ghost predicate EligibleRow(l: Ledger, a: nat, e: Event, cutoff: int) {
    && a < |l| && a < cutoff
    && l[a].body.Acted? && l[a].account == e.account
    && (l[a].body.status == Sent || l[a].body.status == Completed)
    && DecisionRecorded(l, l[a].body.decision, e.account, cutoff)
    && l[a].occurredAt < ObservedAt(e) <= l[a].occurredAt + LOOKBACK
  }

  predicate LaterRow(l: Ledger, a: nat, b: nat)
    requires a < |l| && b < |l|
  {
    l[a].occurredAt > l[b].occurredAt || (l[a].occurredAt == l[b].occurredAt && a > b)
  }

  lemma LoadDecisionExact(l: Ledger, id: EventId, cutoff: int)
    requires UniqueIds(l)
    ensures forall k: nat :: k < |l| && k < cutoff && l[k].id == id && l[k].body.Decided? ==>
              LoadDecision(l, id, cutoff) == Some(l[k])
    ensures LoadDecision(l, id, cutoff).Some? ==>
              exists k: nat :: k < |l| && k < cutoff && l[k].id == id && l[k] == LoadDecision(l, id, cutoff).value
  {
    forall k: nat | k < |l| && l[k].id == id ensures Find(l, id) == Some(k) {
      FindAt(l, k);
    }
  }

  /** The policy's rule list accepts an action exactly when its row is eligible. */
  lemma EligibleExactly(l: Ledger, a: nat, e: Event, cutoff: int)
    requires UniqueIds(l) && a < |l| && a < cutoff && l[a].body.Acted?
    ensures ActionProblem(Some(CandidateAt(l, a, cutoff)), e.account, ObservedAt(e)) == None <==>
        EligibleRow(l, a, e, cutoff)
  {
    LoadDecisionExact(l, l[a].body.decision, cutoff);
    var d := LoadDecision(l, l[a].body.decision, cutoff);
    if DecisionRecorded(l, l[a].body.decision, e.account, cutoff) {
      var k: nat :| DecisionRow(l, k, l[a].body.decision, e.account, cutoff);
      assert d == Some(l[k]);
    }
    if d.Some? {
      var k: nat :| k < |l| && k < cutoff && l[k].id == l[a].body.decision && l[k] == d.value;
      assert DecisionRow(l, k, l[a].body.decision, e.account, cutoff)
        <==> d.value.body.kind == PRIORITIZATION && d.value.account == e.account;
    }
    hide LoadDecision;
  }

  // --- The most recent eligible action ----------------------------------------------------

  lemma {:induction false} MostRecentIsMaximal(cs: seq<Candidate>)
    ensures MostRecent(cs).None? <==> cs == []
    ensures MostRecent(cs).Some? ==>
      MostRecent(cs).value in cs && forall c :: c in cs ==> !Later(c, MostRecent(cs).value)
  {
    if cs != [] {
      var before, last := cs[..|cs| - 1], cs[|cs| - 1];
      MostRecentIsMaximal(before);
      forall c | c in cs ensures c in before || c == last {
      }
      assert before + [last] == cs;
    }
  }

  /** The choice does not depend on the order the candidates arrive in. */
  lemma MostRecentIgnoresOrder(a: seq<Candidate>, b: seq<Candidate>)
    requires multiset(a) == multiset(b)
    requires forall c, d :: c in a && d in a && c.sequence == d.sequence ==> c == d
    ensures MostRecent(a) == MostRecent(b)
  {
    MostRecentIsMaximal(a);
    MostRecentIsMaximal(b);
    assert forall c :: c in a <==> c in multiset(a);
    assert forall c :: c in b <==> c in multiset(b);
    if a != [] {
      assert a[0] in a;
      assert a[0] in b;
    } else {
      assert |multiset(b)| == |b|;
    }
  }

  lemma {:induction false} EligibleFilters(cs: seq<Candidate>, account: string, observed: int)
    ensures forall c :: c in Eligible(cs, account, observed) <==>
        c in cs && ActionProblem(Some(c), account, observed) == None
  {
    if cs != [] {
      EligibleFilters(cs[..|cs| - 1], account, observed);
    }
  }

  lemma {:induction false} AccountActionsExact(l: Ledger, account: string, cutoff: int, n: nat)
    requires n <= |l|
    ensures forall c :: c in AccountActions(l, account, cutoff, n) <==>
              exists a: nat :: a < n && a < cutoff && l[a].body.Acted? && l[a].account == account
                && c == CandidateAt(l, a, cutoff)
  {
    if n > 0 {
      AccountActionsExact(l, account, cutoff, n - 1);
    }
  }

  /** The fallback picks the eligible row no other eligible row is later than. */
  lemma ChosenIsLatest(l: Ledger, e: Event, cutoff: int) returns (a: nat)
    requires UniqueIds(l)
    ensures var chosen := MostRecent(Eligible(AccountActions(l, e.account, cutoff, |l|), e.account, ObservedAt(e)));
      && (chosen.None? ==> forall b: nat :: !EligibleRow(l, b, e, cutoff))
      && (chosen.Some? ==>
            && EligibleRow(l, a, e, cutoff)
            && chosen.value == CandidateAt(l, a, cutoff)
            && forall b: nat :: EligibleRow(l, b, e, cutoff) ==> !LaterRow(l, b, a))
  {
    hide CandidateAt, ActionProblem, EligibleRow, UniqueIds;
    var all := AccountActions(l, e.account, cutoff, |l|);
    var eligible := Eligible(all, e.account, ObservedAt(e));
    AccountActionsExact(l, e.account, cutoff, |l|);
    EligibleFilters(all, e.account, ObservedAt(e));
    MostRecentIsMaximal(eligible);
    forall b: nat | EligibleRow(l, b, e, cutoff)
      ensures b < |l| && l[b].body.Acted? && CandidateAt(l, b, cutoff) in eligible
    {
      EligibleRowIsAction(l, b, e, cutoff);
      EligibleExactly(l, b, e, cutoff);
    }
    a := 0;
    if MostRecent(eligible).Some? {
      a :| a < |l| && a < cutoff && l[a].body.Acted? && l[a].account == e.account
           && MostRecent(eligible).value == CandidateAt(l, a, cutoff);
      EligibleExactly(l, a, e, cutoff);
      forall b: nat | EligibleRow(l, b, e, cutoff) ensures b < |l| && !LaterRow(l, b, a) {
        EligibleRowIsAction(l, b, e, cutoff);
        CandidateOrder(l, b, a, cutoff);
      }
    }
  }

  lemma EligibleRowIsAction(l: Ledger, b: nat, e: Event, cutoff: int)
    requires EligibleRow(l, b, e, cutoff)
    ensures b < |l| && b < cutoff && l[b].body.Acted? && l[b].account == e.account
  {
  }

  lemma CandidateOrder(l: Ledger, b: nat, a: nat, cutoff: int)
    requires a < |l| && b < |l| && l[a].body.Acted? && l[b].body.Acted?
    ensures Later(CandidateAt(l, b, cutoff), CandidateAt(l, a, cutoff)) <==> LaterRow(l, b, a)
  {
  }

  // --- When credit is direct ------------------------------------------------------------------

  ghost predicate ClaimedActionOk(l: Ledger, e: Event, cutoff: int, a: nat) {
    EligibleRow(l, a, e, cutoff) && ActionClaim(e) == Some(l[a].id)
  }

  ghost predicate ClaimedDecisionOk(l: Ledger, e: Event, cutoff: int, k: nat) {
    && DecisionClaim(e).Some? && DecisionRow(l, k, DecisionClaim(e).value, e.account, cutoff)
    && l[k].body.boundary < ObservedAt(e)
  }

  /** Every supplied claim is valid, at least one is supplied, and a pair agrees. */
  ghost predicate DirectCredit(l: Ledger, e: Event, cutoff: int) {
    && (ActionClaim(e).Some? || DecisionClaim(e).Some?)
    && (ActionClaim(e).Some? ==> exists a: nat ::
          (ClaimedActionOk(l, e, cutoff, a)
           && (DecisionClaim(e).Some? ==> l[a].body.decision == DecisionClaim(e).value)))
    && (DecisionClaim(e).Some? ==> exists k: nat :: ClaimedDecisionOk(l, e, cutoff, k))
  }

  lemma ActionClaimExact(l: Ledger, e: Event, cutoff: int)
    requires UniqueIds(l) && ActionClaim(e).Some?
    ensures var action := LoadAction(l, ActionClaim(e).value, cutoff);
      && (ActionProblem(action, e.account, ObservedAt(e)) == None <==>
        exists a: nat :: ClaimedActionOk(l, e, cutoff, a))
      && forall a: nat :: ClaimedActionOk(l, e, cutoff, a) ==> action == Some(CandidateAt(l, a, cutoff))
  {
    hide EligibleRow, ActionProblem;
    var id := ActionClaim(e).value;
    var found := Find(l, id);
    assert ActionProblem(None, e.account, ObservedAt(e)) != None by { NoActionIsAProblem(e.account, ObservedAt(e)); }
    forall a: nat | ClaimedActionOk(l, e, cutoff, a)
      ensures found == Some(a) && a < |l| && a < cutoff && l[a].body.Acted?
              && ActionProblem(Some(CandidateAt(l, a, cutoff)), e.account, ObservedAt(e)) == None
    {
      EligibleRowIsAction(l, a, e, cutoff);
      FindAt(l, a);
      EligibleExactly(l, a, e, cutoff);
    }
    if found.Some? && found.value < cutoff && l[found.value].body.Acted? {
      EligibleExactly(l, found.value, e, cutoff);
      assert ActionProblem(LoadAction(l, id, cutoff), e.account, ObservedAt(e)) == None ==>
        ClaimedActionOk(l, e, cutoff, found.value);
    }
  }

  lemma NoActionIsAProblem(account: string, observed: int)
    ensures ActionProblem(None, account, observed) == Some(ActionNotRecordedByCutoff)
  {
  }

  lemma DecisionClaimExact(l: Ledger, e: Event, cutoff: int)
    requires UniqueIds(l) && DecisionClaim(e).Some?
    ensures var decision := LoadDecision(l, DecisionClaim(e).value, cutoff);
      DecisionProblem(decision, e.account, ObservedAt(e)) == None <==>
        exists k: nat :: ClaimedDecisionOk(l, e, cutoff, k)
  {
    LoadDecisionExact(l, DecisionClaim(e).value, cutoff);
    var decision := LoadDecision(l, DecisionClaim(e).value, cutoff);
    if decision.Some? {
      var k: nat :| k < |l| && k < cutoff && l[k].id == DecisionClaim(e).value && l[k] == decision.value;
      assert DecisionProblem(decision, e.account, ObservedAt(e)) == None <==> ClaimedDecisionOk(l, e, cutoff, k);
    }
    hide LoadDecision;
  }

  /** The whole policy, stated over rows: direct credit exactly for valid claims; otherwise
      the latest eligible action; unresolved exactly when there is none. */
  lemma AttributionMeaning(l: Ledger, id: EventId, cutoff: int)
    requires UniqueIds(l) && Attribute(l, id, cutoff, POLICY_VERSION).Done?
    ensures var r := Attribute(l, id, cutoff, POLICY_VERSION).value;
      var e := LoadOutcome(l, id, cutoff).value;
      && (r.status == Direct <==> DirectCredit(l, e, cutoff))
      && (r.status == Unresolved <==> !DirectCredit(l, e, cutoff) && forall b: nat :: !EligibleRow(l, b, e, cutoff))
      && (r.status == Inferred ==> exists a: nat ::
            && EligibleRow(l, a, e, cutoff)
            && r.action == Some(l[a].id) && r.decision == Some(l[a].body.decision)
            && forall b: nat :: EligibleRow(l, b, e, cutoff) ==> !LaterRow(l, b, a))
      && (r.status == Direct && ActionClaim(e).Some? ==> exists a: nat ::
            ClaimedActionOk(l, e, cutoff, a) && r.action == ActionClaim(e) && r.decision == Some(l[a].body.decision))
      && (r.status == Direct && ActionClaim(e).None? ==> r.action == None && r.decision == DecisionClaim(e))
  {
    hide EligibleRow, ClaimedActionOk, ClaimedDecisionOk, ActionProblem, DecisionProblem, LoadAction, LoadDecision,
      LoadOutcome, AccountActions, Eligible, MostRecent, UniqueIds;
    var e := LoadOutcome(l, id, cutoff).value;
    var a := ChosenIsLatest(l, e, cutoff);
    if ActionClaim(e).Some? {
      ActionClaimExact(l, e, cutoff);
      forall b: nat | ClaimedActionOk(l, e, cutoff, b)
        ensures b < |l| && l[b].body.Acted? && CandidateAt(l, b, cutoff).decision == l[b].body.decision
      {
        ClaimedRowIsAction(l, e, cutoff, b);
      }
    }
    if DecisionClaim(e).Some? {
      DecisionClaimExact(l, e, cutoff);
    }
    LoadedNotProblem(e.account, ObservedAt(e));
  }

  lemma ClaimedRowIsAction(l: Ledger, e: Event, cutoff: int, b: nat)
    requires ClaimedActionOk(l, e, cutoff, b)
    ensures b < |l| && b < cutoff && l[b].body.Acted?
  {
  }

  lemma LoadedNotProblem(account: string, observed: int)
    ensures ActionProblem(None, account, observed).Some? && DecisionProblem(None, account, observed).Some?
  {
  }

  // --- Whose decision is credited -------------------------------------------------------------

  /** An accepted action follows a decision of its own account. */
  lemma ActionFollowsDecision(l: Ledger, a: nat) returns (k: nat)
    requires Reachable(l) && a < |l| && l[a].body.Acted?
    ensures k < a && l[k].id == l[a].body.decision && l[k].body.Decided?
    ensures l[k].account == l[a].account && l[k].body.boundary <= l[a].occurredAt
  {
    AdmittedAt(l, a);
    hide WireValid, CheckAccount, Find;
    assert CheckDecisionReference(l[..a], l[a], l[a].body.decision).Done?;
    k := Find(l[..a], l[a].body.decision).value;
  }

  /** Row k is a decision of the outcome's account, strictly before the observation. */
  ghost predicate EarlierDecision(l: Ledger, k: nat, e: Event, id: EventId, cutoff: int) {
    DecisionRow(l, k, id, e.account, cutoff) && l[k].body.boundary < ObservedAt(e)
  }

  lemma CreditedActionDecision(l: Ledger, a: nat, e: Event, cutoff: int)
    requires Reachable(l) && EligibleRow(l, a, e, cutoff)
    ensures exists k: nat :: EarlierDecision(l, k, e, l[a].body.decision, cutoff)
  {
    var k := ActionFollowsDecision(l, a);
    ReachableUnique(l);
    hide Reachable;
    var d: nat :| DecisionRow(l, d, l[a].body.decision, e.account, cutoff);
    assert d == k;
    assert EarlierDecision(l, k, e, l[a].body.decision, cutoff);
  }

  /** Whatever a stored result credits is a decision of the outcome's own account whose
      boundary lies strictly before the observation. On the action path this rests on the
      collector having admitted the action only at or after its decision's boundary. */
  lemma CreditIsEarlier(l: Ledger, i: nat)
    requires Reachable(l) && i < |l| && l[i].body.Attributed? && l[i].body.result.decision.Some?
    ensures var r := l[i].body.result;
      && LoadOutcome(l, r.outcome, r.cutoff).Done?
      && LoadOutcome(l, r.outcome, r.cutoff).value.account == l[i].account
      && exists k: nat :: EarlierDecision(l, k, LoadOutcome(l, r.outcome, r.cutoff).value, r.decision.value, r.cutoff)
  {
    hide ClaimedDecisionOk, DecisionRecorded, EarlierDecision, Reachable;
    StoredIsRecomputed(l, i);
    ReachableUnique(l);
    var r := l[i].body.result;
    StoredAccount(l, i);
    var e := LoadOutcome(l, r.outcome, r.cutoff).value;
    AttributionMeaning(l, r.outcome, r.cutoff);
    hide Attribute, LoadOutcome;
    if r.status == Inferred {
      var a: nat :| EligibleRow(l, a, e, r.cutoff) && r.decision == Some(l[a].body.decision);
      CreditedActionDecision(l, a, e, r.cutoff);
    } else if ActionClaim(e).Some? {
      var a: nat :| ClaimedActionOk(l, e, r.cutoff, a) && r.decision == Some(l[a].body.decision);
      CreditedActionDecision(l, a, e, r.cutoff);
    } else {
      ClaimedDecisionIsEarlier(l, e, r.cutoff);
    }
  }

  lemma ClaimedDecisionIsEarlier(l: Ledger, e: Event, cutoff: int)
    requires DirectCredit(l, e, cutoff) && DecisionClaim(e).Some?
    ensures exists k: nat :: EarlierDecision(l, k, e, DecisionClaim(e).value, cutoff)
  {
    var k: nat :| ClaimedDecisionOk(l, e, cutoff, k);
    assert EarlierDecision(l, k, e, DecisionClaim(e).value, cutoff);
  }

  lemma StoredAccount(l: Ledger, i: nat)
    requires Reachable(l) && i < |l| && l[i].body.Attributed?
    ensures var r := l[i].body.result;
      LoadOutcome(l, r.outcome, r.cutoff).Done? && LoadOutcome(l, r.outcome, r.cutoff).value.account == l[i].account
  {
    hide Attribute, LoadOutcome, Reachable, Admit;
    AdmittedAt(l, i);
    var prefix, r := l[..i], l[i].body.result;
    AttributionChecks(prefix, l[i]);
    LoadedAlike(prefix, r.outcome, r.cutoff, i);
    OutcomeSnapshot(prefix, l[i..], r.outcome, r.cutoff);
    assert prefix + l[i..] == l;
  }

  lemma LoadedAlike(l: Ledger, id: EventId, a: int, b: int)
    requires LoadOutcome(l, id, a).Done? && LoadOutcome(l, id, b).Done?
    ensures LoadOutcome(l, id, a) == LoadOutcome(l, id, b)
  {
  }
}
