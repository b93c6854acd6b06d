/** What a signal state and a standing say, in terms of the recorded decision: the factors of
    its artifact, the inputs it preserved, and the effective results that credit it. */
module InsightsMeaning {
  import opened Outcome
  import opened Ledger
  import opened AttributionPolicy
  import opened Collector
  import opened AttributionSafety
  import opened Insights
  import opened InsightsScoping
  import D = DecisionRecords
  import P = DecisionReplay
  import CF = Counterfactual
  import E = Evaluator
  import R = Rules

  type Input = E.ContextInput<string>

  // --- The preserved context as the rules read it ----------------------------------------------

  lemma RecordIsCoherent(l: Ledger, i: nat)
    requires Reachable(l) && i < |l| && l[i].body.Decided?
    ensures RecordCoherent(l[i].body.record) && P.OncePerKey(l[i].body.record.context)
    ensures E.WellFormed(l[i].body.record.artifact)
  {
    hide Reachable, D.FindVersion;
    P.AcceptedIsBacked(l, i);
    var k :| 0 <= k < |l| && D.RegisteredAt(l, k, l[i].body.record.artifact);
    AdmittedAt(l, k);
    AdmittedWire(l[..k], l[k]);
  }

  lemma AdmittedWire(l: Ledger, e: Event)
    requires Admit(l, e).Done?
    ensures WireValid(e)
  {
    hide WireValid, Find, CheckAccount, CheckReferences;
  }

  /** When the evidence behind a preserved input was observed. */
  function ObservedWhen(l: Ledger, x: ContextEntry): Option<int> {
    if x.version.None? then None
    else
      var row := D.FindVersion(l, x.version.value);
      if row.Some? then row.value.observedAt else None
  }

  function InputOf(l: Ledger, x: ContextEntry): Input {
    E.ContextInput(x.key, x.available, x.value, x.version, ObservedWhen(l, x))
  }

  /** The inputs are the preserved entries, once each. */
  lemma PreservedInputs(l: Ledger, i: nat)
    requires Reachable(l) && i < |l| && l[i].body.Decided?
    ensures var (ps, entries) := (P.Preserved(l, l[i]), P.SortEntries(l[i].body.record.context));
      && |ps| == |entries| && P.OncePerKey(entries)
      && (forall x :: x in entries <==> x in l[i].body.record.context)
      && (forall j :: 0 <= j < |ps| ==> ps[j] == InputOf(l, entries[j]))
      && E.UniqueKeys(ps)
  {
    hide Reachable, D.FindVersion, P.LoadEntry, P.SortEntries;
    RecordIsCoherent(l, i);
    P.SortOnce(l[i].body.record.context);
    P.ContextLoads(l, [], i);
    var entries := P.SortEntries(l[i].body.record.context);
    forall j | 0 <= j < |entries| ensures P.Preserved(l, l[i])[j] == InputOf(l, entries[j]) {
      LoadedInput(l, entries[j], l[i].body.boundary);
    }
  }

  lemma LoadedInput(l: Ledger, x: ContextEntry, boundary: int)
    ensures P.LoadEntry(l, x, boundary).Done? ==> P.LoadEntry(l, x, boundary).value == InputOf(l, x)
  {
    hide D.FindVersion;
  }

  lemma LookupHas(ps: seq<Input>, j: nat)
    requires E.UniqueKeys(ps) && j < |ps|
    ensures E.Lookup(ps, ps[j].key) == Some(ps[j])
  {
    E.LookupUnique(ps, ps[j]);
  }

  /** The rules find exactly the preserved entry of a key. */
  lemma EntryFound(l: Ledger, i: nat, x: ContextEntry)
    requires Reachable(l) && i < |l| && l[i].body.Decided? && x in l[i].body.record.context
    ensures E.Lookup(P.Preserved(l, l[i]), x.key) == Some(InputOf(l, x))
  {
    hide Reachable, P.Preserved, P.SortEntries, InputOf;
    PreservedInputs(l, i);
    var entries := P.SortEntries(l[i].body.record.context);
    var j :| 0 <= j < |entries| && entries[j] == x;
    InputKey(l, x);
    LookupHas(P.Preserved(l, l[i]), j);
  }

  lemma InputKey(l: Ledger, x: ContextEntry)
    ensures InputOf(l, x).key == x.key && InputOf(l, x).available == x.available && InputOf(l, x).value == x.value
  {
  }

  predicate HasEntry(context: seq<ContextEntry>, key: string) {
    exists k :: 0 <= k < |context| && context[k].key == key
  }

  lemma NoEntryFound(l: Ledger, i: nat, key: string)
    requires Reachable(l) && i < |l| && l[i].body.Decided? && !HasEntry(l[i].body.record.context, key)
    ensures E.Lookup(P.Preserved(l, l[i]), key) == None
  {
    hide Reachable, P.Preserved, P.SortEntries, InputOf;
    PreservedInputs(l, i);
    var entries, ps := P.SortEntries(l[i].body.record.context), P.Preserved(l, l[i]);
    forall j | 0 <= j < |ps| ensures ps[j].key != key {
      assert entries[j] in entries;
      InputKey(l, entries[j]);
    }
  }

  // --- When a recorded decision can be evaluated -------------------------------------------------------

  /** The rule reads, and whatever available value was preserved for its key fits it. */
  ghost predicate RuleApplies(l: Ledger, d: Event, f: E.Factor)
    requires d.body.Decided?
  {
    && R.ParseRule(f.key, f.rule).Done?
    && forall x :: x in d.body.record.context && x.key == f.key && x.available ==>
         R.Fits(R.ParseRule(f.key, f.rule).value, x.value, ObservedWhen(l, x))
  }

  lemma AppliesToEntry(l: Ledger, i: nat, f: E.Factor)
    requires Reachable(l) && i < |l| && l[i].body.Decided?
    ensures E.Applies(f, P.Preserved(l, l[i])) <==> RuleApplies(l, l[i], f)
  {
    hide Reachable, P.Preserved, P.OncePerKey, R.ParseRule, R.Fits, E.Lookup, ObservedWhen, E.WellFormed,
      RecordCoherent;
    RecordIsCoherent(l, i);
    var context := l[i].body.record.context;
    if HasEntry(context, f.key) {
      var k :| 0 <= k < |context| && context[k].key == f.key;
      EntryFound(l, i, context[k]);
      forall y | y in context && y.key == f.key ensures y == context[k] {
        OneEntry(l[i], context[k], y);
      }
    } else {
      NoEntryFound(l, i, f.key);
      forall y | y in context ensures y.key != f.key {
        var k :| 0 <= k < |context| && context[k] == y;
      }
    }
  }

  /** A recorded decision can be evaluated exactly when its artifact asks for the supported
      treatment of missing values and each of its rules reads and fits the preserved value. */
  lemma EvaluableIff(l: Ledger, i: nat)
    requires Reachable(l) && i < |l| && l[i].body.Decided?
    ensures var a := l[i].body.record.artifact;
      E.Evaluate(a, P.Preserved(l, l[i]), l[i].body.boundary).Done? <==>
        && a.missing == E.MISSING_BEHAVIOR
        && forall j :: 0 <= j < |a.factors| ==> RuleApplies(l, l[i], a.factors[j])
  {
    hide Reachable, P.Preserved, P.SortEntries, E.Evaluate, E.Applies, E.UniqueKeys, RuleApplies, InputOf;
    var a := l[i].body.record.artifact;
    PreservedInputs(l, i);
    E.EvaluatesIff(a, P.Preserved(l, l[i]), l[i].body.boundary);
    forall j | 0 <= j < |a.factors|
      ensures E.Applies(a.factors[j], P.Preserved(l, l[i])) <==> RuleApplies(l, l[i], a.factors[j])
    {
      AppliesToEntry(l, i, a.factors[j]);
    }
  }

  // --- Rule signals -----------------------------------------------------------------------------------

  predicate HasFactor(a: E.Artifact, key: string, rule: string) {
    exists j :: 0 <= j < |a.factors| && a.factors[j].key == key && a.factors[j].rule == rule
  }

  /** The rule text, read for this key, decides the preserved available value this way. */
  predicate Decides(l: Ledger, d: Event, x: ContextEntry, key: string, rule: string, verdict: bool)
    requires d.body.Decided?
  {
    && x in d.body.record.context && x.key == key && x.available
    && R.ParseRule(key, rule).Done?
    && R.Matches(R.ParseRule(key, rule).value, x.value, ObservedWhen(l, x), d.body.boundary) == Done(verdict)
  }

  lemma {:induction false} FirstExactFinds(factors: seq<E.FactorResult<string>>, key: string, rule: string)
    ensures FirstExact(factors, key, rule).None? <==>
            forall j :: 0 <= j < |factors| ==> factors[j].key != key || factors[j].rule != rule
    ensures FirstExact(factors, key, rule).Some? ==>
      var f := FirstExact(factors, key, rule).value;
      f in factors && f.key == key && f.rule == rule
  {
    if factors != [] && !(factors[0].key == key && factors[0].rule == rule) {
      FirstExactFinds(factors[1..], key, rule);
    }
  }

  /** The factor a rule signal reads is the artifact's own, evaluated over the preserved input. */
  lemma SignalFactor(l: Ledger, i: nat, key: string, rule: string) returns (j: nat)
    requires Reachable(l) && i < |l| && l[i].body.Decided? && P.Reconstruct(l, l[i].id).Done?
    ensures var a := l[i].body.record.artifact;
      var found := FirstExact(P.Reconstruct(l, l[i].id).value.factors, key, rule);
      && (found.None? <==> !HasFactor(a, key, rule))
      && (found.Some? ==>
            && j < |a.factors| && a.factors[j].key == key && a.factors[j].rule == rule
            && E.EvaluateFactor(a.factors[j], P.Preserved(l, l[i]), l[i].body.boundary) == Done(found.value))
  {
    hide Reachable, P.Reconstruct, P.Preserved, E.Evaluate, E.EvaluateFactor, E.WellFormed;
    RecordIsCoherent(l, i);
    P.ReconstructIff(l, i);
    var a, ps, boundary := l[i].body.record.artifact, P.Preserved(l, l[i]), l[i].body.boundary;
    CF.EvaluationIsScored(a, ps, boundary);
    var factors := P.Reconstruct(l, l[i].id).value.factors;
    forall k | 0 <= k < |factors| ensures factors[k].key == a.factors[k].key && factors[k].rule == a.factors[k].rule {
      CF.FactorKept(a.factors[k], factors[k], ps, boundary);
    }
    FirstExactFinds(factors, key, rule);
    var found := FirstExact(factors, key, rule);
    j := 0;
    if found.Some? {
      j :| 0 <= j < |factors| && factors[j] == found.value;
    }
  }

  /** What a factor result over one preserved input says. */
  lemma FactorOver(l: Ledger, d: Event, f: E.Factor, x: ContextEntry, context: seq<Input>, r: E.FactorResult<string>)
    requires d.body.Decided? && x in d.body.record.context && x.key == f.key
    requires E.Lookup(context, f.key) == Some(InputOf(l, x))
    requires E.EvaluateFactor(f, context, d.body.boundary) == Done(r)
    ensures r.state != E.Absent && (r.state == E.Unavailable <==> !x.available)
    ensures x.available ==> Decides(l, d, x, f.key, f.rule, r.matched)
  {
    hide R.ParseRule, R.Matches, E.Lookup, ObservedWhen;
  }

  lemma FactorOverNothing(f: E.Factor, context: seq<Input>, boundary: int, r: E.FactorResult<string>)
    requires E.Lookup(context, f.key) == None && E.EvaluateFactor(f, context, boundary) == Done(r)
    ensures r.state == E.Absent
  {
    hide R.ParseRule, R.Matches, E.Lookup;
  }

  lemma OneEntry(d: Event, x: ContextEntry, y: ContextEntry)
    requires d.body.Decided? && P.OncePerKey(d.body.record.context)
    requires x in d.body.record.context && y in d.body.record.context && x.key == y.key
    ensures x == y
  {
  }

  /** What a rule signal says of one decision that replays. */
  ghost predicate RuleSignalSays(l: Ledger, d: Event, key: string, rule: string, s: SignalState)
    requires d.body.Decided?
  {
    var context := d.body.record.context;
    if !HasFactor(d.body.record.artifact, key, rule) then s == NotApplicable
    else if !HasEntry(context, key) then s == SignalAbsent
    else if !exists x :: x in context && x.key == key && x.available then s == SignalUnavailable
    else if exists x :: Decides(l, d, x, key, rule, true) then s == KnownTrue
    else s == KnownFalse && exists x :: Decides(l, d, x, key, rule, false)
  }

  /** A rule signal is not applicable exactly when the artifact has no such factor; absent when
      nothing was preserved for its key; unavailable when the preserved input is; and otherwise
      what the rule decides of the preserved value. */
  lemma RuleSignalMeaning(l: Ledger, i: nat, observations: seq<Observation>, signal: Signal)
    requires Reachable(l) && i < |l| && l[i].body.Decided? && signal.kind.RuleSignal?
    ensures var s := SignalOf(signal, FactsAt(l, i, observations));
      if P.Reconstruct(l, l[i].id).Refused? then s == ReplayFailed
      else RuleSignalSays(l, l[i], signal.key, signal.kind.rule, s)
  {
    hide Reachable, P.Reconstruct, P.Preserved, E.EvaluateFactor, E.Lookup, FirstExact, AvailableValues, ConsumedKeys,
      CreditedTo, P.OncePerKey, InputOf, Decides;
    if P.Reconstruct(l, l[i].id).Done? {
      var (key, rule) := (signal.key, signal.kind.rule);
      var j := SignalFactor(l, i, key, rule);
      RecordIsCoherent(l, i);
      if HasFactor(l[i].body.record.artifact, key, rule) {
        var f := l[i].body.record.artifact.factors[j];
        var r := FirstExact(P.Reconstruct(l, l[i].id).value.factors, key, rule).value;
        if HasEntry(l[i].body.record.context, key) {
          var k :| 0 <= k < |l[i].body.record.context| && l[i].body.record.context[k].key == key;
          var x := l[i].body.record.context[k];
          EntryFound(l, i, x);
          FactorOver(l, l[i], f, x, P.Preserved(l, l[i]), r);
          OnlyDecision(l, l[i], x, key, rule);
        } else {
          NoEntryFound(l, i, key);
          FactorOverNothing(f, P.Preserved(l, l[i]), l[i].body.boundary, r);
        }
      }
    }
  }

  /** One key has one entry, so whatever is decided for it is decided for that entry. */
  lemma OnlyDecision(l: Ledger, d: Event, x: ContextEntry, key: string, rule: string)
    requires d.body.Decided? && P.OncePerKey(d.body.record.context) && x in d.body.record.context && x.key == key
    ensures forall y :: y in d.body.record.context && y.key == key ==> y == x
    ensures forall y :: Decides(l, d, y, key, rule, true) ==> Decides(l, d, x, key, rule, true)
    ensures !(Decides(l, d, x, key, rule, true) && Decides(l, d, x, key, rule, false))
  {
    hide R.ParseRule, R.Matches, ObservedWhen;
    forall y | y in d.body.record.context && y.key == key ensures y == x {
      OneEntry(d, x, y);
    }
  }

  // --- Value signals ----------------------------------------------------------------------------------

  lemma {:induction false} StatesExact(factors: seq<E.Factor>, context: seq<Input>, key: string)
    requires E.UniqueKeys(context)
    ensures key in E.States(factors, context) <==> E.Lookup(context, key).Some?
    ensures E.Lookup(context, key).Some? ==>
      key in E.States(factors, context)
      && (E.States(factors, context)[key] == E.Unavailable <==> !E.Lookup(context, key).value.available)
  {
    if context != [] {
      var before, last := context[..|context| - 1], context[|context| - 1];
      assert context == before + [last];
      StatesExact(factors, before, key);
      E.LookupAppend(before, last);
    }
  }

  lemma {:induction false} AvailableExact(context: seq<ContextEntry>, k: nat)
    requires P.OncePerKey(context) && k < |context|
    ensures var (x, m) := (context[k], AvailableValues(context));
      (x.key in m <==> x.available) && (x.available ==> m[x.key] == x.value)
  {
    if k < |context| - 1 {
      AvailableExact(context[..|context| - 1], k);
      assert context[k].key != context[|context| - 1].key;
    }
  }

  /** What a value signal says of one decision that replays. */
  ghost predicate ValueSignalSays(d: Event, key: string, equals: R.Scalar, s: SignalState)
    requires d.body.Decided?
  {
    var context := d.body.record.context;
    if !HasEntry(context, key) then s == SignalAbsent
    else if !exists x :: x in context && x.key == key && x.available then s == SignalUnavailable
    else if exists x :: x in context && x.key == key && x.available && x.value == equals then s == KnownTrue
    else s == KnownFalse
  }

  lemma EvaluatedStates(a: E.Artifact, context: seq<Input>, boundary: int)
    requires E.Evaluate(a, context, boundary).Done?
    ensures E.Evaluate(a, context, boundary).value.states == E.States(a.factors, context)
  {
    hide E.EvaluateFactors, E.ParseAll, E.States, E.IgnoredKeys, E.Score, E.UniqueKeys;
  }

  /** A value signal is absent when nothing was preserved for its key, unavailable when the
      preserved input is, and otherwise whether the preserved value is exactly the named one. */
  lemma ValueSignalMeaning(l: Ledger, i: nat, observations: seq<Observation>, signal: Signal)
    requires Reachable(l) && i < |l| && l[i].body.Decided? && signal.kind.ValueSignal?
    ensures var s := SignalOf(signal, FactsAt(l, i, observations));
      if P.Reconstruct(l, l[i].id).Refused? then s == ReplayFailed
      else ValueSignalSays(l[i], signal.key, signal.kind.equals, s)
  {
    hide Reachable, P.Reconstruct, P.Preserved, P.SortEntries, E.Evaluate, E.Lookup, E.States, FirstExact,
      AvailableValues, ConsumedKeys, CreditedTo, P.OncePerKey, InputOf;
    if P.Reconstruct(l, l[i].id).Done? {
      var d, key := l[i], signal.key;
      P.ReconstructIff(l, i);
      RecordIsCoherent(l, i);
      PreservedInputs(l, i);
      EvaluatedStates(d.body.record.artifact, P.Preserved(l, d), d.body.boundary);
      StatesExact(d.body.record.artifact.factors, P.Preserved(l, d), key);
      if HasEntry(d.body.record.context, key) {
        var k :| 0 <= k < |d.body.record.context| && d.body.record.context[k].key == key;
        var x := d.body.record.context[k];
        EntryFound(l, i, x);
        InputKey(l, x);
        AvailableExact(d.body.record.context, k);
        forall y | y in d.body.record.context && y.key == key ensures y == x {
          OneEntry(d, x, y);
        }
      } else {
        NoEntryFound(l, i, key);
      }
    }
  }

  // --- Credited observations ------------------------------------------------------------------------------

  lemma {:induction false} CreditedFilters(observations: seq<Observation>, decision: EventId)
    ensures forall o :: o in CreditedTo(observations, decision) <==>
              o in observations && Attributable(o) && o.decision == Some(decision)
  {
    if observations != [] {
      CreditedFilters(observations[..|observations| - 1], decision);
    }
  }

  /** Version v is effective at the cutoff and its effective result credits the decision. */
  ghost predicate Credits(l: Ledger, v: EventId, cutoff: int, decision: EventId, o: Observation) {
    && IsSelected(l, v, cutoff, None) && Observe(l, v, cutoff) == Done(o)
    && Attributable(o) && o.decision == Some(decision)
  }

  /** A decision's observations are exactly the effective outcome versions whose effective
      result credits it. */
  lemma CreditedExactly(l: Ledger, cutoff: int, k: nat, o: Observation)
    requires Reachable(l) && ValidateCutoff(l, cutoff).Done? && k < |Population(l, cutoff, |l|)|
    ensures GlobalFacts(l, cutoff).Done? && k < |GlobalFacts(l, cutoff).value|
    ensures var f := GlobalFacts(l, cutoff).value[k];
      o in f.observations <==> exists v :: Credits(l, v, cutoff, f.decision, o)
  {
    hide Reachable, IsSelected, EffectiveVersions, Observe, ObserveAll, CreditedTo, Attributable, Distinct, ReplayOf,
      AvailableValues, ConsumedKeys, Population;
    PopulationRows(l, cutoff, |l|);
    SelectionExact(l, cutoff, None);
    var ids := EffectiveVersions(l, cutoff, None, |l|).value;
    AllObserved(l, ids, cutoff, None);
    var observations := ObserveAll(l, ids, cutoff).value;
    var f := GlobalFacts(l, cutoff).value[k];
    CreditedFilters(observations, f.decision);
    if o in f.observations {
      var j :| 0 <= j < |observations| && observations[j] == o;
      assert ids[j] in ids;
      assert Credits(l, ids[j], cutoff, f.decision, o);
    }
    if v :| Credits(l, v, cutoff, f.decision, o) {
      var j :| 0 <= j < |ids| && ids[j] == v;
      assert observations[j] == o;
    }
  }

  /** A decision's standing is the best of what its effective credited outcomes show: a closed
      one with a known answer, a closed one without, an open one, or none at all. */
  lemma StandingMeaning(l: Ledger, cutoff: int, k: nat)
    requires Reachable(l) && ValidateCutoff(l, cutoff).Done? && k < |Population(l, cutoff, |l|)|
    ensures GlobalFacts(l, cutoff).Done? && k < |GlobalFacts(l, cutoff).value|
    ensures var f := GlobalFacts(l, cutoff).value[k];
      StandingOf(f) ==
        if exists v, o :: Credits(l, v, cutoff, f.decision, o) && o.state == ClosedKnown then Evaluated
        else if exists v, o :: Credits(l, v, cutoff, f.decision, o) && o.state == ClosedUnknown then UnknownOutcome
        else if exists v, o :: Credits(l, v, cutoff, f.decision, o) then OpenOutcome
        else Unattributed
  {
    hide Reachable, Credits, GlobalFacts, Population;
    FactsCounted(l, cutoff);
    var f := GlobalFacts(l, cutoff).value[k];
    forall o ensures o in f.observations <==> exists v :: Credits(l, v, cutoff, f.decision, o) {
      CreditedExactly(l, cutoff, k, o);
    }
    StateListed(f.observations, ClosedKnown);
    StateListed(f.observations, ClosedUnknown);
    SomeListed(f.observations);
  }

  lemma FactsCounted(l: Ledger, cutoff: int)
    requires Reachable(l) && ValidateCutoff(l, cutoff).Done?
    ensures GlobalFacts(l, cutoff).Done? && |GlobalFacts(l, cutoff).value| == |Population(l, cutoff, |l|)|
  {
    hide Reachable, IsSelected, EffectiveVersions, Observe, ObserveAll, CreditedTo, Distinct, Population;
    PopulationRows(l, cutoff, |l|);
    SelectionExact(l, cutoff, None);
    AllObserved(l, EffectiveVersions(l, cutoff, None, |l|).value, cutoff, None);
  }

  lemma StateListed(observations: seq<Observation>, state: ObservationState)
    ensures HasState(observations, state) <==> exists o :: o in observations && o.state == state
  {
    if HasState(observations, state) {
      var k :| 0 <= k < |observations| && observations[k].state == state;
      assert observations[k] in observations;
    }
  }

  lemma SomeListed(observations: seq<Observation>)
    ensures observations != [] <==> exists o :: o in observations
  {
    if observations != [] {
      assert observations[0] in observations;
    }
  }
}
