/** What the transition check alone guarantees about a whole log of one target: it is a
    sequence of blocks, one operation after another, each following the phase grammar. */
module CrmOperationLog {
  import opened Outcome
  import opened CrmModel
  import opened CrmOperations

  /** Every entry passed the transition check against the entries before it. */
  ghost predicate Checked(log: Log) {
    forall k :: 0 <= k < |log| ==> CheckTransition(log[..k], log[k]).Done?
  }

  lemma CheckedAppend(log: Log, o: Observing)
    requires Checked(log) && CheckTransition(log, o).Done?
    ensures Checked(log + [o])
  {
    hide CheckTransition;
    var all := log + [o];
    forall k | 0 <= k < |all| ensures CheckTransition(all[..k], all[k]).Done? {
      if k < |log| {
        assert all[..k] == log[..k];
      } else {
        assert all[..k] == log;
      }
    }
  }

  /** The entry opens an operation: the next revision, with an original never used before. */
  ghost predicate Opens(log: Log, k: nat)
    requires k < |log|
  {
    && log[k].number == 1 && log[k].phase == Prepared && log[k].state == OpPrepared
    && log[k].intent.revision == (if k == 0 then 1 else log[k - 1].intent.revision + 1)
    && forall j :: 0 <= j < k ==> log[j].intent != log[k].intent && log[j].intent.decision != log[k].intent.decision
  }

  /** The only transitions between consecutive entries of one operation. */
  predicate Follows(a: Observing, b: Observing) {
    && b.intent == a.intent && b.number == a.number + 1 && b.origin == a.origin
    && match b.phase
       case Prepared => false
       case SendStarted => a.phase == Prepared && b.state == OpUnknown
       case Refusal => a.phase == Prepared && b.state == OpRefused
       case Responded => a.phase == SendStarted && b.response.Some? && b.state == AfterResponse(b.response.value)
       case OutputObserved =>
         && (a.phase == SendStarted || a.phase == Responded || a.phase == OutputObserved)
         && (a.state == OpUnknown ==> b.state == OpUnknown)
         && (a.state == AwaitingObservation ==> b.state == AwaitingObservation || b.state == ObservedApplied)
         && (a.state == OpUnknown || a.state == AwaitingObservation)
  }

  /** One operation at a time: an entry opens exactly when the one before it is terminal. */
  ghost predicate BlockAt(log: Log, k: nat)
    requires k < |log|
  {
    && (if k == 0 || Terminal(log[k - 1].state) then Opens(log, k) else Follows(log[k - 1], log[k]))
    && (k > 0 ==> log[k - 1].observedAt <= log[k].observedAt)
  }

  ghost predicate Blocks(log: Log) {
    forall k :: 0 <= k < |log| ==> BlockAt(log, k)
  }

  lemma BlocksPrefix(log: Log, n: nat)
    requires Blocks(log) && n <= |log|
    ensures Blocks(log[..n])
  {
    forall k | 0 <= k < n ensures BlockAt(log[..n], k) {
      assert BlockAt(log, k);
    }
  }

  lemma {:induction false} OwnEmpty(log: Log, intent: Intent)
    ensures Own(log, intent) == [] <==> forall i :: 0 <= i < |log| ==> log[i].intent != intent
  {
    if log != [] {
      OwnEmpty(log[..|log| - 1], intent);
    }
  }

  /** Every operation but the last one in the log is finished. */
  lemma {:induction false} OthersTerminal(log: Log, i: nat)
    requires Blocks(log) && i < |log| && log[i].intent != log[|log| - 1].intent
    ensures Own(log, log[i].intent) != [] && Terminal(LastOf(log, log[i]).state)
  {
    hide BlockAt;
    var n := |log| - 1;
    BlocksPrefix(log, n);
    OwnEmpty(log[..n], log[i].intent);
    assert log[..n][i] == log[i];
    if log[n - 1].intent == log[i].intent {
      assert BlockAt(log, n);
      BlockTurn(log, n);
    } else {
      OthersTerminal(log[..n], i);
    }
  }

  lemma BlockTurn(log: Log, n: nat)
    requires 0 < n < |log| && BlockAt(log, n)
    ensures log[n - 1].intent != log[n].intent ==> Terminal(log[n - 1].state)
  {
  }

  lemma {:induction false} RevisionsRise(log: Log)
    requires Blocks(log)
    ensures HighestRevision(log) == if log == [] then 0 else log[|log| - 1].intent.revision
  {
    if log != [] {
      var n := |log| - 1;
      BlocksPrefix(log, n);
      RevisionsRise(log[..n]);
      assert BlockAt(log, n);
    }
  }

  /** One more checked entry extends the blocks. */
  lemma BlocksExtend(log: Log, o: Observing)
    requires Blocks(log) && CheckTransition(log, o).Done?
    ensures Blocks(log + [o])
  {
    hide BlockAt;
    var all := log + [o];
    forall k | 0 <= k < |log| ensures BlockAt(all, k) {
      BlockKept(log, o, k);
    }
    NewBlock(log, o);
  }

  lemma BlockKept(log: Log, o: Observing, k: nat)
    requires Blocks(log) && k < |log|
    ensures BlockAt(log + [o], k)
  {
    assert BlockAt(log, k);
    assert (log + [o])[k] == log[k];
    if k > 0 {
      assert (log + [o])[k - 1] == log[k - 1];
    }
  }

  lemma NewBlock(log: Log, o: Observing)
    requires Blocks(log) && CheckTransition(log, o).Done?
    ensures BlockAt(log + [o], |log|)
  {
    hide Blocks, CheckOpening, CheckContinuation, Own, BlockAt;
    OwnEmpty(log, o.intent);
    if Own(log, o.intent) == [] {
      NewOpens(log, o);
    } else {
      NewContinues(log, o);
    }
  }

  lemma NewOpens(log: Log, o: Observing)
    requires Blocks(log) && CheckOpening(log, o).Done?
    requires forall i :: 0 <= i < |log| ==> log[i].intent != o.intent
    ensures BlockAt(log + [o], |log|)
  {
    hide Blocks;
    RevisionsRise(log);
    hide HighestRevision;
    if log != [] {
      assert LastOf(log, log[|log| - 1]) == log[|log| - 1];
    }
  }

  lemma NewContinues(log: Log, o: Observing)
    requires Blocks(log) && Own(log, o.intent) != [] && CheckContinuation(Own(log, o.intent), o).Done?
    ensures BlockAt(log + [o], |log|)
  {
    hide Blocks, CheckContinuation, Follows;
    OwnEmpty(log, o.intent);
    var i :| 0 <= i < |log| && log[i].intent == o.intent;
    var last := log[|log| - 1];
    ContinuedIsOpen(Own(log, o.intent), o);
    if o.intent != last.intent {
      OthersTerminal(log, i);
    } else {
      if last.state == OpUnknown {
        UnknownHasNoSuccess(log);
      }
      ContinuationFollows(Own(log, o.intent), o);
    }
  }

  lemma ContinuedIsOpen(own: Log, o: Observing)
    requires own != [] && CheckContinuation(own, o).Done?
    ensures !Terminal(own[|own| - 1].state) && own[|own| - 1].observedAt <= o.observedAt
  {
    hide CheckRead;
  }

  /** Once a complete success is recorded, the operation is never unknown again. */
  lemma {:induction false} SuccessSettlesDoubt(log: Log, b: nat, k: nat)
    requires Blocks(log) && b <= k < |log| && log[b].intent == log[k].intent && log[b].state == AwaitingObservation
    ensures log[k].state == AwaitingObservation || log[k].state == ObservedApplied
    decreases k
  {
    if b < k {
      assert BlockAt(log, k) && BlockAt(log, k - 1);
      SuccessSettlesDoubt(log, b, k - 1);
    }
  }

  lemma UnknownHasNoSuccess(log: Log)
    requires Blocks(log) && log != [] && log[|log| - 1].state == OpUnknown
    ensures CompleteResponse(Own(log, log[|log| - 1].intent)) == None
  {
    hide Blocks;
    var own := Own(log, log[|log| - 1].intent);
    CompleteIsRecorded(own);
    if CompleteResponse(own).Some? {
      var m :| 0 <= m < |own| && own[m].phase == Responded && own[m].state == AwaitingObservation
               && own[m].response == CompleteResponse(own);
      var b := OwnPosition(log, own[m]);
      SuccessSettlesDoubt(log, b, |log| - 1);
    }
  }

  lemma OwnPosition(log: Log, d: Observing) returns (b: nat)
    requires d in Own(log, d.intent)
    ensures b < |log| && log[b] == d
  {
    b :| 0 <= b < |log| && log[b] == d;
  }

  lemma ContinuationFollows(own: Log, o: Observing)
    requires own != [] && CheckContinuation(own, o).Done? && own[|own| - 1].intent == o.intent
    requires own[|own| - 1].state == OpUnknown ==> CompleteResponse(own) == None
    ensures Follows(own[|own| - 1], o) && !Terminal(own[|own| - 1].state) && own[|own| - 1].observedAt <= o.observedAt
  {
    hide FirstWith, CompleteResponse, AfterResponse, CheckRead;
    ContinuedIsOpen(own, o);
    if o.phase == OutputObserved {
      ReadFollows(own, own[|own| - 1], o);
    }
  }

  lemma ReadFollows(own: Log, previous: Observing, o: Observing)
    requires CheckRead(own, previous, o).Done?
    requires previous.state == OpUnknown ==> CompleteResponse(own) == None
    ensures previous.phase == SendStarted || previous.phase == Responded || previous.phase == OutputObserved
    ensures previous.state == OpUnknown || previous.state == AwaitingObservation
    ensures previous.state == OpUnknown ==> o.state == OpUnknown
    ensures previous.state == AwaitingObservation ==> o.state == AwaitingObservation || o.state == ObservedApplied
  {
    hide FirstWith, CompleteResponse;
  }

  lemma NoBlocks()
    ensures Blocks([])
  {
  }

  lemma {:induction false} CheckedIsBlocks(log: Log)
    requires Checked(log)
    ensures Blocks(log)
  {
    hide CheckTransition, Blocks;
    if log == [] {
      assert Blocks([]) by { NoBlocks(); }
    } else {
      var n := |log| - 1;
      forall k | 0 <= k < n ensures CheckTransition(log[..n][..k], log[..n][k]).Done? {
        assert log[..n][..k] == log[..k];
      }
      CheckedIsBlocks(log[..n]);
      BlocksExtend(log[..n], log[n]);
      assert log[..n] + [log[n]] == log;
    }
  }

  // --- What the blocks mean --------------------------------------------------------------------

  /** At most one operation of a target is unfinished, at every point of every run. */
  lemma OneUnfinished(log: Log, n: nat, i: nat, j: nat)
    requires Checked(log) && n <= |log| && i < n && j < n
    requires !Terminal(LastOf(log[..n], log[i]).state) && !Terminal(LastOf(log[..n], log[j]).state)
    ensures log[i].intent == log[j].intent
  {
    hide Blocks, Checked, LastOf;
    CheckedIsBlocks(log);
    BlocksPrefix(log, n);
    var prefix := log[..n];
    assert prefix[i] == log[i] && prefix[j] == log[j];
    if log[i].intent != prefix[n - 1].intent {
      OthersTerminal(prefix, i);
    }
    if log[j].intent != prefix[n - 1].intent {
      OthersTerminal(prefix, j);
    }
  }

  /** Observation times never decrease along the whole log, across operations. */
  lemma {:induction false} TimesNeverDecrease(log: Log, i: nat, j: nat)
    requires Blocks(log) && i <= j < |log|
    ensures log[i].observedAt <= log[j].observedAt
    decreases j
  {
    if i < j {
      TimesNeverDecrease(log, i, j - 1);
      assert BlockAt(log, j);
    }
  }

  /** The operations of the log, in the order they were opened. */
  function Operations(log: Log): seq<Intent> {
    if log == [] then []
    else
      var before := Operations(log[..|log| - 1]);
      if log[|log| - 1].phase == Prepared then before + [log[|log| - 1].intent] else before
  }

  /** The operations carry revisions exactly 1, 2, ..., and no original is used twice. */
  lemma {:induction false} RevisionsContiguous(log: Log)
    requires Blocks(log)
    ensures var ops := Operations(log);
      && (forall m :: 0 <= m < |ops| ==> ops[m].revision == m + 1)
      && (forall a, b :: 0 <= a < b < |ops| ==> ops[a].decision != ops[b].decision)
      && (forall op :: op in ops <==> exists i :: 0 <= i < |log| && log[i].intent == op)
      && (log != [] ==> ops != [] && ops[|ops| - 1] == log[|log| - 1].intent)
  {
    if log != [] {
      var n := |log| - 1;
      BlocksPrefix(log, n);
      RevisionsContiguous(log[..n]);
      var before := Operations(log[..n]);
      assert BlockAt(log, n);
      assert log == log[..n] + [log[n]];
      if log[n].phase == Prepared {
        forall a | 0 <= a < |before| ensures before[a].decision != log[n].intent.decision {
          assert before[a] in before;
          var i :| 0 <= i < n && log[..n][i].intent == before[a];
        }
      } else if n > 0 {
        assert log[..n][n - 1] == log[n - 1];
      }
    }
  }

  function Phases(own: Log): seq<Phase> {
    if own == [] then [] else Phases(own[..|own| - 1]) + [own[|own| - 1].phase]
  }

  predicate AllReads(phases: seq<Phase>) {
    forall i :: 0 <= i < |phases| ==> phases[i] == OutputObserved
  }

  /** A prefix of: prepared, then either refused, or a send, at most one response, and reads. */
  predicate PhaseGrammar(phases: seq<Phase>) {
    || phases == []
    || (phases[0] == Prepared
        && (|phases| == 1
            || phases[1..] == [Refusal]
            || (phases[1] == SendStarted
                && (AllReads(phases[2..]) || (phases[2] == Responded && AllReads(phases[3..]))))))
  }

  lemma GrammarExtends(phases: seq<Phase>, a: Observing, b: Observing)
    requires PhaseGrammar(phases) && phases != [] && phases[|phases| - 1] == a.phase && Follows(a, b)
    ensures PhaseGrammar(phases + [b.phase])
  {
    var all := phases + [b.phase];
    assert |phases| > 1 ==> phases[1..][0] == phases[1];
    if |phases| == 1 {
      assert all[1..] == [b.phase];
      if b.phase == SendStarted {
        assert all[2..] == [];
      }
    } else if phases[1] == SendStarted && AllReads(phases[2..]) {
      assert all[2..] == phases[2..] + [b.phase];
      if |phases| == 2 && b.phase == Responded {
        assert all[3..] == [];
      } else if |phases| > 2 {
        assert phases[2..][|phases| - 3] == OutputObserved;
      }
    } else if phases[1] == SendStarted {
      assert all[3..] == phases[3..] + [b.phase];
      if |phases| > 3 {
        assert phases[3..][|phases| - 4] == OutputObserved;
      }
    }
  }

  /** Every operation's own entries follow the phase grammar, so a send is marked once. */
  lemma {:induction false} OperationGrammar(log: Log, intent: Intent)
    requires Blocks(log)
    ensures PhaseGrammar(Phases(Own(log, intent)))
    ensures log != [] && log[|log| - 1].intent == intent ==>
              Phases(Own(log, intent)) != []
                && Phases(Own(log, intent))[|Phases(Own(log, intent))| - 1] == log[|log| - 1].phase
  {
    hide PhaseGrammar, Blocks, Opens, Follows;
    if log == [] {
      assert PhaseGrammar([]) by { GrammarEmpty(); }
    } else {
      var n := |log| - 1;
      BlocksPrefix(log, n);
      OperationGrammar(log[..n], intent);
      if log[n].intent == intent {
        var own := Own(log, intent);
        assert own[..|own| - 1] == Own(log[..n], intent);
        LastBlock(log);
        if n == 0 || Terminal(log[n - 1].state) {
          GrammarOpens();
        } else {
          assert log[..n][n - 1] == log[n - 1] && log[n - 1].intent == intent by { FollowsSame(log[n - 1], log[n]); }
          GrammarExtends(Phases(Own(log[..n], intent)), log[n - 1], log[n]);
        }
      }
    }
  }

  /** The last entry opens an operation with no earlier entry, or follows the one before it. */
  lemma LastBlock(log: Log)
    requires Blocks(log) && log != []
    ensures var (n, last) := (|log| - 1, log[|log| - 1]);
      if n == 0 || Terminal(log[n - 1].state)
      then last.phase == Prepared && Own(log[..n], last.intent) == []
      else Follows(log[n - 1], last)
  {
    hide Follows;
    var n := |log| - 1;
    assert BlockAt(log, n);
    OwnEmpty(log[..n], log[n].intent);
  }

  lemma FollowsSame(a: Observing, b: Observing)
    requires Follows(a, b)
    ensures a.intent == b.intent
  {
  }

  lemma GrammarEmpty()
    ensures PhaseGrammar([])
  {
  }

  lemma GrammarOpens()
    ensures PhaseGrammar([] + [Prepared])
  {
  }

  // --- Certainty and uncertainty -----------------------------------------------------------------

  /** The complete response is the recorded success the state rests on. */
  ghost predicate SuccessAt(log: Log, b: nat, intent: Intent) {
    && b < |log| && log[b].intent == intent && log[b].phase == Responded && log[b].state == AwaitingObservation
    && log[b].response.Some?
    && var r := log[b].response.value;
      r.complete && r.status.Some? && 200 <= r.status.value < 300 && r.request == RequestOf(intent)
  }

  lemma {:induction false} CompleteIsRecorded(own: Log)
    ensures CompleteResponse(own).Some? ==>
      exists b :: 0 <= b < |own| && own[b].phase == Responded && own[b].state == AwaitingObservation
                  && own[b].response == CompleteResponse(own)
  {
    if own != [] && !(own[0].phase == Responded && own[0].state == AwaitingObservation) {
      CompleteIsRecorded(own[1..]);
      if CompleteResponse(own).Some? {
        var b :| 0 <= b < |own[1..]| && own[1..][b].phase == Responded && own[1..][b].state == AwaitingObservation
                 && own[1..][b].response == CompleteResponse(own[1..]);
        assert own[b + 1] == own[1..][b];
      }
    }
  }

  /** A checked response entry in the awaiting state is a complete success to the request. */
  lemma ResponseIsSuccess(log: Log, b: nat)
    requires Checked(log) && b < |log| && log[b].phase == Responded && log[b].state == AwaitingObservation
    ensures SuccessAt(log, b, log[b].intent)
  {
    hide Checked, Own, CheckRead;
    CheckedAt(log, b);
  }

  /** An operation is observed as applied only after a complete success to its exact
      request and a full matching read that started once the response had finished. */
  lemma AppliedIsProved(log: Log, k: nat)
    requires Checked(log) && k < |log| && log[k].state == ObservedApplied
    ensures log[k].phase == OutputObserved && log[k].read.Some?
    ensures log[k].read.value.values == Exactly(log[k].intent.intended, log[k].intent)
    ensures log[k].read.value.target == log[k].intent.target
    ensures exists b :: 0 <= b < k && SuccessAt(log, b, log[k].intent)
                        && log[b].response.value.finishedAt <= log[k].read.value.startedAt
  {
    hide Checked, CheckTransition, CompleteResponse, Own;
    assert CheckTransition(log[..k], log[k]).Done? by { CheckedAt(log, k); }
    var own := Own(log[..k], log[k].intent);
    AppliedChecks(log[..k], log[k]);
    CompleteIsRecorded(own);
    var m :| 0 <= m < |own| && own[m].phase == Responded && own[m].state == AwaitingObservation
             && own[m].response == CompleteResponse(own);
    assert own[m] in own;
    var b := OwnPosition(log[..k], own[m]);
    ResponseIsSuccess(log, b);
  }

  lemma CheckedAt(log: Log, k: nat)
    requires Checked(log) && k < |log|
    ensures CheckTransition(log[..k], log[k]).Done?
  {
    hide CheckTransition;
  }

  lemma AppliedChecks(before: Log, o: Observing)
    requires CheckTransition(before, o).Done? && o.state == ObservedApplied
    ensures o.phase == OutputObserved && o.read.Some?
    ensures o.read.value.values == Exactly(o.intent.intended, o.intent)
    ensures o.read.value.target == o.intent.target
    ensures var complete := CompleteResponse(Own(before, o.intent));
      complete.Some? && complete.value.finishedAt <= o.read.value.startedAt
  {
    hide Own, FirstWith, CompleteResponse;
  }

  /** Uncertainty is permanent: after a response that proves nothing, or a read with no
      response at all, the operation stays unknown through the rest of the log, and so no
      other operation on the target can ever open. */
  lemma {:induction false} UnknownForever(log: Log, k: nat, m: nat)
    requires Blocks(log) && k < m < |log|
    requires log[k].state == OpUnknown && log[k].phase != SendStarted
    ensures log[m].intent == log[k].intent && log[m].state == OpUnknown && log[m].phase == OutputObserved
    decreases m
  {
    if m > k + 1 {
      UnknownForever(log, k, m - 1);
    } else {
      assert BlockAt(log, k);
    }
    assert BlockAt(log, m);
  }

  /** While the last operation is unfinished, no other may open or continue. */
  lemma HeldTarget(log: Log, o: Observing)
    requires Blocks(log) && log != [] && !Terminal(log[|log| - 1].state) && o.intent != log[|log| - 1].intent
    ensures CheckTransition(log, o).Refused?
  {
    hide CheckTransition, Blocks;
    if CheckTransition(log, o).Done? {
      NewBlock(log, o);
    }
  }
}
