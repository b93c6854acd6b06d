/** When the transition check alone leaves an unfinished write open to be resolved: always,
    except after an answer that proved nothing or a read that came before any answer. Which
    writes a ledger leaves open is the subject of CrmOperationResolution. */
module CrmOperationLiveness {
  import opened Outcome
  import opened CrmModel
  import opened CrmOperations
  import opened CrmOperationLog

  /** The last operation of the log is unfinished and can only stay unknown. */
  predicate Hopeless(log: Log)
    requires log != []
  {
    log[|log| - 1].state == OpUnknown && log[|log| - 1].phase != SendStarted
  }

  /** Some further entry brings the operation the log ends with to a terminal state. */
  ghost predicate Resolves(log: Log, more: Log)
    requires log != []
  {
    && Checked(log + more)
    && exists k :: 0 <= k < |more| && more[k].intent == log[|log| - 1].intent && Terminal(more[k].state)
  }

  // --- What an awaiting operation has recorded ---------------------------------------------

  lemma {:induction false} FirstWithKept(own: Log, more: Log, phase: Phase)
    requires FirstWith(own, phase).Some?
    ensures FirstWith(own + more, phase) == FirstWith(own, phase)
  {
    assert (own + more)[1..] == own[1..] + more;
    if own[0].phase != phase {
      FirstWithKept(own[1..], more, phase);
    }
  }

  lemma {:induction false} FirstWithHere(own: Log, o: Observing)
    ensures FirstWith(own + [o], o.phase).Some?
  {
    if own != [] && own[0].phase != o.phase {
      FirstWithHere(own[1..], o);
      assert (own + [o])[1..] == own[1..] + [o];
    }
  }

  lemma {:induction false} CompleteKept(own: Log, more: Log)
    requires CompleteResponse(own).Some?
    ensures CompleteResponse(own + more) == CompleteResponse(own)
  {
    assert (own + more)[1..] == own[1..] + more;
    if !(own[0].phase == Responded && own[0].state == AwaitingObservation) {
      CompleteKept(own[1..], more);
    }
  }

  /** Every entry whose response was a complete success carries it. */
  ghost predicate Answered(own: Log) {
    forall d :: d in own && d.phase == Responded && d.state == AwaitingObservation ==> d.response.Some?
  }

  lemma {:induction false} CompleteHere(own: Log, o: Observing)
    requires Answered(own) && o.phase == Responded && o.state == AwaitingObservation && o.response.Some?
    ensures CompleteResponse(own + [o]).Some?
  {
    if own != [] {
      assert own[0] in own;
      if !(own[0].phase == Responded && own[0].state == AwaitingObservation) {
        CompleteHere(own[1..], o);
        assert (own + [o])[1..] == own[1..] + [o];
      }
    }
  }

  lemma ResponsesAnswered(log: Log, op: Intent)
    requires Blocks(log)
    ensures Answered(Own(log, op))
  {
    forall d | d in Own(log, op) && d.phase == Responded && d.state == AwaitingObservation ensures d.response.Some? {
      var k :| 0 <= k < |log| && log[k] == d;
      assert BlockAt(log, k);
    }
  }

  lemma OwnStep(log: Log)
    requires log != []
    ensures var last := log[|log| - 1];
      Own(log, last.intent) == Own(log[..|log| - 1], last.intent) + [last]
  {
  }

  /** An operation awaiting its read has its send and its complete response on record. */
  lemma {:induction false} AwaitingRecorded(log: Log)
    requires Blocks(log) && log != [] && log[|log| - 1].state == AwaitingObservation
    ensures var own := Own(log, log[|log| - 1].intent);
      FirstWith(own, SendStarted).Some? && CompleteResponse(own).Some?
  {
    hide Own;
    var last := log[|log| - 1];
    var before := log[..|log| - 1];
    assert BlockAt(log, |log| - 1);
    OwnStep(log);
    BlocksPrefix(log, |log| - 1);
    assert before != [] && before[|before| - 1] == log[|log| - 2];
    OwnStep(before);
    var own := Own(before, last.intent);
    if last.phase == Responded {
      FirstWithHere(Own(before[..|before| - 1], last.intent), before[|before| - 1]);
      ResponsesAnswered(before, last.intent);
      CompleteHere(own, last);
    } else {
      AwaitingRecorded(before);
      CompleteKept(own, [last]);
    }
    FirstWithKept(own, [last], SendStarted);
  }

  // --- One entry that resolves it ----------------------------------------------------------------

  function Max(a: int, b: int): int {
    if a < b then b else a
  }

  /** The entry that ends an operation with these entries: a refusal before the send, a
      definite refusal after it, or a full matching read once the response is known. */
  function Ending(own: Log): Observing
    requires own != []
  {
    var last := own[|own| - 1];
    var next := last.(number := last.number + 1, response := None, read := None, reason := None);
    match last.state
    case OpPrepared => next.(phase := Refusal, state := OpRefused, reason := Some("newer_capture"))
    case AwaitingObservation =>
      var marker, complete := FirstWith(own, SendStarted), CompleteResponse(own);
      var at := Max(
        last.observedAt,
        Max(if marker.Some? then marker.value.observedAt else 0,
          if complete.Some? then complete.value.finishedAt else 0));
      next.(
        phase := OutputObserved, state := ObservedApplied, observedAt := at,
        read := Some(OutputRead(last.intent.target, Exactly(last.intent.intended, last.intent), at, at, "")))
    case _ =>
      next.(
        phase := Responded, state := RefusedNoEffect,
        response := Some(Response(RequestOf(last.intent), last.observedAt, last.observedAt, Some(412), true, Some(""))))
  }

  lemma LastState(log: Log)
    requires Blocks(log) && log != []
    ensures var last := log[|log| - 1];
      && (last.state == OpPrepared ==> last.phase == Prepared)
      && (last.state == AwaitingObservation ==> last.phase == Responded || last.phase == OutputObserved)
      && (last.phase == SendStarted ==> last.state == OpUnknown)
  {
    assert BlockAt(log, |log| - 1);
  }

  lemma UnsentEnds(own: Log)
    requires own != [] && own[|own| - 1].state == OpPrepared && own[|own| - 1].phase == Prepared
    ensures CheckContinuation(own, Ending(own)).Done? && Terminal(Ending(own).state)
  {
    hide FirstWith, CompleteResponse;
  }

  lemma SentEnds(own: Log)
    requires own != [] && own[|own| - 1].state == OpUnknown && own[|own| - 1].phase == SendStarted
    ensures CheckContinuation(own, Ending(own)).Done? && Terminal(Ending(own).state)
  {
    hide FirstWith, CompleteResponse;
  }

  lemma AnsweredEnds(own: Log)
    requires own != [] && own[|own| - 1].state == AwaitingObservation
    requires own[|own| - 1].phase == Responded || own[|own| - 1].phase == OutputObserved
    requires FirstWith(own, SendStarted).Some? && CompleteResponse(own).Some?
    ensures CheckContinuation(own, Ending(own)).Done? && Terminal(Ending(own).state)
  {
    hide FirstWith, CompleteResponse, CheckRead;
    ReadEnds(own, own[|own| - 1], Ending(own));
  }

  lemma ReadEnds(own: Log, previous: Observing, o: Observing)
    requires previous.state == AwaitingObservation && (previous.phase == Responded || previous.phase == OutputObserved)
    requires FirstWith(own, SendStarted).Some? && CompleteResponse(own).Some?
    requires o.response == None && o.reason == None && o.state == ObservedApplied && o.read.Some?
    requires o.read.value.target == o.intent.target && o.read.value.values == Exactly(o.intent.intended, o.intent)
    requires FirstWith(own, SendStarted).value.observedAt <= o.read.value.startedAt
    requires CompleteResponse(own).value.finishedAt <= o.read.value.startedAt
    requires o.read.value.startedAt == o.read.value.finishedAt == o.observedAt
    ensures CheckRead(own, previous, o).Done?
  {
    hide FirstWith, CompleteResponse;
  }

  lemma EndingChecks(log: Log) returns (o: Observing)
    requires Checked(log) && log != [] && !Terminal(log[|log| - 1].state) && !Hopeless(log)
    ensures CheckTransition(log, o).Done?
    ensures Terminal(o.state) && Closes(log[|log| - 1], o)
  {
    CheckedIsBlocks(log);
    hide Checked;
    LastState(log);
    OwnStep(log);
    var own := Own(log, log[|log| - 1].intent);
    if log[|log| - 1].state == AwaitingObservation {
      AwaitingRecorded(log);
      AnsweredEnds(own);
    } else if log[|log| - 1].state == OpPrepared {
      UnsentEnds(own);
    } else {
      SentEnds(own);
    }
    o := Ending(own);
    EndingCloses(own);
    hide Blocks, Own, CheckContinuation, Ending;
  }

  /** A further entry of the same operation whose shape is legal by itself. */
  predicate Closes(last: Observing, o: Observing) {
    && o.intent == last.intent && o.number == last.number + 1 && o.origin == last.origin
    && last.observedAt <= o.observedAt
    && o.phase != Prepared && o.phase != SendStarted
    && (o.reason.Some? ==> o.reason.value in REFUSALS)
    && (o.response.Some? ==>
          && o.response.value.startedAt <= o.response.value.finishedAt
          && o.response.value.status == Some(412) && o.response.value.body.Some?)
    && (o.read.Some? ==> o.read.value.startedAt <= o.read.value.finishedAt)
  }

  lemma EndingCloses(own: Log)
    requires own != []
    ensures Closes(own[|own| - 1], Ending(own))
  {
    hide FirstWith, CompleteResponse;
  }

  lemma HopelessNeverResolves(log: Log, more: Log)
    requires log != [] && Hopeless(log)
    ensures !Resolves(log, more)
  {
    if Checked(log + more) {
      CheckedIsBlocks(log + more);
      forall k | 0 <= k < |more| ensures !Terminal(more[k].state) {
        hide Blocks;
        assert (log + more)[|log| - 1] == log[|log| - 1];
        assert (log + more)[|log| + k] == more[k];
        UnknownForever(log + more, |log| - 1, |log| + k);
      }
    }
  }

  /** Some checked continuation resolves an unfinished operation exactly when it is not
      unknown after a response or a read: a prepared one may be refused, one just sent may
      still be answered for certain, and one whose success is known may be read back. */
  lemma ResolvableIff(log: Log)
    requires Checked(log) && log != [] && !Terminal(log[|log| - 1].state)
    ensures (exists more :: Resolves(log, more)) <==> !Hopeless(log)
  {
    if Hopeless(log) {
      forall more ensures !Resolves(log, more) {
        HopelessNeverResolves(log, more);
      }
    } else {
      var o := EndingChecks(log);
      hide Checked, Hopeless, CheckTransition;
      CheckedAppend(log, o);
      var more := [o];
      assert more[0] == o;
      assert Resolves(log, more);
    }
  }
}
