/** Exact retries: resubmitting one held envelope after an uncertain answer never has a
    second effect, and a run over them leaves what some prefix of an undisturbed run leaves. */
module AttributionSubmit {
  import opened Outcome
  import opened Ledger
  import opened AttributionPolicy
  import opened Collector
  import opened AttributionSafety
  import opened AttributionRun

  const SUBMIT_ATTEMPTS := 3

  /** What can happen to one attempt: the request or the reply is lost, the server fails
      before committing, or an answer arrives. */
  datatype Delivery = RequestLost | ReplyLost | ServerFailed | Answered

  datatype Reply = Answer(r: Outcome<Answer>) | ServerError | TransportError

  /** Once an envelope is stored, resubmitting it on any later ledger changes nothing. */
  lemma StoredIsDuplicate(l: Ledger, more: Ledger, e: Event)
    requires Ingest(l, e).Done?
    ensures Ingest(Ingest(l, e).value.0 + more, e) == Done((Ingest(l, e).value.0 + more, Duplicate))
  {
    hide WireValid, Admit;
    var after := Ingest(l, e).value.0;
    if Find(l, e.id).None? {
      AppendedFound(l, e);
    }
    FindAppend(after, more, e.id);
  }

  lemma AppendedFound(l: Ledger, e: Event)
    requires Find(l, e.id) == None
    ensures Find(l + [e], e.id) == Some(|l|)
  {
    assert (l + [e])[..|l|] == l;
  }

  /** An id once used never names different content: such an envelope is refused forever. */
  lemma UsedIdConflicts(l: Ledger, more: Ledger, e: Event, other: Event)
    requires Ingest(l, e).Done? && other.id == e.id && other != e
    ensures Ingest(Ingest(l, e).value.0 + more, other).Refused?
  {
    hide WireValid, Admit;
    var after := Ingest(l, e).value.0;
    if Find(l, e.id).None? {
      AppendedFound(l, e);
    }
    FindAppend(after, more, e.id);
  }

  /** Sends one held envelope until an answer arrives, at most three times. Whatever is
      lost on the way, the ledger is as it was or holds the envelope's one effect, and an
      accepting answer means the envelope is stored. */
  method Submit(store: Store, e: Event, fate: nat -> Delivery) returns (reply: Reply)
    requires store.Valid()
    modifies store
    ensures store.Valid()
    ensures store.events == old(store.events) || store.events == old(store.events) + [e]
    ensures store.events != old(store.events) ==> Ingest(old(store.events), e) == Done((store.events, Created))
    ensures reply.Answer? && reply.r.Done? ==> Ingest(store.events, e) == Done((store.events, Duplicate))
    ensures reply.Answer? && reply.r.Refused? ==>
        store.events == old(store.events) && Ingest(store.events, e) == Refused(reply.r.reason)
  {
    hide Reachable, Ingest;
    ghost var was := store.events;
    for attempt := 1 to SUBMIT_ATTEMPTS + 1
      invariant store.Valid()
      invariant store.events == was || (store.events == was + [e] && Ingest(was, e) == Done((store.events, Created)))
    {
      var last := attempt == SUBMIT_ATTEMPTS;
      var before := store.events;
      IngestOnce(was, e);
      match fate(attempt) {
        case RequestLost =>
          if last { return TransportError; }
        case ServerFailed =>
          if last { return ServerError; }
        case ReplyLost =>
          var r := store.Submit(e);
          IngestOnce(before, e);
          if last { return TransportError; }
        case Answered =>
          var r := store.Submit(e);
          IngestOnce(before, e);
          return Answer(r);
      }
    }
    reply := TransportError;
  }

  /** What an undisturbed run has stored after the first n versions it selects. */
  ghost predicate LeftAfter(l: Ledger, after: Ledger, n: nat, reevaluate: bool, clock: Clock) {
    var selected := EffectiveVersions(l, |l|, None, |l|);
    && selected.Done? && n <= |selected.value|
    && Steps(l, selected.value[..n], |l|, reevaluate, clock).ledger == after
  }

  /** The command over an unreliable line. When every submission is answered in the end, it
      is exactly the undisturbed run, whatever replies were lost on the way; when one never
      is, the command stops and the store holds what the undisturbed run leaves after some
      number of versions. */
  method RunWithRetries(store: Store, reevaluate: bool, clock: Clock, fate: nat -> nat -> Delivery)
    returns (r: Report, interrupted: bool)
    requires store.Valid()
    modifies store
    ensures store.Valid()
    ensures !interrupted ==> r == Run(old(store.events), reevaluate, clock) && store.events == r.ledger
    ensures interrupted ==> exists n: nat :: LeftAfter(old(store.events), store.events, n, reevaluate, clock)
  {
    hide Reachable, Decide, EffectiveVersions, Ingest;
    ghost var start := store.events;
    var cutoff := |store.events|;
    interrupted := false;
    var selected := SelectVersions(store.events, cutoff, None);
    if selected.Refused? {
      r := Report(store.events, [], [], [], [], Some(selected.reason));
      return;
    }
    var ids := selected.value;
    r := Report(store.events, [], [], [], [], None);
    for i := 0 to |ids|
      invariant store.Valid() && store.events == r.ledger
      invariant r == Steps(start, ids[..i], cutoff, reevaluate, clock)
      invariant r.refusal == None && !interrupted
    {
      assert ids[..i + 1][..i] == ids[..i];
      RefusedStays(start, ids, i + 1, cutoff, reevaluate, clock);
      match Decide(store.events, ids[i], cutoff, reevaluate, clock) {
        case AlreadyAttributed => r := r.(alreadyAttributed := r.alreadyAttributed + [ids[i]]);
        case NotYetAttributed => r := r.(notYetAttributed := r.notYetAttributed + [ids[i]]);
        case Unchanged => r := r.(same := r.same + [ids[i]]);
        case Raises(why) =>
          r := r.(refusal := Some(why));
          return;
        case Submit(envelope) =>
          ghost var before := r.ledger;
          var reply := Submit(store, envelope, fate(i));
          IngestOnce(before, envelope);
          if !reply.Answer? {
            interrupted := true;
            assert LeftAfter(start, store.events, if store.events == before then i else i + 1, reevaluate, clock);
            return;
          }
          r := r.(ledger := store.events, submitted := r.submitted + [envelope]);
          if reply.r.Refused? {
            r := r.(refusal := Some(reply.r.reason));
            return;
          }
      }
    }
    assert ids[..|ids|] == ids;
  }

  /** One ingest either adds exactly its row, or changes nothing. */
  lemma IngestOnce(l: Ledger, e: Event)
    ensures match Ingest(l, e)
      case Done((after, Created)) => after == l + [e] && Ingest(after, e) == Done((after, Duplicate))
      case Done((after, Duplicate)) => after == l && Ingest(after, e) == Done((after, Duplicate))
      case Refused(_) => true
  {
    hide WireValid, Admit;
    if Ingest(l, e).Done? {
      StoredIsDuplicate(l, [], e);
      assert Ingest(l, e).value.0 + [] == Ingest(l, e).value.0;
    }
  }
}
