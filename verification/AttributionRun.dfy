/** The attribution command: one fixed cutoff, one decision per effective version, and
    every result submitted through the collector. */
module AttributionRun {
  import opened Outcome
  import opened Ledger
  import opened AttributionPolicy
  import opened Collector
  import opened AttributionSafety
  import opened AttributionCredit

  datatype Report = Report(
    ledger: Ledger,
    submitted: seq<Event>,
    same: seq<EventId>,
    alreadyAttributed: seq<EventId>,
    notYetAttributed: seq<EventId>,
    refusal: Option<string>)

  /** A clock reading for each outcome: when it was evaluated and when it was recorded. */
  type Clock = EventId -> (int, int)

  function Envelope(result: Result, account: string, at: (int, int), supersedes: Option<EventId>): Event {
    Event(
      AttributionId(result.outcome, result.policy, result.cutoff),
      account,
      at.0,
      if at.1 < at.0 then at.0 else at.1,
      Attributed(result, at.0, supersedes))
  }

  /** Equal on every policy-result field; the cutoff is not one. */
  predicate SameResult(a: Result, b: Result) {
    a.(cutoff := b.cutoff) == b
  }

  datatype Plan =
    | Submit(envelope: Event)
    | Unchanged
    | AlreadyAttributed
    | NotYetAttributed
    | Raises(reason: string)

  /** What the command decides for one outcome, reading only the snapshot. */
  function Decide(l: Ledger, id: EventId, cutoff: int, reevaluate: bool, clock: Clock): Plan {
    match EffectiveAttribution(l, id, POLICY_VERSION, cutoff)
    case Refused(why) => Raises(why)
    case Done(existing) =>
      if !reevaluate && existing.Some? then AlreadyAttributed
      else if reevaluate && existing.None? then NotYetAttributed
      else
        match Attribute(l, id, cutoff, POLICY_VERSION)
        case Refused(why) => Raises(why)
        case Done(result) =>
          match LoadOutcome(l, id, cutoff)
          case Refused(why) => Raises(why)
          case Done(e) =>
            if reevaluate && existing.value.body.Attributed?
              && SameResult(result, existing.value.body.result) then Unchanged
            else Submit(Envelope(result, e.account, clock(id),
              if existing.Some? then Some(existing.value.id) else None))
  }

  function Step(run: Report, id: EventId, cutoff: int, reevaluate: bool, clock: Clock): Report {
    if run.refusal.Some? then run
    else
      match Decide(run.ledger, id, cutoff, reevaluate, clock)
      case AlreadyAttributed => run.(alreadyAttributed := run.alreadyAttributed + [id])
      case NotYetAttributed => run.(notYetAttributed := run.notYetAttributed + [id])
      case Unchanged => run.(same := run.same + [id])
      case Raises(why) => run.(refusal := Some(why))
      case Submit(envelope) =>
        match Ingest(run.ledger, envelope)
        case Refused(why) => run.(submitted := run.submitted + [envelope], refusal := Some(why))
        case Done((l, _)) => run.(ledger := l, submitted := run.submitted + [envelope])
  }

  function Steps(l: Ledger, ids: seq<EventId>, cutoff: int, reevaluate: bool, clock: Clock): Report {
    if ids == [] then Report(l, [], [], [], [], None)
    else Step(Steps(l, ids[..|ids| - 1], cutoff, reevaluate, clock), ids[|ids| - 1], cutoff, reevaluate, clock)
  }

  function Run(l: Ledger, reevaluate: bool, clock: Clock): Report {
    match EffectiveVersions(l, |l|, None, |l|)
    case Refused(why) => Report(l, [], [], [], [], Some(why))
    case Done(ids) => Steps(l, ids, |l|, reevaluate, clock)
  }

  /** The command as the loop it is, over the collector's store. */
  method RunAttribution(store: Store, reevaluate: bool, clock: Clock) returns (r: Report)
    requires store.Valid()
    modifies store
    ensures store.Valid()
    ensures r == Run(old(store.events), reevaluate, clock) && store.events == r.ledger
  {
    hide Reachable, Decide, EffectiveVersions, Ingest;
    ghost var start := store.events;
    var cutoff := |store.events|;
    var selected := SelectVersions(store.events, cutoff, None);
    if selected.Refused? {
      return Report(store.events, [], [], [], [], Some(selected.reason));
    }
    var ids := selected.value;
    r := Report(store.events, [], [], [], [], None);
    for i := 0 to |ids|
      invariant store.Valid() && store.events == r.ledger
      invariant r == Steps(start, ids[..i], cutoff, reevaluate, clock)
      invariant r.refusal == None
    {
      assert ids[..i + 1][..i] == ids[..i];
      RefusedStays(start, ids, i + 1, cutoff, reevaluate, clock);
      match Decide(store.events, ids[i], cutoff, reevaluate, clock) {
        case AlreadyAttributed => r := r.(alreadyAttributed := r.alreadyAttributed + [ids[i]]);
        case NotYetAttributed => r := r.(notYetAttributed := r.notYetAttributed + [ids[i]]);
        case Unchanged => r := r.(same := r.same + [ids[i]]);
        case Raises(why) => return r.(refusal := Some(why));
        case Submit(envelope) =>
          var answer := store.Submit(envelope);
          r := r.(ledger := store.events, submitted := r.submitted + [envelope]);
          if answer.Refused? {
            return r.(refusal := Some(answer.reason));
          }
      }
    }
    assert ids[..|ids|] == ids;
  }

  lemma RefusedStays(l: Ledger, ids: seq<EventId>, n: nat, cutoff: int, reevaluate: bool, clock: Clock)
    requires n <= |ids|
    ensures Steps(l, ids[..n], cutoff, reevaluate, clock).refusal.Some? ==>
              Steps(l, ids, cutoff, reevaluate, clock) == Steps(l, ids[..n], cutoff, reevaluate, clock)
    decreases |ids| - n
  {
    if n < |ids| {
      assert ids[..n + 1][..n] == ids[..n];
      RefusedStays(l, ids, n + 1, cutoff, reevaluate, clock);
    } else {
      assert ids[..n] == ids;
    }
  }
}
