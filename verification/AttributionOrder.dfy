/** The order effective versions are listed in: by the first recorded member of each chain,
    and exactly when that is their own ingest order. */
module AttributionOrder {
  import opened Outcome
  import opened Ledger
  import opened AttributionPolicy
  import opened Collector
  import opened AttributionSafety
  import opened AttributionRunSafety

  /** Reading further rows only ever adds versions at the end. */
  lemma {:induction false} SelectionGrows(l: Ledger, cutoff: int, account: Option<string>, m: nat, n: nat)
    requires m <= n <= |l| && EffectiveVersions(l, cutoff, account, n).Done?
    ensures EffectiveVersions(l, cutoff, account, m).Done?
    ensures EffectiveVersions(l, cutoff, account, m).value <= EffectiveVersions(l, cutoff, account, n).value
  {
    hide EffectiveVersion;
    if m < n {
      SelectionGrows(l, cutoff, account, m, n - 1);
    }
  }

  // --- Where each version stands -----------------------------------------------------------

  /** Row i begins a chain: an outcome of the account, recorded by the cutoff, replacing nothing. */
  predicate Begins(l: Ledger, i: nat, cutoff: int, account: Option<string>) {
    && i < |l| && i < cutoff
    && IsOutcome(l[i]) && SupersededBy(l[i]) == None
    && (account == None || account == Some(l[i].account))
  }

  /** The rows that begin a chain, among the first n, in ingest order. */
  function Beginnings(l: Ledger, cutoff: int, account: Option<string>, n: nat): (r: seq<nat>)
    requires n <= |l|
    ensures forall i: nat :: i in r <==> i < n && Begins(l, i, cutoff, account)
    ensures forall a, b :: 0 <= a < b < |r| ==> r[a] < r[b]
  {
    if n == 0 then []
    else
      var before := Beginnings(l, cutoff, account, n - 1);
      assert forall a :: 0 <= a < |before| ==> before[a] in before;
      if Begins(l, n - 1, cutoff, account) then before + [n - 1] else before
  }

  /** Row m holds the effective version of the chain that row r begins. */
  ghost predicate TipOf(l: Ledger, m: nat, r: nat, cutoff: int, account: Option<string>) {
    && m < |l| && Selected(l, l[m].id, cutoff, account, m)
    && Origin(l, m) == r
  }

  /** The listing has one version for each beginning, in the order of the beginnings: the
      effective version of the chain it begins. */
  ghost predicate ListedByBeginning(
    l: Ledger, ids: seq<EventId>, rows: seq<nat>, cutoff: int, account: Option<string>)
  {
    && |ids| == |rows|
    && forall a :: 0 <= a < |rows| ==> TipListed(l, ids[a], rows[a], cutoff, account)
  }

  ghost predicate TipListed(l: Ledger, id: EventId, r: nat, cutoff: int, account: Option<string>) {
    && r < |l| && EffectiveVersion(l, l[r].id, cutoff) == Done(id)
    && exists m: nat :: TipOf(l, m, r, cutoff, account) && l[m].id == id
  }

  /** Of two members of one chain the earlier one is replaced, no later than the other. */
  lemma {:induction false} EarlierIsReplaced(l: Ledger, i: nat, j: nat) returns (q: nat)
    requires Reachable(l) && i < j < |l| && IsOutcome(l[i]) && IsOutcome(l[j])
    requires Origin(l, i) == Origin(l, j)
    ensures q <= j && Replaces(l, q, l[i].id)
    decreases j
  {
    hide Reachable, Find, UniqueIds;
    assert SupersededBy(l[j]).Some?;
    ReachableUnique(l);
    var p := ReplacementNamesATip(l, j, SupersededBy(l[j]).value);
    ReplacementKeepsOrigin(l, p, j);
    hide Origin;
    if p == i {
      q := j;
    } else if i < p {
      q := EarlierIsReplaced(l, i, p);
    } else {
      q := EarlierIsReplaced(l, p, i);
      assert false;
    }
  }

  /** A chain has one effective version at each cutoff. */
  lemma OneTip(l: Ledger, i: nat, j: nat, r: nat, cutoff: int, account: Option<string>)
    requires Reachable(l) && TipOf(l, i, r, cutoff, account) && TipOf(l, j, r, cutoff, account)
    ensures i == j
  {
    hide Reachable, Origin;
    if i < j {
      var q := EarlierIsReplaced(l, i, j);
    } else if j < i {
      var q := EarlierIsReplaced(l, j, i);
    }
  }

  /** The chain of a row is the account's, and begins with a row that replaces nothing. */
  lemma {:induction false} OriginBegins(l: Ledger, i: nat, cutoff: int, account: Option<string>)
    requires Reachable(l) && i < |l| && i < cutoff && IsOutcome(l[i])
    requires account == None || account == Some(l[i].account)
    ensures Begins(l, Origin(l, i), cutoff, account)
    decreases i
  {
    hide Reachable, Find, UniqueIds;
    if SupersededBy(l[i]).Some? {
      ReachableUnique(l);
      var p := ReplacementNamesATip(l, i, SupersededBy(l[i]).value);
      ReplacementKeepsOrigin(l, p, i);
      OriginBegins(l, p, cutoff, account);
    }
  }

  lemma TipExists(l: Ledger, k: nat, cutoff: int, account: Option<string>) returns (m: nat)
    requires Reachable(l) && k < |l| && k < cutoff && IsOutcome(l[k])
    requires account == None || account == Some(l[k].account)
    ensures m < |l| && TipOf(l, m, Origin(l, k), cutoff, account)
    ensures EffectiveVersion(l, l[k].id, cutoff) == Done(l[m].id)
  {
    hide Reachable, Origin;
    m := EffectiveVersionExists(l, k, cutoff);
  }

  /** A version that is not the first of its chain has been listed with its chain. */
  lemma ReplacementListed(l: Ledger, cutoff: int, account: Option<string>, n: nat)
    requires Reachable(l) && n < |l| && n < cutoff && IsOutcome(l[n]) && SupersededBy(l[n]).Some?
    requires account == None || account == Some(l[n].account)
    ensures EffectiveVersions(l, cutoff, account, n).Done?
    ensures EffectiveVersion(l, l[n].id, cutoff).Done?
    ensures EffectiveVersion(l, l[n].id, cutoff).value in EffectiveVersions(l, cutoff, account, n).value
  {
    hide Reachable, UniqueIds, EffectiveVersion, Origin;
    ReachableUnique(l);
    var p := ReplacementNamesATip(l, n, SupersededBy(l[n]).value);
    ReplacementKeepsOrigin(l, p, n);
    var m := TipExists(l, n, cutoff, account);
    var m' := TipExists(l, p, cutoff, account);
    OneTip(l, m, m', Origin(l, p), cutoff, account);
    SelectionSound(l, cutoff, account, n);
  }

  /** A version that begins a chain has not been listed before its own row. */
  lemma BeginningFresh(l: Ledger, cutoff: int, account: Option<string>, n: nat, before: seq<EventId>, m: nat)
    requires Reachable(l) && n < |l| && TipOf(l, m, n, cutoff, account)
    requires ListedByBeginning(l, before, Beginnings(l, cutoff, account, n), cutoff, account)
    ensures l[m].id !in before
  {
    hide Reachable, EffectiveVersion, Origin, Selected;
    ReachableUnique(l);
    var rows := Beginnings(l, cutoff, account, n);
    forall a | 0 <= a < |before| ensures before[a] != l[m].id {
      assert rows[a] in rows;
      assert TipListed(l, before[a], rows[a], cutoff, account);
    }
  }

  /** Every effective version stands where the first member of its chain was recorded. */
  lemma {:induction false} ListingIsByBeginning(l: Ledger, cutoff: int, account: Option<string>, n: nat)
    requires Reachable(l) && n <= |l|
    ensures EffectiveVersions(l, cutoff, account, n).Done?
    ensures ListedByBeginning(
              l, EffectiveVersions(l, cutoff, account, n).value, Beginnings(l, cutoff, account, n), cutoff, account)
  {
    hide Reachable, EffectiveVersion, Origin, TipOf, TipListed;
    if n > 0 {
      ListingIsByBeginning(l, cutoff, account, n - 1);
      var e := l[n - 1];
      if n <= cutoff && IsOutcome(e) && (account == None || account == Some(e.account)) {
        if SupersededBy(e).Some? {
          ReplacementListed(l, cutoff, account, n - 1);
        } else {
          var m := TipExists(l, n - 1, cutoff, account);
          OwnOrigin(l, n - 1);
          BeginningFresh(l, cutoff, account, n - 1, EffectiveVersions(l, cutoff, account, n - 1).value, m);
          TipIsListed(l, m, n - 1, cutoff, account);
        }
      }
    }
  }

  lemma OwnOrigin(l: Ledger, i: nat)
    requires i < |l| && SupersededBy(l[i]) == None
    ensures Origin(l, i) == i
  {
  }

  lemma TipIsListed(l: Ledger, m: nat, r: nat, cutoff: int, account: Option<string>)
    requires r < |l| && TipOf(l, m, r, cutoff, account) && EffectiveVersion(l, l[r].id, cutoff) == Done(l[m].id)
    ensures TipListed(l, l[m].id, r, cutoff, account)
  {
  }

  // --- When that is the ingest order -----------------------------------------------------------

  function RowOf(l: Ledger, id: EventId): nat {
    match Find(l, id)
    case Some(i) => i
    case None => |l|
  }

  predicate InIngestOrder(l: Ledger, ids: seq<EventId>) {
    forall a, b :: 0 <= a < b < |ids| ==> RowOf(l, ids[a]) < RowOf(l, ids[b])
  }

  /** Of two chains the one begun earlier has its effective version recorded earlier. */
  ghost predicate ChainsInOrder(l: Ledger, cutoff: int, account: Option<string>) {
    forall i, j :: 0 <= i < j < |l| ==>
      Selected(l, l[i].id, cutoff, account, i) ==> Selected(l, l[j].id, cutoff, account, j) ==>
      Origin(l, i) < Origin(l, j)
  }

  lemma ListedTip(l: Ledger, cutoff: int, account: Option<string>, a: nat) returns (m: nat)
    requires Reachable(l) && EffectiveVersions(l, cutoff, account, |l|).Done?
    requires a < |EffectiveVersions(l, cutoff, account, |l|).value|
    ensures var rows := Beginnings(l, cutoff, account, |l|);
      && a < |rows| && TipOf(l, m, rows[a], cutoff, account)
    ensures m < |l| && RowOf(l, EffectiveVersions(l, cutoff, account, |l|).value[a]) == m
  {
    hide Reachable, EffectiveVersion, Origin, Selected, Find, UniqueIds;
    ListingIsByBeginning(l, cutoff, account, |l|);
    var ids, rows := EffectiveVersions(l, cutoff, account, |l|).value, Beginnings(l, cutoff, account, |l|);
    assert TipListed(l, ids[a], rows[a], cutoff, account);
    m :| TipOf(l, m, rows[a], cutoff, account) && l[m].id == ids[a];
    ReachableUnique(l);
    FindAt(l, m);
  }

  lemma TipPlace(l: Ledger, cutoff: int, account: Option<string>, i: nat) returns (a: nat)
    requires Reachable(l) && i < |l| && Selected(l, l[i].id, cutoff, account, i)
    ensures EffectiveVersions(l, cutoff, account, |l|).Done?
    ensures var (ids, rows) := (EffectiveVersions(l, cutoff, account, |l|).value, Beginnings(l, cutoff, account, |l|));
      && a < |ids| == |rows| && rows[a] == Origin(l, i) && RowOf(l, ids[a]) == i
  {
    hide Reachable, EffectiveVersion, Origin, Selected, Find, UniqueIds;
    ListingIsByBeginning(l, cutoff, account, |l|);
    SelectionExact(l, cutoff, account);
    var ids := EffectiveVersions(l, cutoff, account, |l|).value;
    assert IsSelected(l, l[i].id, cutoff, account);
    a :| 0 <= a < |ids| && ids[a] == l[i].id;
    var m := ListedTip(l, cutoff, account, a);
    ReachableUnique(l);
    FindAt(l, i);
  }

  /** The listing is in ingest order of the versions exactly when no chain begun earlier has
      its effective version recorded later: a condition on the recorded rows alone. */
  lemma IngestOrderIff(l: Ledger, cutoff: int, account: Option<string>)
    requires Reachable(l)
    ensures EffectiveVersions(l, cutoff, account, |l|).Done?
    ensures InIngestOrder(l, EffectiveVersions(l, cutoff, account, |l|).value) <==> ChainsInOrder(l, cutoff, account)
  {
    hide Reachable, EffectiveVersions, EffectiveVersion, Origin, Selected, RowOf, Beginnings;
    ListingIsByBeginning(l, cutoff, account, |l|);
    var ids, rows := EffectiveVersions(l, cutoff, account, |l|).value, Beginnings(l, cutoff, account, |l|);
    if InIngestOrder(l, ids) {
      forall i, j | 0 <= i < j < |l| && Selected(l, l[i].id, cutoff, account, i)
        && Selected(l, l[j].id, cutoff, account, j)
        ensures Origin(l, i) < Origin(l, j)
      {
        var a := TipPlace(l, cutoff, account, i);
        var b := TipPlace(l, cutoff, account, j);
        assert a < b;
      }
    }
    if ChainsInOrder(l, cutoff, account) {
      forall a, b | 0 <= a < b < |ids| ensures RowOf(l, ids[a]) < RowOf(l, ids[b]) {
        var i := ListedTip(l, cutoff, account, a);
        var j := ListedTip(l, cutoff, account, b);
        assert rows[a] < rows[b];
      }
    }
  }

  // --- A ledger where the two orders differ ---------------------------------------------------------

  const FIRST := Named("first")
  const SECOND := Named("second")
  const CORRECTED := Named("corrected")

  function Plain(id: EventId, at: int, supersedes: Option<EventId>): Event {
    Event(id, "account", at, at, OutcomeV2(0, 9, false, at, None, None, supersedes, None))
  }

  /** Two outcomes, then a correction of the first. */
  function CorrectedLedger(): Ledger {
    [ Event(Named("discovery"), "account", 0, 0, Discovered("name", "domain")),
      Plain(FIRST, 3, None), Plain(SECOND, 4, None), Plain(CORRECTED, 5, Some(FIRST)) ]
  }

  lemma Rows()
    ensures var l := CorrectedLedger();
      && LoadOutcome(l, FIRST, 4).Done? && LoadOutcome(l, SECOND, 4).Done? && LoadOutcome(l, CORRECTED, 4).Done?
      && Find(l, SECOND) == Some(2) && Find(l, CORRECTED) == Some(3)
  {
    var l := CorrectedLedger();
    assert UniqueIds(l);
    FindAt(l, 1);
    FindAt(l, 2);
    FindAt(l, 3);
    hide Find, UniqueIds;
    RecordedLoads(l, 1, 4);
    RecordedLoads(l, 2, 4);
    RecordedLoads(l, 3, 4);
  }

  lemma Chains()
    ensures var l := CorrectedLedger();
      && EffectiveVersion(l, FIRST, 4) == Done(CORRECTED)
      && EffectiveVersion(l, SECOND, 4) == Done(SECOND)
      && EffectiveVersion(l, CORRECTED, 4) == Done(CORRECTED)
  {
    hide Find, LoadOutcome;
    var l := CorrectedLedger();
    Rows();
    UnreplacedIsEffective(l, SECOND, 4);
    UnreplacedIsEffective(l, CORRECTED, 4);
    NoSuccessors(l, FIRST, 4, 3);
    NoSuccessors(l, CORRECTED, 4, 4);
    assert Successors(l, FIRST, 4, 4) == [CORRECTED];
    assert Walk(l, CORRECTED, {FIRST} + {CORRECTED}, 4) == Done(CORRECTED);
  }

  lemma CorrectedLedgerReachable()
    ensures Reachable(CorrectedLedger())
  {
    hide Find, LoadOutcome, EffectiveVersion;
    var l := CorrectedLedger();
    forall i | 0 <= i < |l| ensures Admit(l[..i], l[i]).Done? {
      FreshAt(i);
      AdmitMeans(l[..i], l[i]);
      if i > 0 {
        AccountKnown(i);
      }
      if i == 3 {
        FirstStillEffective();
      }
    }
  }

  lemma FreshAt(i: nat)
    requires i < |CorrectedLedger()|
    ensures Find(CorrectedLedger()[..i], CorrectedLedger()[i].id) == None
  {
    var l := CorrectedLedger();
    assert UniqueIds(l);
  }

  lemma AccountKnown(i: nat)
    requires 0 < i < |CorrectedLedger()|
    ensures AccountRow(CorrectedLedger()[..i], "account") == Some(("name", "domain"))
  {
    var l := CorrectedLedger();
    assert l[..i] == l[..1] + l[1..i];
    assert l[..1][..0] == [];
    AccountRowAppend(l[..1], l[1..i], "account");
  }

  lemma FirstStillEffective()
    ensures var l := CorrectedLedger()[..3];
      LoadOutcome(l, FIRST, 3) == Done(l[1]) && EffectiveVersion(l, FIRST, 3) == Done(FIRST)
  {
    var l := CorrectedLedger()[..3];
    assert UniqueIds(l);
    FindAt(l, 1);
    hide Find, UniqueIds, EffectiveVersion;
    RecordedLoads(l, 1, 3);
    UnreplacedIsEffective(l, FIRST, 3);
  }

  /** On a ledger the collector can hold, the listing is not in the ingest order of the
      versions it lists: the correction was recorded after the second outcome and is listed
      before it. */
  lemma ListedByChain()
    ensures Reachable(CorrectedLedger())
    ensures EffectiveVersions(CorrectedLedger(), 4, None, 4) == Done([CORRECTED, SECOND])
    ensures Find(CorrectedLedger(), SECOND) == Some(2) && Find(CorrectedLedger(), CORRECTED) == Some(3)
  {
    CorrectedLedgerReachable();
    hide EffectiveVersion, Find, Reachable;
    var l := CorrectedLedger();
    Rows();
    Chains();
    var none: seq<EventId> := [];
    assert none + [CORRECTED] == [CORRECTED] && [CORRECTED] + [SECOND] == [CORRECTED, SECOND];
    assert EffectiveVersions(l, 4, None, 1) == Done([]);
    assert EffectiveVersions(l, 4, None, 2) == Done([CORRECTED]);
    assert EffectiveVersions(l, 4, None, 3) == Done([CORRECTED, SECOND]);
  }
}
