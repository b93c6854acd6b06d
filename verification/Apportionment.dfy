/** Exact counts by largest remainder, with minima respected when they fit. Shares are
    exact reals. */
module Apportionment {
  import opened Spreading

  type Mix<T> = seq<(T, real)>

  function RealSum(s: seq<real>): real {
    if s == [] then 0.0 else RealSum(s[..|s| - 1]) + s[|s| - 1]
  }

  /** The second members of the pairs: the shares of a mix, or the units of a count. */
  function Amounts<T, U>(pairs: seq<(T, U)>): (r: seq<U>)
    ensures |r| == |pairs| && forall i :: 0 <= i < |r| ==> r[i] == pairs[i].1
  {
    seq(|pairs|, i requires 0 <= i < |pairs| => pairs[i].1)
  }

  /** Nonnegative shares that add up to one. */
  ghost predicate WholeMix<T>(mix: Mix<T>) {
    RealSum(Amounts(mix)) == 1.0 && forall i :: 0 <= i < |mix| ==> mix[i].1 >= 0.0
  }

  function Exact<T>(mix: Mix<T>, n: nat): (r: seq<real>)
    ensures |r| == |mix| && forall i :: 0 <= i < |r| ==> r[i] == mix[i].1 * n as real
  {
    seq(|mix|, i requires 0 <= i < |mix| => mix[i].1 * n as real)
  }

  function Max(a: int, b: int): int {
    if a < b then b else a
  }

  /** The minimum of each label with a positive share; nothing for the others. */
  function Wanted<T(==)>(mix: Mix<T>, atLeast: map<T, int>): (r: seq<int>)
    ensures |r| == |mix|
    ensures forall i :: 0 <= i < |r| ==>
      r[i] == if mix[i].1 > 0.0 then Max(1, if mix[i].0 in atLeast then atLeast[mix[i].0] else 1) else 0
  {
    seq(|mix|, i requires 0 <= i < |mix| =>
      if mix[i].1 > 0.0 then Max(1, if mix[i].0 in atLeast then atLeast[mix[i].0] else 1) else 0)
  }

  /** The minima in force: all of them when they fit in n, none otherwise. */
  function Floors<T(==)>(mix: Mix<T>, n: nat, atLeast: map<T, int>): (r: seq<int>)
    ensures |r| == |mix| && forall i :: 0 <= i < |r| ==> r[i] >= 0
    ensures Sum(r) <= n
  {
    var wanted := Wanted(mix, atLeast);
    if Sum(wanted) <= n then wanted
    else
      SumZeros(|mix|);
      seq(|mix|, i => 0)
  }

  /** Where the adjustment starts: each label's whole units, raised to its minimum. */
  function Start<T(==)>(mix: Mix<T>, n: nat, atLeast: map<T, int>): (r: seq<int>)
    ensures |r| == |mix| && forall i :: 0 <= i < |r| ==> r[i] == Max(Exact(mix, n)[i].Floor, Floors(mix, n, atLeast)[i])
  {
    seq(|mix|, i requires 0 <= i < |mix| => Max(Exact(mix, n)[i].Floor, Floors(mix, n, atLeast)[i]))
  }

  // --- The order of remainders ------------------------------------------------------------

  /** Label i comes before label j: a larger remainder, the earlier one among equals. */
  predicate Ahead(remainders: seq<real>, i: nat, j: nat)
    requires i < |remainders| && j < |remainders|
  {
    remainders[i] > remainders[j] || (remainders[i] == remainders[j] && i < j)
  }

  ghost predicate InOrder(remainders: seq<real>, order: seq<nat>) {
    && (forall a :: 0 <= a < |order| ==> order[a] < |remainders|)
    && (forall a, b :: 0 <= a < b < |order| ==> Ahead(remainders, order[a], order[b]))
  }

  function InsertIndex(remainders: seq<real>, i: nat, order: seq<nat>): (r: seq<nat>)
    requires i < |remainders| && forall a :: 0 <= a < |order| ==> order[a] < |remainders|
    ensures |r| == |order| + 1
    ensures forall x :: x in r <==> x == i || x in order
  {
    if order == [] then [i]
    else if Ahead(remainders, order[0], i) then [order[0]] + InsertIndex(remainders, i, order[1..])
    else [i] + order
  }

  lemma AheadTransitive(remainders: seq<real>, i: nat, j: nat, k: nat)
    requires i < |remainders| && j < |remainders| && k < |remainders|
    requires Ahead(remainders, i, j) && Ahead(remainders, j, k)
    ensures Ahead(remainders, i, k)
  {
  }

  lemma AheadTotal(remainders: seq<real>, i: nat, j: nat)
    requires i < |remainders| && j < |remainders| && i != j
    ensures Ahead(remainders, i, j) || Ahead(remainders, j, i)
  {
  }

  lemma {:induction false} InsertKeepsOrder(remainders: seq<real>, i: nat, order: seq<nat>)
    requires i < |remainders| && InOrder(remainders, order) && i !in order
    ensures InOrder(remainders, InsertIndex(remainders, i, order))
  {
    hide Ahead;
    if order != [] {
      AheadTotal(remainders, order[0], i);
      if Ahead(remainders, order[0], i) {
        InsertKeepsOrder(remainders, i, order[1..]);
        var rest := InsertIndex(remainders, i, order[1..]);
        forall b | 0 <= b < |rest| ensures rest[b] < |remainders| && Ahead(remainders, order[0], rest[b]) {
          assert rest[b] in rest;
        }
      } else {
        forall b | 0 <= b < |order| ensures Ahead(remainders, i, order[b]) {
          if b > 0 { AheadTransitive(remainders, i, order[0], order[b]); }
        }
      }
    }
  }

  /** The labels with a positive share, by decreasing remainder. */
  function Order<T>(mix: Mix<T>, remainders: seq<real>, k: nat): (r: seq<nat>)
    requires k <= |mix| == |remainders|
    ensures forall x: nat :: x in r <==> x < k && mix[x].1 > 0.0
  {
    if k == 0 then []
    else
      var before := Order(mix, remainders, k - 1);
      assert forall a :: 0 <= a < |before| ==> before[a] in before;
      if mix[k - 1].1 > 0.0 then InsertIndex(remainders, k - 1, before) else before
  }

  lemma {:induction false} OrderIsOrdered<T>(mix: Mix<T>, remainders: seq<real>, k: nat)
    requires k <= |mix| == |remainders|
    ensures InOrder(remainders, Order(mix, remainders, k))
  {
    if k > 0 {
      OrderIsOrdered(mix, remainders, k - 1);
      if mix[k - 1].1 > 0.0 {
        InsertKeepsOrder(remainders, k - 1, Order(mix, remainders, k - 1));
      }
    }
  }

  function Remainders(exact: seq<real>, counts: seq<int>): (r: seq<real>)
    requires |exact| == |counts|
    ensures |r| == |counts| && forall i :: 0 <= i < |r| ==> r[i] == exact[i] - counts[i] as real
  {
    seq(|counts|, i requires 0 <= i < |counts| => exact[i] - counts[i] as real)
  }

  // --- How many units are left to place ------------------------------------------------------

  lemma {:induction false} ExactAddsUp(shares: seq<real>, exact: seq<real>, n: nat)
    requires |exact| == |shares| && forall i :: 0 <= i < |shares| ==> exact[i] == shares[i] * n as real
    ensures RealSum(exact) == RealSum(shares) * n as real
  {
    if shares != [] {
      var k := |shares| - 1;
      ExactAddsUp(shares[..k], exact[..k], n);
      assert (RealSum(shares[..k]) + shares[k]) * n as real == RealSum(shares[..k]) * n as real + shares[k] * n as real;
    }
  }

  /** The whole units fall short of the exact total by at most one for each positive share. */
  lemma {:induction false} ShortByAtMostOrder<T>(
    mix: Mix<T>, exact: seq<real>, start: seq<int>, remainders: seq<real>, k: nat)
    requires k <= |mix| == |exact| == |start| == |remainders|
    requires forall i :: 0 <= i < |mix| ==>
        mix[i].1 >= 0.0 && start[i] >= exact[i].Floor && (mix[i].1 == 0.0 ==> exact[i] == 0.0)
    ensures RealSum(exact[..k]) <= (Sum(start[..k]) + |Order(mix, remainders, k)|) as real
  {
    if k > 0 {
      ShortByAtMostOrder(mix, exact, start, remainders, k - 1);
      assert exact[..k][..k - 1] == exact[..k - 1] && start[..k][..k - 1] == start[..k - 1];
      assert exact[k - 1] <= exact[k - 1].Floor as real + 1.0;
    }
  }

  /** The starting counts are within one unit a positive label of the total. */
  lemma Shortfall<T>(mix: Mix<T>, n: nat, atLeast: map<T, int>)
    requires WholeMix(mix)
    ensures var start := Start(mix, n, atLeast);
      n - Sum(start) <= |Order(mix, Remainders(Exact(mix, n), start), |mix|)|
  {
    hide Sum, RealSum, Order;
    var exact, start := Exact(mix, n), Start(mix, n, atLeast);
    ExactAddsUp(Amounts(mix), exact, n);
    assert RealSum(exact) == n as real;
    ShortByAtMostOrder(mix, exact, start, Remainders(exact, start), |mix|);
    assert exact[..|mix|] == exact && start[..|mix|] == start;
  }

  // --- The two loops -----------------------------------------------------------------------------

  /** The reducible label furthest above its exact share, the earliest among equals. */
  method PickReducible(exact: seq<real>, floors: seq<int>, counts: array<int>) returns (i: nat)
    requires |exact| == |floors| == counts.Length
    requires exists x :: 0 <= x < counts.Length && counts[x] > floors[x]
    ensures i < counts.Length && counts[i] > floors[i]
    ensures forall x :: 0 <= x < counts.Length && counts[x] > floors[x] ==>
      counts[x] as real - exact[x] < counts[i] as real - exact[i]
      || (counts[x] as real - exact[x] == counts[i] as real - exact[i] && i <= x)
  {
    var best := -1;
    for j := 0 to counts.Length
      invariant -1 <= best < j
      invariant best == -1 ==> forall x :: 0 <= x < j ==> counts[x] <= floors[x]
      invariant best >= 0 ==> counts[best] > floors[best]
      invariant best >= 0 ==> forall x :: 0 <= x < j && counts[x] > floors[x] ==>
        counts[x] as real - exact[x] < counts[best] as real - exact[best]
        || (counts[x] as real - exact[x] == counts[best] as real - exact[best] && best <= x)
    {
      if counts[j] > floors[j]
         && (best == -1 || counts[j] as real - exact[j] > counts[best] as real - exact[best])
      {
        best := j;
      }
    }
    i := best;
  }

  lemma {:induction false} SomeAbove(counts: seq<int>, floors: seq<int>) returns (i: nat)
    requires |counts| == |floors| && Sum(counts) > Sum(floors)
    ensures i < |counts| && counts[i] > floors[i]
  {
    i := |counts| - 1;
    if counts[i] <= floors[i] {
      i := SomeAbove(counts[..i], floors[..i]);
    }
  }

  /** The units placed by topping up: one for each of the first labels of the order. */
  ghost predicate ToppedUp(start: seq<int>, counts: seq<int>, order: seq<nat>, extra: nat) {
    && |counts| == |start| && extra <= |order|
    && forall i :: 0 <= i < |start| ==> counts[i] == start[i] + if i in order[..extra] then 1 else 0
  }

  /** Every unit taken was worth more than what is left anywhere else: at its last unit
      taken, a reduced label stood further above its exact share than any label that could
      still be reduced stands now, the earlier label first among equals. */
  ghost predicate FairlyReduced(exact: seq<real>, floors: seq<int>, start: seq<int>, counts: seq<int>)
    requires |exact| == |floors| == |start| == |counts|
  {
    forall i, j :: 0 <= i < |counts| && 0 <= j < |counts| && counts[i] < start[i] && counts[j] > floors[j] ==>
      var (taken, left) := (counts[i] as real + 1.0 - exact[i], counts[j] as real - exact[j]);
      left < taken || (left == taken && i <= j)
  }

  /** The reducible label furthest above its exact share gives up its next unit. */
  lemma FairStep(exact: seq<real>, floors: seq<int>, start: seq<int>, counts: seq<int>, b: nat)
    requires |exact| == |floors| == |start| == |counts| && b < |counts|
    requires FairlyReduced(exact, floors, start, counts) && counts[b] > floors[b] && counts[b] <= start[b]
    requires forall x :: 0 <= x < |counts| && counts[x] > floors[x] ==>
      counts[x] as real - exact[x] < counts[b] as real - exact[b]
      || (counts[x] as real - exact[x] == counts[b] as real - exact[b] && b <= x)
    ensures FairlyReduced(exact, floors, start, counts[b := counts[b] - 1])
  {
  }

  /** Exact counts for n units. The total is n; minima that fit are met; no label gets more
      than one above its whole units and minimum; and when units are left to place, they go
      to the largest remainders first. */
  method Count<T(==)>(n: nat, mix: Mix<T>, atLeast: map<T, int>) returns (counted: seq<(T, int)>)
    requires WholeMix(mix)
    ensures |counted| == |mix| && forall i :: 0 <= i < |mix| ==> counted[i].0 == mix[i].0 && counted[i].1 >= 0
    ensures Sum(Amounts(counted)) == n
    ensures forall i :: 0 <= i < |mix| ==> Floors(mix, n, atLeast)[i] <= counted[i].1 <= Start(mix, n, atLeast)[i] + 1
    ensures forall i :: 0 <= i < |mix| && mix[i].1 == 0.0 ==> counted[i].1 == 0
    ensures var start := Start(mix, n, atLeast);
      if Sum(start) > n then
        && (forall i :: 0 <= i < |mix| ==> counted[i].1 <= start[i])
        && FairlyReduced(Exact(mix, n), Floors(mix, n, atLeast), start, Amounts(counted))
      else ToppedUp(start, Amounts(counted), Order(mix, Remainders(Exact(mix, n), start), |mix|), n - Sum(start))
  {
    hide Sum, RealSum, Order, ToppedUp, FairlyReduced;
    var exact, floors, start := Exact(mix, n), Floors(mix, n, atLeast), Start(mix, n, atLeast);
    Shortfall(mix, n, atLeast);
    var counts := new int[|mix|](i requires 0 <= i < |mix| => start[i]);
    assert counts[..] == start;
    Reduce(exact, floors, counts, n);
    ghost var reduced := counts[..];
    var order := Order(mix, Remainders(exact, counts[..]), |mix|);
    OrderIsOrdered(mix, Remainders(exact, counts[..]), |mix|);
    TopUp(Remainders(exact, counts[..]), order, counts, n);
    ToppedBounds(reduced, counts[..], order, n - Sum(reduced));
    counted := seq(|mix|, i requires 0 <= i < |mix| reads counts => (mix[i].0, counts[i]));
    assert Amounts(counted) == counts[..];
  }

  lemma NothingReduced(exact: seq<real>, floors: seq<int>, counts: seq<int>)
    requires |exact| == |floors| == |counts|
    ensures FairlyReduced(exact, floors, counts, counts)
  {
  }

  /** Takes units from the most over-allotted reducible labels until n are left. */
  method Reduce(exact: seq<real>, floors: seq<int>, counts: array<int>, n: nat)
    requires |exact| == |floors| == counts.Length && Sum(floors) <= n
    requires forall i :: 0 <= i < counts.Length ==> counts[i] >= floors[i]
    modifies counts
    ensures forall i :: 0 <= i < counts.Length ==> floors[i] <= counts[i] <= old(counts[i])
    ensures if Sum(old(counts[..])) > n then Sum(counts[..]) == n else counts[..] == old(counts[..])
    ensures FairlyReduced(exact, floors, old(counts[..]), counts[..])
  {
    hide Sum, FairlyReduced;
    NothingReduced(exact, floors, counts[..]);
    var total := Sum(counts[..]);
    ghost var start := counts[..];
    while total > n
      invariant total == Sum(counts[..])
      invariant forall i :: 0 <= i < counts.Length ==> floors[i] <= counts[i] <= start[i]
      invariant if Sum(start) > n then total >= n else counts[..] == start
      invariant FairlyReduced(exact, floors, start, counts[..])
      decreases total - n
    {
      ghost var above := SomeAbove(counts[..], floors);
      var i := PickReducible(exact, floors, counts);
      ghost var was := counts[..];
      counts[i] := counts[i] - 1;
      assert counts[..] == was[i := was[i] - 1];
      SumUpdate(was, i, was[i] - 1);
      FairStep(exact, floors, start, was, i);
      total := total - 1;
    }
  }

  /** Gives the units still missing to the labels in order, starting again after the last. */
  method TopUp(remainders: seq<real>, order: seq<nat>, counts: array<int>, n: nat)
    requires |remainders| == counts.Length && InOrder(remainders, order)
    requires Sum(counts[..]) <= n <= Sum(counts[..]) + |order|
    modifies counts
    ensures Sum(counts[..]) == n
    ensures ToppedUp(old(counts[..]), counts[..], order, n - Sum(old(counts[..])))
  {
    hide Sum, Ahead;
    ghost var base := counts[..];
    var total := Sum(counts[..]);
    var position := 0;
    while total < n
      invariant total == Sum(counts[..]) <= n
      invariant total == Sum(base) + position && position <= |order|
      invariant ToppedUp(base, counts[..], order, position)
      decreases n - total
    {
      var i := order[position % |order|];
      ghost var was := counts[..];
      FreshIndex(remainders, order, position);
      counts[i] := counts[i] + 1;
      assert counts[..] == was[i := was[i] + 1];
      SumUpdate(was, i, was[i] + 1);
      assert order[..position + 1] == order[..position] + [i];
      total := total + 1;
      position := position + 1;
    }
  }

  lemma ToppedBounds(start: seq<int>, counts: seq<int>, order: seq<nat>, extra: nat)
    requires ToppedUp(start, counts, order, extra)
    ensures forall i :: 0 <= i < |start| ==> start[i] <= counts[i] <= start[i] + 1
    ensures forall i :: 0 <= i < |start| && i !in order ==> counts[i] == start[i]
    ensures extra == 0 ==> counts == start
  {
    forall i | 0 <= i < |start| && i in order[..extra] ensures i in order {
    }
  }

  lemma FreshIndex(remainders: seq<real>, order: seq<nat>, position: nat)
    requires InOrder(remainders, order) && position < |order|
    ensures order[position] !in order[..position] && position % |order| == position
  {
  }
}
