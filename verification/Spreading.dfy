/** Exact counts laid out evenly: every prefix holds each label nearly in proportion. */
module Spreading {

  function Sum(s: seq<int>): int {
    if s == [] then 0 else Sum(s[..|s| - 1]) + s[|s| - 1]
  }

  lemma {:induction false} SumUpdate(s: seq<int>, j: nat, x: int)
    requires j < |s|
    ensures Sum(s[j := x]) == Sum(s) - s[j] + x
  {
    var n := |s| - 1;
    if j < n {
      SumUpdate(s[..n], j, x);
      assert s[j := x][..n] == s[..n][j := x];
    } else {
      assert s[j := x][..n] == s[..n];
    }
  }

  lemma {:induction false} SumBounds(s: seq<int>, low: int)
    requires forall i :: 0 <= i < |s| ==> s[i] >= low
    ensures Sum(s) >= low * |s|
  {
    if s != [] {
      SumBounds(s[..|s| - 1], low);
    }
  }

  /** A sum above zero has a positive term. */
  lemma {:induction false} SomePositive(s: seq<int>) returns (i: nat)
    requires Sum(s) > 0
    ensures i < |s| && s[i] > 0
  {
    var n := |s| - 1;
    if s[n] > 0 {
      i := n;
    } else {
      i := SomePositive(s[..n]);
    }
  }

  /** Terms that never exceed their limits and add up to the same total are the limits. */
  lemma {:induction false} SumEqual(s: seq<int>, limits: seq<int>)
    requires |s| == |limits| && Sum(s) >= Sum(limits)
    requires forall i :: 0 <= i < |s| ==> s[i] <= limits[i]
    ensures s == limits
  {
    if s != [] {
      var n := |s| - 1;
      SumAtMost(s[..n], limits[..n]);
      SumEqual(s[..n], limits[..n]);
      assert s == s[..n] + [s[n]] && limits == limits[..n] + [limits[n]];
    }
  }

  lemma {:induction false} SumAtMost(s: seq<int>, limits: seq<int>)
    requires |s| == |limits| && forall i :: 0 <= i < |s| ==> s[i] <= limits[i]
    ensures Sum(s) <= Sum(limits)
  {
    if s != [] {
      SumAtMost(s[..|s| - 1], limits[..|limits| - 1]);
    }
  }

  lemma {:induction false} SumZeros(k: nat)
    ensures Sum(seq(k, i => 0)) == 0
  {
    if k > 0 {
      SumZeros(k - 1);
      assert seq(k, i => 0)[..k - 1] == seq(k - 1, i => 0);
    }
  }

  // --- The even spread -------------------------------------------------------------------

  /** How far each label lags its share of `position` units, in units of 1/n. */
  function Deficits(counts: seq<int>, used: seq<int>, n: int, position: int): (d: seq<int>)
    requires |used| == |counts|
    ensures |d| == |counts| && forall j :: 0 <= j < |d| ==> d[j] == counts[j] * position - used[j] * n
  {
    seq(|counts|, j requires 0 <= j < |counts| => counts[j] * position - used[j] * n)
  }

  lemma {:induction false} SumDeficits(counts: seq<int>, used: seq<int>, n: int, position: int)
    requires |used| == |counts|
    ensures Sum(Deficits(counts, used, n, position)) == Sum(counts) * position - Sum(used) * n
  {
    if counts != [] {
      var k := |counts| - 1;
      SumDeficits(counts[..k], used[..k], n, position);
      assert Deficits(counts, used, n, position)[..k] == Deficits(counts[..k], used[..k], n, position);
      assert Sum(counts) * position == Sum(counts[..k]) * position + counts[k] * position;
      assert Sum(used) * n == Sum(used[..k]) * n + used[k] * n;
    }
  }

  /** Some label that is not exhausted always has a positive deficit at the next position. */
  lemma PositiveDeficit(counts: seq<int>, used: seq<int>, n: int, position: int) returns (j: nat)
    requires |used| == |counts| && Sum(counts) == n && Sum(used) == position && 0 <= position < n
    requires forall i :: 0 <= i < |counts| ==> 0 <= used[i] <= counts[i]
    ensures j < |counts| && used[j] < counts[j] && counts[j] * (position + 1) - used[j] * n > 0
  {
    SumDeficits(counts, used, n, position + 1);
    assert n * (position + 1) - position * n == n;
    j := SomePositive(Deficits(counts, used, n, position + 1));
    ExhaustedLagsNot(counts[j], position, n);
  }

  lemma ExhaustedLagsNot(count: int, position: int, n: int)
    requires count >= 0 && position < n
    ensures count * (position + 1) - count * n <= 0
  {
    assert count * (position + 1) - count * n == count * (position + 1 - n);
  }

  /** One term of k that sum to zero, each above -n, is below (k - 1) n. */
  lemma RestBoundsOne(k: int, n: int, x: int)
    requires k >= 2 && n > 0 && 1 - n - x >= (1 - n) * k
    ensures x < (k - 1) * n
  {
    assert (1 - n) * k == k - n * k;
    assert (k - 1) * n == n * k - n;
  }

  /** No label is ever a full unit ahead of its share. */
  ghost predicate NotAhead(counts: seq<int>, used: seq<int>, n: int, position: int)
    requires |used| == |counts|
  {
    forall j :: 0 <= j < |counts| ==> used[j] * n < counts[j] * position + n
  }

  /** No label of k is ever k - 1 or more units behind its share. */
  ghost predicate NotBehind(counts: seq<int>, used: seq<int>, n: int, position: int)
    requires |used| == |counts|
  {
    forall j :: 0 <= j < |counts| ==> used[j] * n > counts[j] * position - (|counts| - 1) * n
  }

  lemma AheadBoundsBehind(counts: seq<int>, used: seq<int>, n: int, position: int)
    requires |used| == |counts| && |counts| >= 2 && n > 0 && Sum(counts) == n && Sum(used) == position
    requires NotAhead(counts, used, n, position)
    ensures NotBehind(counts, used, n, position)
  {
    hide Sum;
    var d := Deficits(counts, used, n, position);
    SumDeficits(counts, used, n, position);
    assert n * position - position * n == 0;
    forall j | 0 <= j < |counts| ensures d[j] < (|counts| - 1) * n {
      var raised := d[j := 1 - n];
      forall i | 0 <= i < |counts| ensures raised[i] >= 1 - n {
        assert used[i] * n < counts[i] * position + n;
      }
      SumBounds(raised, 1 - n);
      SumUpdate(d, j, 1 - n);
      RestBoundsOne(|counts|, n, d[j]);
    }
  }

  /** How often label j was emitted. */
  function Emitted(picks: seq<nat>, j: nat): nat {
    if picks == [] then 0
    else Emitted(picks[..|picks| - 1], j) + if picks[|picks| - 1] == j then 1 else 0
  }

  function EmittedAll(picks: seq<nat>, k: nat): (r: seq<int>)
    ensures |r| == k && forall j :: 0 <= j < k ==> r[j] == Emitted(picks, j)
  {
    seq(k, j requires 0 <= j < k => Emitted(picks, j))
  }

  /** Every prefix of a layout that places anything is fair. */
  ghost predicate Even(counts: seq<int>, picks: seq<nat>) {
    Sum(counts) > 0 ==> forall p :: 0 <= p <= |picks| ==> EvenAt(counts, picks, p)
  }

  ghost predicate EvenAt(counts: seq<int>, picks: seq<nat>, p: nat)
    requires p <= |picks|
  {
    var used := EmittedAll(picks[..p], |counts|);
    NotAhead(counts, used, Sum(counts), p) && (|counts| >= 2 ==> NotBehind(counts, used, Sum(counts), p))
  }

  function Counts<T>(counted: seq<(T, nat)>): (r: seq<int>)
    ensures |r| == |counted| && forall j :: 0 <= j < |r| ==> r[j] == counted[j].1
  {
    seq(|counted|, j requires 0 <= j < |counted| => counted[j].1)
  }

  /** The label with the largest deficit at the next position, the earliest among equals. */
  ghost predicate Best(counts: seq<int>, used: seq<int>, n: int, position: int, j: nat)
    requires |used| == |counts|
  {
    && j < |counts| && used[j] < counts[j]
    && forall i :: 0 <= i < |counts| && used[i] < counts[i] ==>
         var (mine, other) := (counts[j] * (position + 1) - used[j] * n, counts[i] * (position + 1) - used[i] * n);
         mine > other || (mine == other && j <= i)
  }

  method PickBest(counts: seq<int>, used: array<int>, n: int, position: int) returns (j: nat)
    requires used.Length == |counts|
    requires exists i :: 0 <= i < |counts| && used[i] < counts[i]
    ensures Best(counts, used[..], n, position, j)
  {
    var best := -1;
    for i := 0 to |counts|
      invariant -1 <= best < i
      invariant best == -1 ==> forall x :: 0 <= x < i ==> used[x] >= counts[x]
      invariant best >= 0 ==> used[best] < counts[best] && forall x :: 0 <= x < i && used[x] < counts[x] ==>
        var (mine, other) := (counts[best] * (position + 1) - used[best] * n, counts[x] * (position + 1) - used[x] * n);
        mine > other || (mine == other && best <= x)
    {
      if used[i] < counts[i]
         && (best == -1
             || counts[i] * (position + 1) - used[i] * n > counts[best] * (position + 1) - used[best] * n)
      {
        best := i;
      }
    }
    j := best;
  }

  /** Each pick is the best one for its position. */
  ghost predicate BestPicks(counts: seq<int>, picks: seq<nat>) {
    forall p :: 0 <= p < |picks| ==> BestPick(counts, picks, p)
  }

  ghost predicate BestPick(counts: seq<int>, picks: seq<nat>, p: nat)
    requires p < |picks|
  {
    Best(counts, EmittedAll(picks[..p], |counts|), Sum(counts), p, picks[p])
  }

  /** Labels laid out by these picks: each pick the best one, each label its exact count,
      and every prefix even. */
  ghost predicate LaidOut<T>(counted: seq<(T, nat)>, labels: seq<T>, picks: seq<nat>) {
    && |labels| == |picks|
    && (forall p :: 0 <= p < |picks| ==> picks[p] < |counted| && labels[p] == counted[picks[p]].0)
    && (forall j :: 0 <= j < |counted| ==> Emitted(picks, j) == counted[j].1)
    && BestPicks(Counts(counted), picks)
    && Even(Counts(counted), picks)
  }

  /** Emits every label exactly its count, in the one order the best picks give, with every
      prefix even. */
  method Spread<T>(counted: seq<(T, nat)>) returns (labels: seq<T>)
    ensures |labels| == Sum(Counts(counted))
    ensures exists picks: seq<nat> :: LaidOut(counted, labels, picks)
  {
    hide Even, Best, BestPicks, NotAhead, NotBehind, Emitted, Sum;
    var counts := Counts(counted);
    var k := |counted|;
    var n := Sum(counts);
    assert n >= 0 by { SumBounds(counts, 0); }
    var used := new int[k](i => 0);
    ghost var picks: seq<nat> := [];
    labels := [];
    assert used[..] == seq(k, i => 0);
    SumZeros(k);
    EvenStart(counts);
    for position := 0 to n
      invariant |labels| == |picks| == position
      invariant forall p :: 0 <= p < position ==> picks[p] < k && labels[p] == counted[picks[p]].0
      invariant used[..] == EmittedAll(picks, k) && Sum(used[..]) == position
      invariant forall j :: 0 <= j < k ==> 0 <= used[j] <= counts[j]
      invariant Even(counts, picks) && BestPicks(counts, picks)
    {
      ghost var was := used[..];
      ghost var some := PositiveDeficit(counts, used[..], n, position);
      var j := PickBest(counts, used, n, position);
      used[j] := used[j] + 1;
      labels := labels + [counted[j].0];
      BestIsOpen(counts, was, n, position, j);
      assert used[..] == was[j := was[j] + 1];
      SumUpdate(was, j, was[j] + 1);
      EvenStep(counts, picks, j, was, some);
      BestStep(counts, picks, j);
      picks := picks + [j];
    }
    SumEqual(used[..], counts);
    assert LaidOut(counted, labels, picks);
  }

  lemma BestStep(counts: seq<int>, picks: seq<nat>, j: nat)
    requires BestPicks(counts, picks) && Best(counts, EmittedAll(picks, |counts|), Sum(counts), |picks|, j)
    ensures BestPicks(counts, picks + [j])
  {
    hide Best, Sum;
    var more := picks + [j];
    forall p | 0 <= p < |more| ensures BestPick(counts, more, p) {
      if p < |picks| {
        assert more[..p] == picks[..p];
        assert BestPick(counts, picks, p);
      } else {
        assert more[..p] == picks;
      }
    }
  }

  /** The best picks are determined by the counts, so the layout is too. */
  lemma {:induction false} BestPicksUnique(counts: seq<int>, a: seq<nat>, b: seq<nat>, n: nat)
    requires BestPicks(counts, a) && BestPicks(counts, b) && n <= |a| && n <= |b|
    ensures a[..n] == b[..n]
  {
    hide Sum;
    if n > 0 {
      BestPicksUnique(counts, a, b, n - 1);
      assert BestPick(counts, a, n - 1) && BestPick(counts, b, n - 1);
      assert a[..n] == a[..n - 1] + [a[n - 1]] && b[..n] == b[..n - 1] + [b[n - 1]];
    }
  }

  /** There is only one layout of given counts. */
  lemma LayoutIsUnique<T>(counted: seq<(T, nat)>, a: seq<T>, b: seq<T>, p: seq<nat>, q: seq<nat>)
    requires LaidOut(counted, a, p) && LaidOut(counted, b, q) && |a| == |b|
    ensures a == b
  {
    hide BestPicks, Even, Emitted;
    BestPicksUnique(Counts(counted), p, q, |p|);
    assert p[..|p|] == p && q[..|q|] == q;
  }

  lemma BestIsOpen(counts: seq<int>, used: seq<int>, n: int, position: int, j: nat)
    requires |used| == |counts| && Best(counts, used, n, position, j)
    ensures j < |counts| && used[j] < counts[j]
  {
  }

  lemma EvenStart(counts: seq<int>)
    requires forall j :: 0 <= j < |counts| ==> counts[j] >= 0
    ensures Even(counts, []) && BestPicks(counts, [])
    ensures EmittedAll([], |counts|) == seq(|counts|, i => 0)
  {
    var n := Sum(counts);
    SumBounds(counts, 0);
    if n > 0 {
      var used := EmittedAll([], |counts|);
      assert used == seq(|counts|, i => 0);
      SumZeros(|counts|);
      if |counts| >= 2 {
        AheadBoundsBehind(counts, used, n, 0);
      }
    }
  }

  lemma BestIsPositive(counts: seq<int>, used: seq<int>, n: int, position: int, j: nat, some: nat)
    requires |used| == |counts| && Best(counts, used, n, position, j)
    requires some < |counts| && used[some] < counts[some] && counts[some] * (position + 1) - used[some] * n > 0
    ensures j < |counts| && counts[j] * (position + 1) - used[j] * n > 0
  {
  }

  lemma EmittedStep(picks: seq<nat>, j: nat, k: nat)
    requires j < k
    ensures EmittedAll(picks + [j], k) == EmittedAll(picks, k)[j := Emitted(picks, j) + 1]
  {
    assert (picks + [j])[..|picks|] == picks;
  }

  lemma EvenStep(counts: seq<int>, picks: seq<nat>, j: nat, used: seq<int>, some: nat)
    requires |used| == |counts| && used == EmittedAll(picks, |counts|) && Sum(used) == |picks| < Sum(counts)
    requires Even(counts, picks) && Best(counts, used, Sum(counts), |picks|, j)
    requires some < |counts| && used[some] < counts[some]
    requires counts[some] * (|picks| + 1) - used[some] * Sum(counts) > 0
    requires forall i :: 0 <= i < |counts| ==> 0 <= used[i] <= counts[i]
    ensures Even(counts, picks + [j])
    ensures EmittedAll(picks + [j], |counts|) == used[j := used[j] + 1]
  {
    hide Emitted, Sum, Best, NotAhead, NotBehind, EvenAt;
    var all, n := picks + [j], Sum(counts);
    BestIsPositive(counts, used, n, |picks|, j, some);
    EmittedStep(picks, j, |counts|);
    var after := used[j := used[j] + 1];
    forall p | 0 <= p <= |picks| ensures EvenAt(counts, all, p) {
      assert all[..p] == picks[..p];
      assert EvenAt(counts, picks, p);
      EvenAlike(counts, picks, all, p);
    }
    assert EvenAt(counts, picks, |picks|);
    AheadAt(counts, picks);
    AheadStep(counts, used, n, |picks|, j);
    SumUpdate(used, j, used[j] + 1);
    if |counts| >= 2 {
      AheadBoundsBehind(counts, after, n, |all|);
    }
    EvenWhole(counts, all);
  }

  lemma EvenAlike(counts: seq<int>, a: seq<nat>, b: seq<nat>, p: nat)
    requires p <= |a| && p <= |b| && a[..p] == b[..p] && EvenAt(counts, a, p)
    ensures EvenAt(counts, b, p)
  {
  }

  lemma AheadAt(counts: seq<int>, picks: seq<nat>)
    requires EvenAt(counts, picks, |picks|)
    ensures NotAhead(counts, EmittedAll(picks, |counts|), Sum(counts), |picks|)
  {
    assert picks[..|picks|] == picks;
  }

  lemma EvenWhole(counts: seq<int>, picks: seq<nat>)
    requires NotAhead(counts, EmittedAll(picks, |counts|), Sum(counts), |picks|)
    requires |counts| >= 2 ==> NotBehind(counts, EmittedAll(picks, |counts|), Sum(counts), |picks|)
    ensures EvenAt(counts, picks, |picks|)
  {
    assert picks[..|picks|] == picks;
  }

  lemma AheadStep(counts: seq<int>, used: seq<int>, n: int, position: int, j: nat)
    requires |used| == |counts| && n > 0 && j < |counts| && NotAhead(counts, used, n, position)
    requires counts[j] * (position + 1) - used[j] * n > 0
    requires forall i :: 0 <= i < |counts| ==> counts[i] >= 0
    ensures NotAhead(counts, used[j := used[j] + 1], n, position + 1)
  {
    var after := used[j := used[j] + 1];
    forall i | 0 <= i < |counts| ensures after[i] * n < counts[i] * (position + 1) + n {
      if i == j {
        assert after[i] * n == used[i] * n + n;
      } else {
        assert used[i] * n < counts[i] * position + n;
        assert counts[i] * (position + 1) == counts[i] * position + counts[i];
      }
    }
  }
}
