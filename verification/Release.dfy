/** Releasing a dependency graph: each node after everything it needs, and among the
    nodes that are ready always the one that occurred first. */
module Release {
  import opened Outcome

  /** When the node occurred, its generated sequence key, and its position as its id. */
  datatype Node = Node(occurredAt: int, key: (int, int, int), needs: seq<nat>)

  type Graph = seq<Node>

  /** Every prerequisite names a node of the graph. */
  ghost predicate Closed(g: Graph) {
    forall i, k :: 0 <= i < |g| && 0 <= k < |g[i].needs| ==> g[i].needs[k] < |g|
  }

  predicate LessKey(a: (int, int, int), b: (int, int, int)) {
    a.0 < b.0 || (a.0 == b.0 && (a.1 < b.1 || (a.1 == b.1 && a.2 < b.2)))
  }

  /** Node a is taken from the heap before node b. */
  predicate Earlier(g: Graph, a: nat, b: nat)
    requires a < |g| && b < |g|
  {
    || g[a].occurredAt < g[b].occurredAt
    || (g[a].occurredAt == g[b].occurredAt
        && (LessKey(g[a].key, g[b].key) || (g[a].key == g[b].key && a < b)))
  }

  lemma EarlierTransitive(g: Graph, a: nat, b: nat, c: nat)
    requires a < |g| && b < |g| && c < |g| && Earlier(g, a, b) && Earlier(g, b, c)
    ensures Earlier(g, a, c)
  {
  }

  lemma EarlierTotal(g: Graph, a: nat, b: nat)
    requires a < |g| && b < |g| && a != b
    ensures Earlier(g, a, b) || Earlier(g, b, a)
    ensures !(Earlier(g, a, b) && Earlier(g, b, a))
  {
  }

  /** Everything the node needs has been released. */
  predicate Ready(g: Graph, i: nat, released: seq<nat>)
    requires i < |g|
  {
    forall k :: 0 <= k < |g[i].needs| ==> g[i].needs[k] in released
  }

  /** The one order the graph allows: each node in turn is ready, not yet released, and
      earlier than every other node that is. */
  ghost predicate Greedy(g: Graph, order: seq<nat>) {
    forall p :: 0 <= p < |order| ==> NextIs(g, order[..p], order[p])
  }

  ghost predicate NextIs(g: Graph, before: seq<nat>, i: nat) {
    && i < |g| && i !in before && Ready(g, i, before)
    && forall j :: 0 <= j < |g| && j !in before && j != i && Ready(g, j, before) ==> Earlier(g, i, j)
  }

  /** Nothing more can be released. */
  ghost predicate Stuck(g: Graph, order: seq<nat>) {
    forall j :: 0 <= j < |g| && j !in order ==> !Ready(g, j, order)
  }

  // --- Counting what is still waited for ---------------------------------------------------

  function Count(s: seq<nat>, x: nat): nat {
    if s == [] then 0 else Count(s[..|s| - 1], x) + if s[|s| - 1] == x then 1 else 0
  }

  /** How many entries are not yet released. */
  function Missing(needs: seq<nat>, released: seq<nat>): nat {
    if needs == [] then 0
    else Missing(needs[..|needs| - 1], released) + if needs[|needs| - 1] in released then 0 else 1
  }

  lemma {:induction false} MissingNone(needs: seq<nat>, released: seq<nat>)
    ensures Missing(needs, released) == 0 <==> forall k :: 0 <= k < |needs| ==> needs[k] in released
  {
    if needs != [] {
      MissingNone(needs[..|needs| - 1], released);
    }
  }

  lemma {:induction false} MissingAfter(needs: seq<nat>, released: seq<nat>, x: nat)
    requires x !in released
    ensures Missing(needs, released) == Missing(needs, released + [x]) + Count(needs, x)
  {
    if needs != [] {
      var last := needs[|needs| - 1];
      MissingAfter(needs[..|needs| - 1], released, x);
      assert last in released + [x] <==> last in released || last == x;
    }
  }

  lemma {:induction false} MissingAll(needs: seq<nat>)
    ensures Missing(needs, []) == |needs|
  {
    if needs != [] {
      MissingAll(needs[..|needs| - 1]);
    }
  }

  // --- The heap ------------------------------------------------------------------------------

  /** Takes the earliest entry out of the heap. */
  method Pop(g: Graph, heap: seq<nat>) returns (least: nat, rest: seq<nat>)
    requires heap != [] && forall k :: 0 <= k < |heap| ==> heap[k] < |g|
    requires Different(heap)
    ensures least in heap && least !in rest && |rest| == |heap| - 1
    ensures forall x :: x in heap <==> x == least || x in rest
    ensures Different(rest)
    ensures forall x :: x in rest ==> x < |g| && Earlier(g, least, x)
  {
    var best := 0;
    for k := 1 to |heap|
      invariant 0 <= best < k
      invariant forall j :: 0 <= j < k && j != best ==> Earlier(g, heap[best], heap[j])
    {
      EarlierTotal(g, heap[k], heap[best]);
      if Earlier(g, heap[k], heap[best]) {
        forall j | 0 <= j < k + 1 && j != k ensures Earlier(g, heap[k], heap[j]) {
          if j != best {
            EarlierTransitive(g, heap[k], heap[best], heap[j]);
          }
        }
        best := k;
      }
    }
    least := heap[best];
    rest := heap[..best] + heap[best + 1..];
    RemoveAt(heap, best);
    forall x | x in rest ensures x < |g| && Earlier(g, least, x) {
      var j :| 0 <= j < |heap| && j != best && heap[j] == x;
    }
  }

  /** Cutting one entry out of a sequence of different entries. */
  lemma RemoveAt(s: seq<nat>, i: nat)
    requires i < |s| && Different(s)
    ensures var rest := s[..i] + s[i + 1..];
      && s[i] !in rest && Different(rest)
      && (forall x :: x in s <==> x == s[i] || x in rest)
      && (forall x :: x in rest ==> exists j :: 0 <= j < |s| && j != i && s[j] == x)
  {
    var rest := s[..i] + s[i + 1..];
    forall k | 0 <= k < |rest| ensures rest[k] == s[if k < i then k else k + 1] {
    }
    forall x | x in rest ensures exists j :: 0 <= j < |s| && j != i && s[j] == x {
      var k :| 0 <= k < |rest| && rest[k] == x;
      assert s[if k < i then k else k + 1] == x;
    }
    forall x | x in s ensures x == s[i] || x in rest {
      var k :| 0 <= k < |s| && s[k] == x;
      if k < i {
        assert rest[k] == x;
      } else if k > i {
        assert rest[k - 1] == x;
      }
    }
  }

  /** For each node, the nodes that need it, once for every mention. */
  ghost predicate Dependents(g: Graph, dependents: seq<seq<nat>>) {
    && |dependents| == |g|
    && (forall e, k :: 0 <= e < |g| && 0 <= k < |dependents[e]| ==> dependents[e][k] < |g|)
    && (forall e, d :: 0 <= e < |g| && 0 <= d < |g| ==> Count(dependents[e], d) == Count(g[d].needs, e))
  }

  lemma CountAppend(s: seq<nat>, y: nat, x: nat)
    ensures Count(s + [y], x) == Count(s, x) + if x == y then 1 else 0
  {
    assert (s + [y])[..|s|] == s;
  }

  /** How often x is recorded as needing e once the first d nodes, and k mentions of
      node d, have been listed. */
  function Listed(g: Graph, d: nat, k: nat, e: nat, x: nat): nat
    requires d <= |g| && (d < |g| ==> k <= |g[d].needs|) && x < |g|
  {
    if x < d then Count(g[x].needs, e) else if x == d then Count(g[d].needs[..k], e) else 0
  }

  ghost predicate ListedSoFar(g: Graph, dependents: seq<seq<nat>>, d: nat, k: nat)
    requires d <= |g| && (d < |g| ==> k <= |g[d].needs|)
  {
    && |dependents| == |g|
    && (forall e: nat, j: nat :: e < |g| && j < |dependents[e]| ==> dependents[e][j] <= d && dependents[e][j] < |g|)
    && (forall e: nat, x: nat :: e < |g| && x < |g| ==> Count(dependents[e], x) == Listed(g, d, k, e, x))
  }

  method BuildDependents(g: Graph) returns (dependents: seq<seq<nat>>)
    requires Closed(g)
    ensures Dependents(g, dependents)
  {
    dependents := seq(|g|, i => []);
    for d := 0 to |g|
      invariant ListedSoFar(g, dependents, d, 0)
    {
      for k := 0 to |g[d].needs|
        invariant ListedSoFar(g, dependents, d, k)
      {
        var need := g[d].needs[k];
        ListOne(g, dependents, d, k);
        dependents := dependents[need := dependents[need] + [d]];
      }
      ListedNode(g, dependents, d);
    }
  }

  lemma ListOne(g: Graph, dependents: seq<seq<nat>>, d: nat, k: nat)
    requires Closed(g) && d < |g| && k < |g[d].needs| && ListedSoFar(g, dependents, d, k)
    ensures var need := g[d].needs[k];
      need < |g| && ListedSoFar(g, dependents[need := dependents[need] + [d]], d, k + 1)
  {
    var need := g[d].needs[k];
    var after := dependents[need := dependents[need] + [d]];
    assert g[d].needs[..k + 1] == g[d].needs[..k] + [need];
    forall e: nat, x: nat | e < |g| && x < |g| ensures Count(after[e], x) == Listed(g, d, k + 1, e, x) {
      assert Count(dependents[e], x) == Listed(g, d, k, e, x);
      CountAppend(dependents[need], d, x);
      CountAppend(g[d].needs[..k], need, e);
    }
  }

  lemma ListedNode(g: Graph, dependents: seq<seq<nat>>, d: nat)
    requires d < |g| && ListedSoFar(g, dependents, d, |g[d].needs|)
    ensures ListedSoFar(g, dependents, d + 1, 0)
  {
    assert g[d].needs[..|g[d].needs|] == g[d].needs;
    forall e: nat, x: nat | e < |g| && x < |g| ensures Count(dependents[e], x) == Listed(g, d + 1, 0, e, x) {
      assert Count(dependents[e], x) == Listed(g, d, |g[d].needs|, e, x);
    }
  }

  // --- The release ------------------------------------------------------------------------------

  /** Between pops: each node waits for what is not released, and the heap holds exactly
      the nodes that are ready and not released, once each. */
  ghost predicate Waiting(g: Graph, waiting: seq<int>, heap: seq<nat>, released: seq<nat>) {
    && |waiting| == |g|
    && (forall i: nat :: i < |g| ==> waiting[i] == Missing(g[i].needs, released))
    && (forall a, b :: 0 <= a < b < |heap| ==> heap[a] != heap[b])
    && (forall x: nat :: x in heap <==> x < |g| && x !in released && Missing(g[x].needs, released) == 0)
    && (forall x: nat :: x < |g| && x in released ==> Missing(g[x].needs, released) == 0)
  }

  /** While the dependents of the node just released are being told. */
  ghost predicate Telling(
    g: Graph, waiting: seq<int>, heap: seq<nat>, before: seq<nat>, e: nat, told: seq<nat>)
  {
    && |waiting| == |g|
    && (forall i: nat :: i < |g| ==> waiting[i] == Missing(g[i].needs, before) - Count(told, i))
    && (forall a, b :: 0 <= a < b < |heap| ==> heap[a] != heap[b])
    && (forall x: nat :: x in heap <==> x < |g| && x !in before && x != e && waiting[x] == 0)
    && (forall x: nat :: x < |g| && (x in before || x == e) ==> Missing(g[x].needs, before) == 0)
  }

  /** Releases the whole graph in its one greedy order, or refuses because it has a cycle:
      nothing unreleased is ready. */
  method Ordered(g: Graph) returns (r: Outcome<seq<nat>>)
    requires Closed(g)
    ensures r.Done? ==> |r.value| == |g| && Greedy(g, r.value) && forall i: nat :: i < |g| ==> i in r.value
    ensures r.Done? <==> exists t :: Topological(g, t)
    ensures r.Done? ==> Topological(g, r.value)
  {
    hide Waiting, Telling, Greedy, Dependents, Missing, Count, NextIs, Topological, Stuck;
    var waiting := new int[|g|](i requires 0 <= i < |g| => |g[i].needs|);
    var dependents := BuildDependents(g);
    var heap := InitialHeap(g, waiting);
    var released: seq<nat> := [];
    assert Greedy(g, []) by { NothingReleased(g); }
    while heap != []
      invariant Waiting(g, waiting[..], heap, released) && Greedy(g, released)
      invariant Different(released) && forall x :: x in released ==> x < |g|
      decreases |g| - |released|
    {
      HeapDistinct(g, waiting[..], heap, released);
      var e, rest := Pop(g, heap);
      PopIsNext(g, waiting[..], heap, released, e, rest);
      StartTelling(g, waiting[..], heap, released, e, rest);
      heap := rest;
      for k := 0 to |dependents[e]|
        invariant Telling(g, waiting[..], heap, released, e, dependents[e][..k])
      {
        var d := dependents[e][k];
        ghost var was := waiting[..];
        TellOne(g, dependents, was, heap, released, e, k);
        waiting[d] := waiting[d] - 1;
        assert waiting[..] == was[d := was[d] - 1];
        if waiting[d] == 0 {
          heap := heap + [d];
        }
      }
      DoneTelling(g, dependents, waiting[..], heap, released, e);
      released := released + [e];
      RoomLeft(g, released);
    }
    EmptyIsStuck(g, waiting[..], released);
    if |released| != |g| {
      RoomLeft(g, released);
      ghost var left := SomeLeft(g, released);
      StuckIsCyclic(g, released, left);
      return Refused("stage-1 dependencies contain a cycle");
    }
    AllReleased(g, released);
    GreedyIsTopological(g, released);
    r := Done(released);
  }

  ghost predicate Different(s: seq<nat>) {
    forall a, b :: 0 <= a < b < |s| ==> s[a] != s[b]
  }

  lemma NothingReleased(g: Graph)
    ensures Greedy(g, [])
  {
  }

  method InitialHeap(g: Graph, waiting: array<int>) returns (heap: seq<nat>)
    requires waiting.Length == |g| && forall i :: 0 <= i < |g| ==> waiting[i] == |g[i].needs|
    ensures Waiting(g, waiting[..], heap, [])
  {
    heap := [];
    for i := 0 to |g|
      invariant forall a, b :: 0 <= a < b < |heap| ==> heap[a] != heap[b]
      invariant forall x: nat :: x in heap <==> x < i && waiting[x] == 0
    {
      if waiting[i] == 0 {
        heap := heap + [i];
      }
    }
    forall i: nat | i < |g| ensures Missing(g[i].needs, []) == |g[i].needs| {
      MissingAll(g[i].needs);
    }
  }

  lemma HeapDistinct(g: Graph, waiting: seq<int>, heap: seq<nat>, released: seq<nat>)
    requires Waiting(g, waiting, heap, released)
    ensures Different(heap)
    ensures forall k :: 0 <= k < |heap| ==> heap[k] < |g|
  {
    forall k | 0 <= k < |heap| ensures heap[k] < |g| {
      assert heap[k] in heap;
    }
  }

  /** The popped node is the greedy next. */
  lemma PopIsNext(g: Graph, waiting: seq<int>, heap: seq<nat>, released: seq<nat>, e: nat, rest: seq<nat>)
    requires Waiting(g, waiting, heap, released) && Greedy(g, released) && Different(released)
    requires e in heap && (forall x :: x in heap <==> x == e || x in rest) && e < |g|
    requires forall x :: x in rest ==> x < |g| && Earlier(g, e, x)
    ensures Greedy(g, released + [e]) && Different(released + [e]) && e !in released
  {
    hide Missing, Earlier;
    forall i: nat | i < |g| ensures Missing(g[i].needs, released) == 0 <==> Ready(g, i, released) {
      MissingNone(g[i].needs, released);
    }
    assert NextIs(g, released, e);
    hide NextIs;
    var all := released + [e];
    forall p | 0 <= p < |all| ensures NextIs(g, all[..p], all[p]) {
      if p < |released| {
        assert all[..p] == released[..p];
      } else {
        assert all[..p] == released;
      }
    }
  }

  lemma StartTelling(g: Graph, waiting: seq<int>, heap: seq<nat>, released: seq<nat>, e: nat, rest: seq<nat>)
    requires Waiting(g, waiting, heap, released) && e < |g|
    requires e in heap && e !in rest && (forall x :: x in heap <==> x == e || x in rest) && Different(rest)
    ensures Telling(g, waiting, rest, released, e, [])
  {
    hide Missing;
  }

  lemma TellOne(
    g: Graph, dependents: seq<seq<nat>>, waiting: seq<int>, heap: seq<nat>, before: seq<nat>, e: nat, k: nat)
    requires Dependents(g, dependents) && e < |g| && k < |dependents[e]| && e !in before
    requires Telling(g, waiting, heap, before, e, dependents[e][..k])
    ensures var d := dependents[e][k];
      && d < |waiting|
      && var after := waiting[d := waiting[d] - 1];
         Telling(g, after, if after[d] == 0 then heap + [d] else heap, before, e, dependents[e][..k + 1])
  {
    var d, told := dependents[e][k], dependents[e][..k];
    var after := waiting[d := waiting[d] - 1];
    assert dependents[e][..k + 1] == told + [d];
    forall i: nat | i < |g| ensures after[i] == Missing(g[i].needs, before) - Count(dependents[e][..k + 1], i) {
      CountAppend(told, d, i);
    }
    StillWaited(g, dependents, before, e, k);
    hide Missing, Count, Dependents;
  }

  /** A node about to be told is still waiting for the mention being counted, so it was not
      ready before; and the released node does not need itself. */
  lemma StillWaited(g: Graph, dependents: seq<seq<nat>>, before: seq<nat>, e: nat, k: nat)
    requires Dependents(g, dependents) && e < |g| && k < |dependents[e]| && e !in before
    ensures var d := dependents[e][k];
      d < |g| && Missing(g[d].needs, before) > Count(dependents[e][..k], d)
  {
    var d := dependents[e][k];
    CountPrefix(dependents[e], k, d);
    MissingAfter(g[d].needs, before, e);
  }

  lemma {:induction false} CountPrefix(s: seq<nat>, k: nat, x: nat)
    requires k < |s| && s[k] == x
    ensures Count(s[..k], x) < Count(s, x)
    decreases |s|
  {
    if k + 1 < |s| {
      CountPrefix(s[..|s| - 1], k, x);
      assert s[..|s| - 1][..k] == s[..k];
    } else {
      assert s[..|s| - 1] == s[..k];
    }
  }

  lemma DoneTelling(g: Graph, dependents: seq<seq<nat>>, waiting: seq<int>, heap: seq<nat>, before: seq<nat>, e: nat)
    requires Dependents(g, dependents) && e < |g| && e !in before
    requires Telling(g, waiting, heap, before, e, dependents[e][..|dependents[e]|])
    ensures Waiting(g, waiting, heap, before + [e])
  {
    assert dependents[e][..|dependents[e]|] == dependents[e];
    forall i: nat | i < |g| ensures waiting[i] == Missing(g[i].needs, before + [e]) {
      MissingAfter(g[i].needs, before, e);
      assert Count(dependents[e], i) == Count(g[i].needs, e);
    }
    hide Missing, Count;
  }

  lemma EmptyIsStuck(g: Graph, waiting: seq<int>, released: seq<nat>)
    requires Waiting(g, waiting, [], released)
    ensures Stuck(g, released)
  {
    forall j: nat | j < |g| && j !in released ensures !Ready(g, j, released) {
      MissingNone(g[j].needs, released);
      assert j !in [];
    }
  }

  function SetOf(s: seq<nat>): set<nat> {
    set x | x in s
  }

  lemma {:induction false} DifferentSize(s: seq<nat>)
    requires Different(s)
    ensures |SetOf(s)| == |s|
  {
    if s != [] {
      var n := |s| - 1;
      DifferentSize(s[..n]);
      assert s == s[..n] + [s[n]];
      assert SetOf(s) == SetOf(s[..n]) + {s[n]};
    }
  }

  function Below(n: nat): set<nat> {
    if n == 0 then {} else Below(n - 1) + {n - 1}
  }

  lemma {:induction false} BelowSize(n: nat)
    ensures |Below(n)| == n && forall x: nat :: x in Below(n) <==> x < n
  {
    if n > 0 {
      BelowSize(n - 1);
    }
  }

  lemma RoomLeft(g: Graph, released: seq<nat>)
    requires Different(released) && forall x :: x in released ==> x < |g|
    ensures |released| <= |g|
  {
    DifferentSize(released);
    BelowSize(|g|);
    SubsetSize(SetOf(released), Below(|g|));
  }

  lemma {:induction false} SubsetSize(a: set<nat>, b: set<nat>)
    requires a <= b
    ensures |a| <= |b| && (|a| == |b| ==> a == b)
    decreases b
  {
    if a != {} {
      var x :| x in a;
      SubsetSize(a - {x}, b - {x});
      assert a == (a - {x}) + {x} && b == (b - {x}) + {x};
    } else if b != {} {
      assert |b| > 0;
    }
  }

  lemma AllReleased(g: Graph, released: seq<nat>)
    requires Different(released) && |released| == |g| && forall x :: x in released ==> x < |g|
    ensures forall i: nat :: i < |g| ==> i in released
  {
    DifferentSize(released);
    BelowSize(|g|);
    SubsetSize(SetOf(released), Below(|g|));
    forall i: nat | i < |g| ensures i in released {
      assert i in SetOf(released);
    }
  }

  // --- What the order means ---------------------------------------------------------------------

  /** Every node comes after everything it needs. */
  lemma NeedsComeFirst(g: Graph, order: seq<nat>, p: nat, k: nat)
    requires Greedy(g, order) && p < |order| && order[p] < |g| && k < |g[order[p]].needs|
    ensures exists q :: 0 <= q < p && order[q] == g[order[p]].needs[k]
  {
    assert NextIs(g, order[..p], order[p]);
    var need := g[order[p]].needs[k];
    var q :| 0 <= q < p && order[..p][q] == need;
    assert order[q] == need;
  }

  /** The greedy order is unique: two greedy orders agree wherever both go. */
  lemma {:induction false} GreedyIsUnique(g: Graph, a: seq<nat>, b: seq<nat>, n: nat)
    requires Greedy(g, a) && Greedy(g, b) && n <= |a| && n <= |b|
    ensures a[..n] == b[..n]
  {
    if n > 0 {
      GreedyIsUnique(g, a, b, n - 1);
      assert NextIs(g, a[..n - 1], a[n - 1]) && NextIs(g, b[..n - 1], b[n - 1]);
      if a[n - 1] != b[n - 1] {
        EarlierTotal(g, a[n - 1], b[n - 1]);
      }
      assert a[..n] == a[..n - 1] + [a[n - 1]] && b[..n] == b[..n - 1] + [b[n - 1]];
    }
  }

  /** All the nodes in a sequence where each comes after everything it needs. */
  ghost predicate Topological(g: Graph, t: seq<nat>) {
    && (forall i: nat :: i < |g| ==> i in t)
    && forall p :: 0 <= p < |t| ==> t[p] < |g| && Ready(g, t[p], t[..p])
  }

  lemma GreedyIsTopological(g: Graph, order: seq<nat>)
    requires Greedy(g, order) && forall i: nat :: i < |g| ==> i in order
    ensures Topological(g, order)
  {
    forall p | 0 <= p < |order| ensures order[p] < |g| && Ready(g, order[p], order[..p]) {
      assert NextIs(g, order[..p], order[p]);
    }
  }

  lemma SomeLeft(g: Graph, released: seq<nat>) returns (i: nat)
    requires Different(released) && |released| < |g|
    ensures i < |g| && i !in released
  {
    DifferentSize(released);
    BelowSize(|g|);
    if Below(|g|) <= SetOf(released) {
      SubsetSize(Below(|g|), SetOf(released));
    }
    i :| i in Below(|g|) && i !in SetOf(released);
  }

  /** A sequence that is stuck with a node left over rules out every topological order. */
  lemma StuckIsCyclic(g: Graph, order: seq<nat>, left: nat)
    requires Stuck(g, order) && left < |g| && left !in order
    ensures !exists t :: Topological(g, t)
  {
    forall t ensures !Topological(g, t) {
      if Topological(g, t) {
        NodeCovered(g, order, t, left);
      }
    }
  }

  lemma NodeCovered(g: Graph, order: seq<nat>, t: seq<nat>, i: nat)
    requires Stuck(g, order) && Topological(g, t) && i < |g|
    ensures i in order
  {
    StuckCovers(g, order, t, |t|);
    assert i in t;
    var p :| 0 <= p < |t| && t[p] == i;
  }

  lemma {:induction false} StuckCovers(g: Graph, order: seq<nat>, t: seq<nat>, n: nat)
    requires Stuck(g, order) && Topological(g, t) && n <= |t|
    ensures forall p :: 0 <= p < n ==> t[p] in order
  {
    if n > 0 {
      StuckCovers(g, order, t, n - 1);
      var i := t[n - 1];
      assert Ready(g, i, t[..n - 1]);
      forall k | 0 <= k < |g[i].needs| ensures g[i].needs[k] in order {
        assert g[i].needs[k] in t[..n - 1];
      }
      assert Ready(g, i, order);
    }
  }
}
