/** The pointer-chasing ring of benchmark/src/memory.c.  A pointer into `nodes` is the index of the slot it points
    to. */
module Ring {
  import opened Modular
  import opened Shuffle

  /** `idx` lists every slot exactly once. */
  ghost predicate IsArrangement(idx: seq<nat>) {
    && Distinct(idx)
    && (forall i :: 0 <= i < |idx| ==> idx[i] < |idx|)
    && (forall v :: 0 <= v < |idx| ==> v in idx)
  }

  /** Slot `idx[i]` points to slot `idx[i + 1]`, and the last one to the first. */
  ghost predicate Linked(nodes: seq<nat>, idx: seq<nat>) {
    && |nodes| == |idx| && IsArrangement(idx)
    && forall i :: 0 <= i < |idx| ==> nodes[idx[i]] == idx[Wrap(i + 1, |idx|)]
  }

  /** Every slot points to a slot. */
  predicate Closed(nodes: seq<nat>) {
    forall i :: 0 <= i < |nodes| ==> nodes[i] < |nodes|
  }

  /** The slot reached from `cur` by following `k` pointers. */
  function Follow(nodes: seq<nat>, cur: nat, k: nat): (r: nat)
    requires cur < |nodes| && Closed(nodes)
    ensures r < |nodes|
    decreases k
  {
    if k == 0 then cur else Follow(nodes, nodes[cur], k - 1)
  }

  /** `v` is among the first `|nodes|` slots of a chase from `start`. */
  ghost predicate Visited(nodes: seq<nat>, start: nat, v: nat)
    requires start < |nodes| && Closed(nodes)
  {
    exists k: nat :: k < |nodes| && Follow(nodes, start, k) == v
  }

  lemma {:induction false} FollowSplit(nodes: seq<nat>, cur: nat, j: nat, k: nat)
    requires cur < |nodes| && Closed(nodes)
    ensures Follow(nodes, cur, j + k) == Follow(nodes, Follow(nodes, cur, j), k)
    decreases j
  {
    if j > 0 {
      FollowSplit(nodes, nodes[cur], j - 1, k);
    }
  }

  lemma LinkedIsClosed(nodes: seq<nat>, idx: seq<nat>)
    requires Linked(nodes, idx)
    ensures Closed(nodes)
  {
    forall v | 0 <= v < |nodes|
      ensures nodes[v] < |nodes|
    {
      assert v in idx;
      var i :| 0 <= i < |idx| && idx[i] == v;
      assert nodes[idx[i]] == idx[Wrap(i + 1, |idx|)];
    }
  }

  // ---- Building ----

  lemma {:induction false} DistinctCount(s: seq<nat>, n: nat)
    requires Distinct(s) && (forall i :: 0 <= i < |s| ==> s[i] < n)
    ensures |s| <= n
    decreases n
  {
    assert s == [] || s[0] < n;
    if n == 0 {
      assert s == [];
    } else if n - 1 in s {
      var i :| 0 <= i < |s| && s[i] == n - 1;
      DistinctCount(s[..i] + s[i + 1..], n - 1);
    } else {
      DistinctCount(s, n - 1);
    }
  }

  /** `n` distinct slots below `n` are all of them. */
  lemma DistinctIsArrangement(idx: seq<nat>)
    requires Distinct(idx) && (forall i :: 0 <= i < |idx| ==> idx[i] < |idx|)
    ensures IsArrangement(idx)
  {
    forall v | 0 <= v < |idx|
      ensures v in idx
    {
      if v !in idx {
        DistinctCount(idx + [v], |idx|);
      }
    }
  }

  /** The linking loop. */
  method Link(nodes: array<nat>, idx: array<nat>)
    requires nodes != idx && nodes.Length == idx.Length
    requires IsArrangement(idx[..])
    modifies nodes
    ensures Linked(nodes[..], idx[..])
  {
    ghost var ix := idx[..];
    var n := nodes.Length;
    for i := 0 to n
      invariant idx[..] == ix
      invariant forall k :: 0 <= k < i ==> nodes[ix[k]] == ix[Wrap(k + 1, n)]
    {
      WrapIsMod(i + 1, n);
      nodes[idx[i]] := idx[(i + 1) % n];
    }
  }

  function Identity(n: nat): (s: seq<nat>)
    ensures |s| == n && forall i :: 0 <= i < n ==> s[i] == i
  {
    seq(n, i requires 0 <= i => i)
  }

  lemma ShuffledIdentity(n: nat, cs: seq<nat>)
    requires |cs| < n && Choices(cs)
    ensures IsArrangement(FisherYates(Identity(n), cs))
  {
    var idx := FisherYates(Identity(n), cs);
    RunDistinct(Identity(n), cs);
    RunPermutes(Identity(n), cs);
    forall i | 0 <= i < n
      ensures idx[i] < n
    {
      assert idx[i] in multiset(idx);
      assert idx[i] in Identity(n);
    }
    DistinctIsArrangement(idx);
  }

  /** Index array, shuffle and links, for any number of slots and any random numbers. */
  method BuildRing(n: nat, rand: seq<nat>) returns (nodes: array<nat>, ghost idx: seq<nat>)
    requires n >= 1 && |rand| == n - 1
    ensures fresh(nodes) && nodes.Length == n
    ensures idx == FisherYates(Identity(n), Reduce(rand))
    ensures Linked(nodes[..], idx)
  {
    nodes := new nat[n];
    var ix := new nat[n];
    for i := 0 to n
      invariant forall k :: 0 <= k < i ==> ix[k] == k
    {
      ix[i] := i;
    }
    assert ix[..] == Identity(n);
    ShuffleInPlace(ix, rand);
    ShuffledIdentity(n, Reduce(rand));
    Link(nodes, ix);
    idx := ix[..];
  }

  // ---- Chasing ----

  /** `m` batches of 1024 rounds of four hops each; `chases` counts the hops. */
  method Chase(nodes: array<nat>, m: nat) returns (cur: nat, chases: nat)
    requires nodes.Length >= 1 && Closed(nodes[..])
    ensures chases == 4096 * m
    ensures cur == Follow(nodes[..], 0, 4096 * m)
  {
    cur, chases := 0, 0;
    for b := 0 to m
      invariant chases == 4096 * b
      invariant cur == Follow(nodes[..], 0, 4096 * b)
    {
      for k := 0 to 1024
        invariant cur == Follow(nodes[..], 0, 4096 * b + 4 * k)
      {
        FollowSplit(nodes[..], 0, 4096 * b + 4 * k, 4);
        FollowFour(nodes[..], cur);
        cur := nodes[cur];
        cur := nodes[cur];
        cur := nodes[cur];
        cur := nodes[cur];
      }
      chases := chases + 4096;
    }
  }

  lemma FollowFour(nodes: seq<nat>, cur: nat)
    requires cur < |nodes| && Closed(nodes)
    ensures Follow(nodes, cur, 4) == nodes[nodes[nodes[nodes[cur]]]]
  {
    var c1 := nodes[cur];
    var c2 := nodes[c1];
    var c3 := nodes[c2];
    assert Follow(nodes, c3, 1) == Follow(nodes, nodes[c3], 0);
    assert Follow(nodes, c2, 2) == Follow(nodes, c3, 1);
    assert Follow(nodes, c1, 3) == Follow(nodes, c2, 2);
  }

  /** Following `k` pointers from the slot at position `i` of the arrangement leads to position `i + k`, around. */
  lemma {:induction false} FollowInArrangement(nodes: seq<nat>, idx: seq<nat>, i: nat, k: nat)
    requires Linked(nodes, idx) && i < |idx|
    requires Closed(nodes)
    ensures Follow(nodes, idx[i], k) == idx[Wrap(i + k, |idx|)]
    decreases k
  {
    hide Distinct;
    if k > 0 {
      FollowInArrangement(nodes, idx, i, k - 1);
      FollowSplit(nodes, idx[i], k - 1, 1);
      WrapPlus(i + k - 1, 1, |idx|);
      var p := Wrap(i + k - 1, |idx|);
      assert Follow(nodes, idx[p], 1) == Follow(nodes, nodes[idx[p]], 0) == nodes[idx[p]];
    }
  }

  /** The links form a single cycle: from any slot, the first `n` visits are distinct and cover all slots, and step `n`
      is the first to come back. */
  lemma SingleCycle(nodes: seq<nat>, idx: seq<nat>, start: nat)
    requires Linked(nodes, idx) && start < |nodes|
    requires Closed(nodes)
    ensures forall j: nat, k: nat :: j < k < |nodes| ==> Follow(nodes, start, j) != Follow(nodes, start, k)
    ensures forall v :: 0 <= v < |nodes| ==> Visited(nodes, start, v)
    ensures Follow(nodes, start, |nodes|) == start
    ensures forall k: nat :: 0 < k < |nodes| ==> Follow(nodes, start, k) != start
  {
    var n := |nodes|;
    assert start in idx;
    var p :| 0 <= p < n && idx[p] == start;
    forall j: nat, k: nat | j < k < n
      ensures Follow(nodes, start, j) != Follow(nodes, start, k)
    {
      FollowInArrangement(nodes, idx, p, j);
      FollowInArrangement(nodes, idx, p, k);
      WrapInjective(p + j, p + k, n);
    }
    forall v | 0 <= v < n
      ensures Visited(nodes, start, v)
    {
      assert v in idx;
      var q :| 0 <= q < n && idx[q] == v;
      var k := WrapSurjective(p, q, n);
      FollowInArrangement(nodes, idx, p, k);
    }
    FollowInArrangement(nodes, idx, p, n);
    assert Wrap(p + n, n) == Wrap(p, n) == p;
    assert forall k: nat :: 0 < k < n ==> Follow(nodes, start, k) != Follow(nodes, start, 0);
  }

  /** The chase depends on the hop count only through its remainder by the number of slots. */
  lemma ChaseIsPeriodic(nodes: seq<nat>, idx: seq<nat>, start: nat, k: nat)
    requires Linked(nodes, idx) && start < |nodes|
    requires Closed(nodes)
    ensures Follow(nodes, start, k) == Follow(nodes, start, Wrap(k, |nodes|))
  {
    assert start in idx;
    var p :| 0 <= p < |idx| && idx[p] == start;
    FollowInArrangement(nodes, idx, p, k);
    FollowInArrangement(nodes, idx, p, Wrap(k, |nodes|));
    WrapPlus(k, p, |nodes|);
  }

  /** The benchmark: build, then chase `m` batches from slot 0. */
  method BenchLatency(n: nat, rand: seq<nat>, m: nat)
    returns (cur: nat, chases: nat, ghost ring: seq<nat>, ghost idx: seq<nat>)
    requires n >= 1 && |rand| == n - 1
    ensures idx == FisherYates(Identity(n), Reduce(rand))
    ensures |ring| == n && Linked(ring, idx) && Closed(ring)
    ensures chases == 4096 * m
    ensures cur == Follow(ring, 0, Wrap(4096 * m, n))
  {
    var nodes;
    nodes, idx := BuildRing(n, rand);
    ring := nodes[..];
    LinkedIsClosed(ring, idx);
    cur, chases := Chase(nodes, m);
    ChaseIsPeriodic(ring, idx, 0, 4096 * m);
  }
}
