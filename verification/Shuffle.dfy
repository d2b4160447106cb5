/** The Fisher-Yates shuffle of benchmark/src/memory.c.  The values that `rand()` returns are an input. */
module Shuffle {
  ghost predicate Distinct<T(!new)>(s: seq<T>) {
    forall i, j :: 0 <= i < j < |s| ==> s[i] != s[j]
  }

  function Swap<T>(s: seq<T>, i: nat, j: nat): (r: seq<T>)
    requires i < |s| && j < |s|
    ensures |r| == |s|
  {
    s[i := s[j]][j := s[i]]
  }

  /** `cs` are the choices of a run: the first one, for the last slot of the part to be shuffled, is at most its
      index. */
  predicate Choices(cs: seq<nat>) {
    forall k :: 0 <= k < |cs| ==> cs[k] <= |cs| - k
  }

  /** The effect of the choices `cs` on the first `|cs| + 1` entries of `s`. */
  function FisherYates<T>(s: seq<T>, cs: seq<nat>): (r: seq<T>)
    requires |cs| < |s| && Choices(cs)
    ensures |r| == |s|
    decreases |cs|
  {
    if cs == [] then s else FisherYates(Swap(s, |cs|, cs[0]), cs[1..])
  }

  /** The choices made from raw random numbers: the k-th is reduced modulo the number of slots left. */
  function Reduce(rand: seq<nat>): (cs: seq<nat>)
    ensures |cs| == |rand| && Choices(cs)
  {
    if rand == [] then [] else [rand[0] % (|rand| + 1)] + Reduce(rand[1..])
  }

  /** Shuffles in place, drawing one number for each slot but the first, from the last slot down. */
  method ShuffleInPlace<T>(arr: array<T>, rand: seq<nat>)
    requires arr.Length >= 1 && |rand| == arr.Length - 1
    modifies arr
    ensures arr[..] == FisherYates(old(arr[..]), Reduce(rand))
  {
    var i := arr.Length - 1;
    assert rand[0..] == rand;
    while i > 0
      invariant 0 <= i < arr.Length
      invariant FisherYates(arr[..], Reduce(rand[arr.Length - 1 - i..])) == FisherYates(old(arr[..]), Reduce(rand))
    {
      ghost var s := arr[..];
      ghost var rest := rand[arr.Length - 1 - i..];
      var j := rand[arr.Length - 1 - i] % (i + 1);
      var tmp := arr[i];
      arr[i] := arr[j];
      arr[j] := tmp;
      assert arr[..] == Swap(s, i, j);
      assert rest[1..] == rand[arr.Length - i..];
      assert Reduce(rest)[1..] == Reduce(rest[1..]);
      i := i - 1;
    }
    assert rand[arr.Length - 1..] == [];
  }

  // ---- What a random number decides ----

  /** The slot filled in round `k` is slot `|rand| - k`, and the number drawn for it is taken modulo the number of slots
      up to and including it. */
  lemma {:induction false} ReduceAt(rand: seq<nat>, k: nat)
    requires k < |rand|
    ensures Reduce(rand)[k] == rand[k] % (|rand| - k + 1)
  {
    if k > 0 {
      ReduceAt(rand[1..], k - 1);
    }
  }

  /** Numbers that are small enough are the choices themselves. */
  lemma {:induction false} ReduceOfChoices(cs: seq<nat>)
    requires Choices(cs)
    ensures Reduce(cs) == cs
  {
    if cs != [] {
      assert cs[0] % (|cs| + 1) == cs[0];
      ReduceOfChoices(cs[1..]);
    }
  }

  /** The first choice says which entry comes to stand in the last slot. */
  lemma LastSlot<T>(s: seq<T>, cs: seq<nat>)
    requires cs != [] && |cs| < |s| && Choices(cs)
    ensures FisherYates(s, cs)[|cs|] == s[cs[0]]
  {
    BeyondUnchanged(Swap(s, |cs|, cs[0]), cs[1..], |cs|);
  }

  /** In round `k` the slot to be filled is chosen itself. */
  predicate Stays(cs: seq<nat>, k: nat)
    requires k < |cs|
  {
    cs[k] == |cs| - k
  }

  lemma {:induction false} NothingMoves<T>(s: seq<T>, cs: seq<nat>)
    requires |cs| < |s| && Choices(cs)
    requires forall k :: 0 <= k < |cs| ==> Stays(cs, k)
    ensures FisherYates(s, cs) == s
    decreases |cs|
  {
    if cs != [] {
      assert Stays(cs, 0);
      assert Swap(s, |cs|, cs[0]) == s;
      forall k | 0 <= k < |cs[1..]|
        ensures Stays(cs[1..], k)
      {
        assert Stays(cs, k + 1);
      }
      NothingMoves(s, cs[1..]);
    }
  }

  /** A round exchanges two entries and touches no other: if every round but round `m` chooses the slot it fills, the
      run exchanges the slot of round `m` and the one chosen for it. */
  lemma {:induction false} OneExchange<T>(s: seq<T>, cs: seq<nat>, m: nat)
    requires m < |cs| < |s| && Choices(cs)
    requires forall k :: 0 <= k < |cs| && k != m ==> Stays(cs, k)
    ensures forall i :: 0 <= i < |s| ==>
      FisherYates(s, cs)[i] == if i == |cs| - m then s[cs[m]] else if i == cs[m] then s[|cs| - m] else s[i]
    decreases |cs|
  {
    var rest := cs[1..];
    forall k | 0 <= k < |rest| && k + 1 != m
      ensures Stays(rest, k)
    {
      assert Stays(cs, k + 1);
    }
    if m == 0 {
      NothingMoves(Swap(s, |cs|, cs[0]), rest);
    } else {
      assert Stays(cs, 0);
      assert Swap(s, |cs|, cs[0]) == s;
      OneExchange(s, rest, m - 1);
    }
  }

  // ---- Every run permutes ----

  lemma SwapPermutes<T>(s: seq<T>, i: nat, j: nat)
    requires i < |s| && j < |s|
    ensures multiset(Swap(s, i, j)) == multiset(s)
  {
  }

  lemma {:induction false} RunPermutes<T>(s: seq<T>, cs: seq<nat>)
    requires |cs| < |s| && Choices(cs)
    ensures multiset(FisherYates(s, cs)) == multiset(s)
    decreases |cs|
  {
    if cs != [] {
      SwapPermutes(s, |cs|, cs[0]);
      RunPermutes(Swap(s, |cs|, cs[0]), cs[1..]);
    }
  }

  lemma SwapDistinct<T(!new)>(s: seq<T>, i: nat, j: nat)
    requires i < |s| && j < |s| && Distinct(s)
    ensures Distinct(Swap(s, i, j))
  {
  }

  lemma {:induction false} RunDistinct<T(!new)>(s: seq<T>, cs: seq<nat>)
    requires |cs| < |s| && Choices(cs) && Distinct(s)
    ensures Distinct(FisherYates(s, cs))
    decreases |cs|
  {
    if cs != [] {
      SwapDistinct(s, |cs|, cs[0]);
      RunDistinct(Swap(s, |cs|, cs[0]), cs[1..]);
    }
  }

  /** A run leaves alone what lies beyond its part of the array. */
  lemma {:induction false} BeyondUnchanged<T>(s: seq<T>, cs: seq<nat>, k: nat)
    requires |cs| < k < |s| && Choices(cs)
    ensures FisherYates(s, cs)[k] == s[k]
    decreases |cs|
  {
    if cs != [] {
      BeyondUnchanged(Swap(s, |cs|, cs[0]), cs[1..], k);
    }
  }

  // ---- The choices can be read off the result ----

  function IndexOf<T(==)>(s: seq<T>, x: T): (i: nat)
    requires x in s
    ensures i < |s| && s[i] == x
  {
    if s[0] == x then 0 else 1 + IndexOf(s[1..], x)
  }

  /** The choices that turn the first `m + 1` entries of `s` into those of `t`. */
  function Unshuffle<T(==)>(s: seq<T>, t: seq<T>, m: nat): (cs: seq<nat>)
    requires m < |s| == |t|
    ensures |cs| == m
    decreases m
  {
    if m == 0 then []
    else
      var j := if t[m] in s[..m + 1] then IndexOf(s[..m + 1], t[m]) else 0;
      [j] + Unshuffle(Swap(s, m, j), t, m - 1)
  }

  lemma {:induction false} UnshuffleIsChoices<T>(s: seq<T>, t: seq<T>, m: nat)
    requires m < |s| == |t|
    ensures Choices(Unshuffle(s, t, m))
    decreases m
  {
    if m > 0 {
      var cs := Unshuffle(s, t, m);
      UnshuffleIsChoices(Swap(s, m, cs[0]), t, m - 1);
    }
  }

  lemma PrefixPermutes<T>(s: seq<T>, t: seq<T>, m: nat)
    requires m <= |s| == |t| && multiset(s) == multiset(t)
    requires s[m..] == t[m..]
    ensures multiset(s[..m]) == multiset(t[..m])
  {
    assert s == s[..m] + s[m..] && t == t[..m] + t[m..];
    assert multiset(s[..m]) == multiset(s) - multiset(s[m..]);
    assert multiset(t[..m]) == multiset(t) - multiset(t[m..]);
  }

  lemma NextIsAtHand<T>(s: seq<T>, t: seq<T>, m: nat)
    requires m < |s| == |t| && multiset(s) == multiset(t)
    requires s[m + 1..] == t[m + 1..]
    ensures t[m] in s[..m + 1]
  {
    PrefixPermutes(s, t, m + 1);
    assert t[m] in t[..m + 1] && t[m] in multiset(t[..m + 1]);
  }

  lemma SwapSettles<T>(s: seq<T>, t: seq<T>, m: nat, j: nat)
    requires j <= m < |s| == |t| && s[j] == t[m]
    requires s[m + 1..] == t[m + 1..]
    ensures Swap(s, m, j)[m..] == t[m..]
  {
    var s' := Swap(s, m, j);
    assert s'[m..] == [s'[m]] + s[m + 1..] && t[m..] == [t[m]] + t[m + 1..];
  }

  lemma UnshuffleStep<T>(s: seq<T>, t: seq<T>, m: nat, j: nat)
    requires 0 < m < |s| == |t|
    requires t[m] in s[..m + 1] && j == IndexOf(s[..m + 1], t[m])
    requires Choices(Unshuffle(s, t, m)) && Choices(Unshuffle(Swap(s, m, j), t, m - 1))
    ensures FisherYates(s, Unshuffle(s, t, m)) == FisherYates(Swap(s, m, j), Unshuffle(Swap(s, m, j), t, m - 1))
  {
    assert Unshuffle(s, t, m)[1..] == Unshuffle(Swap(s, m, j), t, m - 1);
  }

  /** Every permutation is the result of a run. */
  lemma {:induction false} EveryPermutationReached<T>(s: seq<T>, t: seq<T>, m: nat)
    requires m < |s| == |t| && multiset(s) == multiset(t)
    requires s[m + 1..] == t[m + 1..]
    ensures Choices(Unshuffle(s, t, m)) && FisherYates(s, Unshuffle(s, t, m)) == t
    decreases m
  {
    UnshuffleIsChoices(s, t, m);
    NextIsAtHand(s, t, m);
    if m == 0 {
      assert s == [s[0]] + s[1..] && t == [t[0]] + t[1..];
    } else {
      hide Swap, FisherYates, Unshuffle, Choices;
      var j := IndexOf(s[..m + 1], t[m]);
      assert s[..m + 1][j] == s[j];
      SwapPermutes(s, m, j);
      SwapSettles(s, t, m, j);
      EveryPermutationReached(Swap(s, m, j), t, m - 1);
      UnshuffleStep(s, t, m, j);
    }
  }

  /** And of only one: with distinct entries the choices are recovered from the result. */
  lemma {:induction false} ChoicesRecovered<T(!new)>(s: seq<T>, cs: seq<nat>)
    requires |cs| < |s| && Choices(cs) && Distinct(s)
    ensures Unshuffle(s, FisherYates(s, cs), |cs|) == cs
    decreases |cs|
  {
    if cs != [] {
      var m := |cs|;
      var s' := Swap(s, m, cs[0]);
      var t := FisherYates(s, cs);
      SwapDistinct(s, m, cs[0]);
      BeyondUnchanged(s', cs[1..], m);
      assert t[m] == s[cs[0]] == s[..m + 1][cs[0]];
      assert IndexOf(s[..m + 1], t[m]) == cs[0];
      ChoicesRecovered(s', cs[1..]);
    }
  }

  ghost predicate Permutation<T>(t: seq<T>, s: seq<T>) {
    multiset(t) == multiset(s)
  }

  /** The choices of one run over all of `s`. */
  predicate RunOver<T>(s: seq<T>, cs: seq<nat>) {
    |cs| + 1 == |s| && Choices(cs)
  }

  /** The shuffle is a bijection between the choice sequences and the permutations of distinct entries. */
  lemma ShuffleIsBijection<T(!new)>(s: seq<T>)
    requires s != [] && Distinct(s)
    ensures forall cs :: RunOver(s, cs) ==> Permutation(FisherYates(s, cs), s)
    ensures forall cs, ds :: RunOver(s, cs) && RunOver(s, ds) && FisherYates(s, cs) == FisherYates(s, ds) ==> cs == ds
    ensures forall t :: Permutation(t, s) ==> exists cs :: RunOver(s, cs) && FisherYates(s, cs) == t
  {
    forall cs | RunOver(s, cs)
      ensures Permutation(FisherYates(s, cs), s)
    {
      RunPermutes(s, cs);
    }
    forall cs, ds | RunOver(s, cs) && RunOver(s, ds) && FisherYates(s, cs) == FisherYates(s, ds)
      ensures cs == ds
    {
      ChoicesRecovered(s, cs);
      ChoicesRecovered(s, ds);
    }
    forall t | Permutation(t, s)
      ensures exists cs :: RunOver(s, cs) && FisherYates(s, cs) == t
    {
      assert |multiset(t)| == |t| && |multiset(s)| == |s|;
      EveryPermutationReached(s, t, |s| - 1);
      assert RunOver(s, Unshuffle(s, t, |s| - 1));
    }
  }

  /** The same in terms of random numbers: every permutation of `s` is what some of them give. */
  lemma EveryPermutationDrawn<T>(s: seq<T>, t: seq<T>) returns (rand: seq<nat>)
    requires s != [] && Permutation(t, s)
    ensures |rand| == |s| - 1 && FisherYates(s, Reduce(rand)) == t
  {
    assert |multiset(t)| == |t| && |multiset(s)| == |s|;
    EveryPermutationReached(s, t, |s| - 1);
    rand := Unshuffle(s, t, |s| - 1);
    ReduceOfChoices(rand);
  }
}
