/** The memory-bound benchmark of benchmark/src/cpu.c: an array walk that wraps its index with a mask. */
module MaskWalk {
  import opened Bits
  import opened Modular

  const MULTIPLIER: nat := 6364136223846793005

  /** The accumulator after `k` steps over `s`, wrapped with a remainder. */
  function Accumulated(s: seq<nat>, k: nat): nat
    requires s != []
  {
    if k == 0 then 0
    else Uint64(Uint64(Accumulated(s, k - 1) + s[Wrap(k - 1, |s|)]) * MULTIPLIER)
  }

  lemma MaskStep(k: nat, bits: nat)
    ensures And(Wrap(k, Pow2(bits)) + 1, Pow2(bits) - 1) == Wrap(k + 1, Pow2(bits))
  {
    hide And, Pow2;
    var n := Pow2(bits);
    AndWraps(Wrap(k, n) + 1, bits);
    WrapPlus(k, 1, n);
  }

  lemma WalkStart(s: seq<nat>)
    requires s != []
    ensures Accumulated(s, 0) == 0 && Wrap(0, |s|) == 0
  {
  }

  lemma AccumulatedStep(s: seq<nat>, k: nat)
    requires s != []
    ensures Accumulated(s, k + 1) == Uint64(Uint64(Accumulated(s, k) + s[Wrap(k, |s|)]) * MULTIPLIER)
  {
  }

  /** The array of the benchmark, for any power of two. */
  method FillArray(n: nat) returns (arr: array<nat>)
    ensures fresh(arr) && arr.Length == n
    ensures forall i :: 0 <= i < n ==> arr[i] == (i * 6364136223846793005 + 1) % 0x1_0000_0000_0000_0000
  {
    hide Uint64;
    arr := new nat[n];
    for i := 0 to n
      invariant forall j :: 0 <= j < i ==> arr[j] == (j * 6364136223846793005 + 1) % 0x1_0000_0000_0000_0000
    {
      Uint64IsMod(i * MULTIPLIER + 1);
      Uint64Sum(i * MULTIPLIER, 1);
      arr[i] := Uint64(Uint64(i * MULTIPLIER) + 1);
    }
  }

  /** Step `k` of the walk read the element that a remainder would select. */
  predicate ReadsInOrder(trace: seq<nat>, n: nat)
    requires n > 0
  {
    forall k :: 0 <= k < |trace| ==> trace[k] == Wrap(k, n)
  }

  /** `batches` batches of 10000 steps.  The index runs modulo the array length and the accumulator is that of the
      walk with a remainder; batch boundaries do not show.  `trace` lists the indices read. */
  method Walk(arr: array<nat>, bits: nat, batches: nat)
    returns (acc: nat, idx: nat, iters: nat, ghost trace: seq<nat>)
    requires arr.Length == Pow2(bits)
    ensures idx == Wrap(10000 * batches, arr.Length)
    ensures acc == Accumulated(arr[..], 10000 * batches)
    ensures iters == Uint64(10000 * batches)
    ensures |trace| == 10000 * batches && ReadsInOrder(trace, arr.Length)
  {
    assert Uint64(0) == 0;
    hide And, Pow2, Accumulated, Wrap, Uint64;
    WalkStart(arr[..]);
    acc, idx, iters := 0, 0, 0;
    var mask := arr.Length - 1;
    trace := [];
    for b := 0 to batches
      invariant |trace| == 10000 * b && ReadsInOrder(trace, arr.Length)
      invariant idx == Wrap(10000 * b, arr.Length)
      invariant acc == Accumulated(arr[..], 10000 * b)
      invariant iters == Uint64(10000 * b)
    {
      acc, idx, trace := WalkBatch(arr, bits, acc, idx, mask, trace);
      Uint64Sum(10000 * b, 10000);
      iters := Uint64(iters + 10000);
    }
  }

  /** The inner loop: 10000 steps. */
  method WalkBatch(arr: array<nat>, bits: nat, acc0: nat, idx0: nat, mask: nat, ghost before: seq<nat>)
    returns (acc: nat, idx: nat, ghost trace: seq<nat>)
    requires arr.Length == Pow2(bits) && mask == arr.Length - 1
    requires ReadsInOrder(before, arr.Length)
    requires idx0 == Wrap(|before|, arr.Length) && acc0 == Accumulated(arr[..], |before|)
    ensures |trace| == |before| + 10000 && ReadsInOrder(trace, arr.Length)
    ensures idx == Wrap(|trace|, arr.Length) && acc == Accumulated(arr[..], |trace|)
  {
    hide And, Pow2, Accumulated, Wrap, Uint64;
    acc, idx, trace := acc0, idx0, before;
    for i := 0 to 10000
      invariant |trace| == |before| + i && ReadsInOrder(trace, arr.Length)
      invariant idx == Wrap(|trace|, arr.Length)
      invariant acc == Accumulated(arr[..], |trace|)
    {
      AccumulatedStep(arr[..], |trace|);
      MaskStep(|trace|, bits);
      trace := trace + [idx];
      acc := Uint64(acc + arr[idx]);
      acc := Uint64(acc * MULTIPLIER);
      idx := And(idx + 1, mask);
    }
  }

  /** Any `n` consecutive reads of the walk, from whatever step `t`, read each element `v` exactly once. */
  lemma WindowReadsEachOnce(trace: seq<nat>, n: nat, t: nat, v: nat) returns (k: nat)
    requires n > 0 && ReadsInOrder(trace, n)
    requires t + n <= |trace| && v < n
    ensures t <= k < t + n
    ensures forall j :: t <= j < t + n ==> (trace[j] == v <==> j == k)
  {
    hide Wrap;
    var j0 := WrapSurjective(t, v, n);
    k := t + j0;
    forall j | t <= j < t + n
      ensures trace[j] == v <==> j == k
    {
      if j <= k {
        WrapInjective(j, k, n);
      } else {
        WrapInjective(k, j, n);
      }
    }
  }

  predicate MaskWraps(idx: nat, n: nat)
    requires n > 0
  {
    And(idx + 1, n - 1) == Wrap(idx + 1, n)
  }

  /** The mask does the work of the remainder for powers of two, and for no other length. */
  lemma MaskWrapsIffPowerOfTwo(n: nat)
    requires n >= 1
    ensures (forall idx: nat :: idx < n ==> MaskWraps(idx, n)) <==> PowerOfTwo(n)
  {
    hide And, Pow2;
    if PowerOfTwo(n) {
      var bits: nat :| Pow2(bits) == n;
      forall idx: nat | idx < n
        ensures MaskWraps(idx, n)
      {
        MaskStep(idx, bits);
      }
    } else {
      assert Wrap(n, n) == Wrap(0, n) == 0;
      if MaskWraps(n - 1, n) {
        NoCommonDigit(n);
      }
    }
  }

  // ---- What the accumulator is ----

  function Power(k: nat): nat {
    if k == 0 then 1 else 6364136223846793005 * Power(k - 1)
  }

  /** The elements read in steps `j` to `k - 1`, each times the multiplier as often as there are steps from its own
      on. */
  function WeightedSum(s: seq<nat>, j: nat, k: nat): nat
    requires s != [] && j <= k
    decreases k - j
  {
    if j == k then 0 else s[j % |s|] * Power(k - j) + WeightedSum(s, j + 1, k)
  }

  lemma {:induction false} WeightedSumStep(s: seq<nat>, j: nat, k: nat)
    requires s != [] && j <= k
    ensures WeightedSum(s, j, k + 1) == (WeightedSum(s, j, k) + s[k % |s|]) * 6364136223846793005
    decreases k - j
  {
    if j == k {
      assert Power(1) == 6364136223846793005 * Power(0);
    } else {
      WeightedSumStep(s, j + 1, k);
      var x, w := s[j % |s|], WeightedSum(s, j + 1, k);
      Factored(x, Power(k - j), w, s[k % |s|]);
      assert Power(k + 1 - j) == 6364136223846793005 * Power(k - j);
    }
  }

  lemma Factored(x: nat, p: nat, w: nat, y: nat)
    ensures x * (6364136223846793005 * p) + (w + y) * 6364136223846793005 == (x * p + w + y) * 6364136223846793005
  {
    assert x * (6364136223846793005 * p) == 6364136223846793005 * (x * p);
  }

  lemma StepModulo(w: nat, x: nat)
    ensures Uint64(Uint64(Uint64(w) + x) * MULTIPLIER) == Uint64((w + x) * MULTIPLIER)
  {
    hide Uint64;
    Uint64Sum(w, x);
    Uint64Mul(w + x, MULTIPLIER);
  }

  lemma {:induction false} AccumulatedModulo(s: seq<nat>, k: nat)
    requires s != []
    ensures Accumulated(s, k) == Uint64(WeightedSum(s, 0, k))
  {
    if k == 0 {
      WalkStart(s);
    } else {
      hide Accumulated, WeightedSum, Wrap, Uint64;
      AccumulatedModulo(s, k - 1);
      AccumulatedStep(s, k - 1);
      WrapIsMod(k - 1, |s|);
      WeightedSumStep(s, 0, k - 1);
      StepModulo(WeightedSum(s, 0, k - 1), s[(k - 1) % |s|]);
    }
  }

  /** The accumulator is the weighted sum of everything read, modulo 2^64. */
  lemma AccumulatedIsSum(s: seq<nat>, k: nat)
    requires s != []
    ensures Accumulated(s, k) == WeightedSum(s, 0, k) % 0x1_0000_0000_0000_0000
  {
    AccumulatedModulo(s, k);
  }
}
