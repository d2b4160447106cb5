/** The dependent integer loop in its two versions: C on 64-bit unsigned integers (benchmark/src/cpu.c) and Python on
    unbounded integers with masks (benchmark/src/python_runner.c). */
module IntegerLoop {
  import opened Bits
  import opened Modular

  const MASK: nat := 0xFFFF_FFFF_FFFF_FFFF

  datatype Quad = Quad(a: nat, b: nat, c: nat, d: nat)

  predicate Fits(q: Quad) {
    q.a < UINT64 && q.b < UINT64 && q.c < UINT64 && q.d < UINT64
  }

  /** One iteration in C: shifts to the left, products and sums wrap around.  The first half mixes the words, the second
      changes each by itself. */
  function CStep(q: Quad): Quad {
    Scale(Mix(q))
  }

  function Mix(q: Quad): Quad {
    var a := Xor(q.a, Uint64(q.b * 0x2000));
    var b := Xor(q.b, q.c / 0x80);
    var c := Xor(q.c, Uint64(q.d * 0x2_0000));
    Quad(a, b, c, Xor(q.d, a))
  }

  function Scale(q: Quad): Quad {
    Quad(Uint64(q.a * 6364136223846793005),
         Uint64(q.b + 1442695040888963407),
         Xor(q.c, q.c / 0x2_0000_0000),
         Uint64(q.d * 2685821657736338717))
  }

  /** One iteration in Python: nothing wraps, some results are masked. */
  function PythonStep(q: Quad): Quad {
    var a := Xor(q.a, And(q.b * 0x2000, MASK));
    var b := Xor(q.b, And(q.c / 0x80, MASK));
    var c := Xor(q.c, And(q.d * 0x2_0000, MASK));
    var d := Xor(q.d, And(a, MASK));
    Quad(And(a * 6364136223846793005, MASK),
         And(b + 1442695040888963407, MASK),
         Xor(c, And(c / 0x2_0000_0000, MASK)),
         And(d * 2685821657736338717, MASK))
  }

  function CIterate(q: Quad, n: nat): Quad {
    if n == 0 then q else CStep(CIterate(q, n - 1))
  }

  function PythonIterate(q: Quad, n: nat): Quad {
    if n == 0 then q else PythonStep(PythonIterate(q, n - 1))
  }

  lemma MaskIsWrap(x: nat)
    ensures And(x, MASK) == Uint64(x)
  {
    hide And, Pow2;
    Pow2Of64();
    AndMask(x, 64);
  }

  lemma XorFits(x: nat, y: nat)
    requires x < UINT64 && y < UINT64
    ensures Xor(x, y) < UINT64
  {
    hide Xor, Pow2;
    Pow2Of64();
    XorBound(x, y, 64);
  }

  /** The two loop bodies compute the same function of 64-bit values, and stay among them. */
  lemma SameStep(q: Quad)
    requires Fits(q)
    ensures PythonStep(q) == CStep(q) && Fits(CStep(q))
  {
    hide And, Xor;
    var a := Xor(q.a, Uint64(q.b * 0x2000));
    var b := Xor(q.b, q.c / 0x80);
    var c := Xor(q.c, Uint64(q.d * 0x2_0000));
    var d := Xor(q.d, a);
    XorFits(q.a, Uint64(q.b * 0x2000));
    XorFits(q.b, q.c / 0x80);
    XorFits(q.c, Uint64(q.d * 0x2_0000));
    XorFits(q.d, a);
    XorFits(c, c / 0x2_0000_0000);
    MaskIsWrap(q.b * 0x2000);
    MaskIsWrap(q.c / 0x80);
    MaskIsWrap(q.d * 0x2_0000);
    MaskIsWrap(a);
    MaskIsWrap(a * 6364136223846793005);
    MaskIsWrap(b + 1442695040888963407);
    MaskIsWrap(c / 0x2_0000_0000);
    MaskIsWrap(d * 2685821657736338717);
  }

  /** Any number of iterations from a common start below 2^64. */
  lemma {:induction false} SameLoop(q: Quad, n: nat)
    requires Fits(q)
    ensures PythonIterate(q, n) == CIterate(q, n) && Fits(CIterate(q, n))
  {
    hide CStep, PythonStep;
    if n > 0 {
      SameLoop(q, n - 1);
      SameStep(CIterate(q, n - 1));
    }
  }

  /** The C loop: `batches` batches of 100000 iterations. */
  method CpuLatency(start: Quad, batches: nat) returns (q: Quad, iters: nat)
    requires Fits(start)
    ensures Fits(q) && q == CIterate(start, 100000 * batches)
    ensures iters == Uint64(100000 * batches)
  {
    assert Uint64(0) == 0;
    hide CIterate, Uint64;
    IterateNone(start);
    q, iters := start, 0;
    for k := 0 to batches
      invariant q == CIterate(start, 100000 * k)
      invariant iters == Uint64(100000 * k)
    {
      q := CpuBatch(start, 100000 * k, q);
      Uint64Sum(100000 * k, 100000);
      iters := Uint64(iters + 100000);
    }
    SameLoop(start, 100000 * batches);
  }

  lemma IterateNone(q: Quad)
    ensures CIterate(q, 0) == q && PythonIterate(q, 0) == q
  {
  }

  lemma IterateNext(q: Quad, n: nat)
    ensures CIterate(q, n + 1) == CStep(CIterate(q, n))
    ensures PythonIterate(q, n + 1) == PythonStep(PythonIterate(q, n))
  {
    hide CStep, PythonStep;
  }

  /** The inner loop, after `done` iterations from `start`. */
  method CpuBatch(ghost start: Quad, ghost done: nat, q0: Quad) returns (q: Quad)
    requires q0 == CIterate(start, done)
    ensures q == CIterate(start, done + 100000)
  {
    hide Xor, CIterate, Uint64;
    var a: nat, b: nat, c: nat, d: nat := q0.a, q0.b, q0.c, q0.d;
    for i := 0 to 100000
      invariant Quad(a, b, c, d) == CIterate(start, done + i)
    {
      IterateNext(start, done + i);
      a := Xor(a, Uint64(b * 0x2000));
      b := Xor(b, c / 0x80);
      c := Xor(c, Uint64(d * 0x2_0000));
      d := Xor(d, a);
      a := Uint64(a * 6364136223846793005);
      b := Uint64(b + 1442695040888963407);
      c := Xor(c, c / 0x2_0000_0000);
      d := Uint64(d * 2685821657736338717);
    }
    q := Quad(a, b, c, d);
  }

  /** The Python loop; it ends where the C loop ends. */
  method CpuWork(start: Quad, batches: nat) returns (q: Quad, iters: nat)
    requires Fits(start)
    ensures q == PythonIterate(start, 100000 * batches) == CIterate(start, 100000 * batches)
    ensures iters == 100000 * batches
  {
    hide And, Xor, CStep, CIterate, Uint64;
    var a: nat, b: nat, c: nat, d: nat := start.a, start.b, start.c, start.d;
    iters := 0;
    ghost var n := 0;
    for k := 0 to batches
      invariant n == iters == 100000 * k
      invariant Quad(a, b, c, d) == PythonIterate(start, n)
    {
      for i := 0 to 100000
        invariant n == 100000 * k + i
        invariant Quad(a, b, c, d) == PythonIterate(start, n)
      {
        a := Xor(a, And(b * 0x2000, MASK));
        b := Xor(b, And(c / 0x80, MASK));
        c := Xor(c, And(d * 0x2_0000, MASK));
        d := Xor(d, And(a, MASK));
        a := And(a * 6364136223846793005, MASK);
        b := And(b + 1442695040888963407, MASK);
        c := Xor(c, And(c / 0x2_0000_0000, MASK));
        d := And(d * 2685821657736338717, MASK);
        n := n + 1;
      }
      iters := iters + 100000;
    }
    q := Quad(a, b, c, d);
    SameLoop(start, n);
  }
}
