/** What one iteration of the integer loop does, digit by digit, and that it loses nothing: no two states are ever
    merged. */
module IntegerStep {
  import opened Bits
  import opened IntegerLoop
  import opened Modular

  // ---- Digits ----

  lemma Powers()
    ensures Pow2(7) == 0x80 && Pow2(13) == 0x2000 && Pow2(17) == 0x2_0000 && Pow2(33) == 0x2_0000_0000
  {
    Pow2Plus8(9);
    Pow2Plus8(17);
    Pow2Plus8(25);
  }

  lemma WrappedBit(x: nat, i: nat)
    ensures Bit(Uint64(x), i) == (i < 64 && Bit(x, i))
  {
    hide Bit, Pow2, Wrap;
    Pow2Of64();
    WrapIsMod(x, Pow2(64));
    WrapBit(x, 64, i);
  }

  lemma ShiftedLeft(x: nat, k: nat, f: nat, i: nat)
    requires f == Pow2(k) && i < 64
    ensures Bit(Uint64(x * f), i) == (i >= k && Bit(x, i - k))
  {
    hide Bit, Pow2, Uint64;
    WrappedBit(x * f, i);
    ShiftLeftBit(x, k, i);
  }

  lemma ShiftedRight(x: nat, k: nat, f: nat, i: nat, q: nat)
    requires f == Pow2(k) && q * f <= x < q * f + f
    ensures Bit(q, i) == Bit(x, i + k)
  {
    hide Bit, Pow2;
    ShiftRightBit(q, x - q * f, k, i);
  }

  /** The shift distances and the xors of the first half. */
  lemma MixBits(q: Quad, i: nat)
    requires i < 64
    ensures Bit(Mix(q).a, i) == (Bit(q.a, i) != (i >= 13 && Bit(q.b, i - 13)))
    ensures Bit(Mix(q).b, i) == (Bit(q.b, i) != Bit(q.c, i + 7))
    ensures Bit(Mix(q).c, i) == (Bit(q.c, i) != (i >= 17 && Bit(q.d, i - 17)))
    ensures Bit(Mix(q).d, i) == (Bit(q.d, i) != Bit(Mix(q).a, i))
  {
    hide Bit, Pow2, Uint64, Xor;
    Powers();
    XorBit(q.a, Uint64(q.b * 0x2000), i);
    ShiftedLeft(q.b, 13, 0x2000, i);
    XorBit(q.b, q.c / 0x80, i);
    ShiftedRight(q.c, 7, 0x80, i, q.c / 0x80);
    XorBit(q.c, Uint64(q.d * 0x2_0000), i);
    ShiftedLeft(q.d, 17, 0x2_0000, i);
    XorBit(q.d, Mix(q).a, i);
  }

  /** The constants and the last shift. */
  lemma ScaleValues(q: Quad, i: nat)
    ensures Scale(q).a == q.a * 6364136223846793005 % 0x1_0000_0000_0000_0000
    ensures Scale(q).b == (q.b + 1442695040888963407) % 0x1_0000_0000_0000_0000
    ensures Bit(Scale(q).c, i) == (Bit(q.c, i) != Bit(q.c, i + 33))
    ensures Scale(q).d == q.d * 2685821657736338717 % 0x1_0000_0000_0000_0000
  {
    hide Bit, Pow2, Xor;
    Powers();
    XorBit(q.c, q.c / 0x2_0000_0000, i);
    ShiftedRight(q.c, 33, 0x2_0000_0000, i, q.c / 0x2_0000_0000);
  }

  // ---- The way back ----

  /** Multiplying by an odd constant is undone by multiplying by its inverse modulo 2^64. */
  lemma Unmultiply(x: nat, m: nat, inverse: nat)
    requires x < UINT64 && Uint64(m * inverse) == 1
    ensures Uint64(Uint64(x * m) * inverse) == x
  {
    hide Uint64;
    Uint64Mul(x * m, inverse);
    Uint64Mul(m * inverse, x);
    assert x * m * inverse == m * inverse * x;
    Uint64Exact(x);
    assert 1 * x == x;
  }

  function Halved(x: nat, k: nat): nat
    decreases k
  {
    if k == 0 then x else Halved(x / 2, k - 1)
  }

  lemma {:induction false} XorHalved(x: nat, y: nat, k: nat)
    ensures Halved(Xor(x, y), k) == Xor(Halved(x, k), Halved(y, k))
    decreases k
  {
    if k > 0 {
      XorHalf(x, y);
      XorHalved(x / 2, y / 2, k - 1);
    }
  }

  lemma Doubled(q: nat, m: nat, r: nat)
    ensures (q * (2 * m) + r) / 2 == q * m + r / 2
  {
    assert q * (2 * m) == 2 * (q * m);
  }

  lemma {:induction false} HalvedIs(q: nat, r: nat, k: nat)
    requires r < Pow2(k)
    ensures Halved(q * Pow2(k) + r, k) == q
    decreases k
  {
    if k > 0 {
      var m := Pow2(k - 1);
      Doubled(q, m, r);
      assert q * Pow2(k) == q * (2 * m);
      HalvedIs(q, r / 2, k - 1);
    }
  }

  lemma Shift33(x: nat)
    ensures Halved(x, 33) == x / 0x2_0000_0000
  {
    hide Halved, Pow2;
    Powers();
    HalvedIs(x / 0x2_0000_0000, x % 0x2_0000_0000, 33);
  }

  /** Changing a 64-bit number by `x ^= x >> 33` twice restores it, because nothing is left after two such shifts. */
  lemma ShiftTwice(x: nat)
    requires x < UINT64
    ensures var y := Xor(x, x / 0x2_0000_0000); Xor(y, y / 0x2_0000_0000) == x
  {
    hide Xor, Halved;
    var h := x / 0x2_0000_0000;
    XorHalved(x, h, 33);
    Shift33(x);
    Shift33(h);
    Shift33(Xor(x, h));
    assert h / 0x2_0000_0000 == 0;
    XorZero(h);
    XorTwice(x, h);
  }

  lemma {:induction false} XorZero(x: nat)
    ensures Xor(x, 0) == x
  {
    if x > 0 {
      XorZero(x / 2);
    }
  }

  /** The state before the second half. */
  function Unscale(q: Quad): Quad {
    Quad(Uint64(q.a * 13877824140714322085),
         Uint64(q.b + (UINT64 - 1442695040888963407)),
         Xor(q.c, q.c / 0x2_0000_0000),
         Uint64(q.d * 6415128727920758069))
  }

  /** The state before the first half. */
  function Unmix(q: Quad): Quad {
    var d := Xor(q.d, q.a);
    var c := Xor(q.c, Uint64(d * 0x2_0000));
    var b := Xor(q.b, c / 0x80);
    Quad(Xor(q.a, Uint64(b * 0x2000)), b, c, d)
  }

  lemma Inverses()
    ensures Uint64(6364136223846793005 * 13877824140714322085) == 1
    ensures Uint64(2685821657736338717 * 6415128727920758069) == 1
  {
  }

  lemma ScaleUndone(q: Quad)
    requires Fits(q)
    ensures Unscale(Scale(q)) == q
  {
    hide Xor;
    Inverses();
    Unmultiply(q.a, 6364136223846793005, 13877824140714322085);
    Unmultiply(q.d, 2685821657736338717, 6415128727920758069);
    ShiftTwice(q.c);
  }

  lemma MixUndone(q: Quad)
    ensures Unmix(Mix(q)) == q
  {
    hide Xor, Uint64;
    XorTwice(q.d, Mix(q).a);
    XorTwice(q.c, Uint64(q.d * 0x2_0000));
    XorTwice(q.b, q.c / 0x80);
    XorTwice(q.a, Uint64(q.b * 0x2000));
  }

  /** One iteration can be undone. */
  lemma StepUndone(q: Quad)
    requires Fits(q)
    ensures Unmix(Unscale(CStep(q))) == q
  {
    hide Mix, Scale, Unmix, Unscale;
    MixFits(q);
    ScaleUndone(Mix(q));
    MixUndone(q);
  }

  lemma MixFits(q: Quad)
    requires Fits(q)
    ensures Fits(Mix(q))
  {
    hide Xor, Uint64;
    XorFits(q.a, Uint64(q.b * 0x2000));
    XorFits(q.b, q.c / 0x80);
    XorFits(q.c, Uint64(q.d * 0x2_0000));
    XorFits(q.d, Mix(q).a);
  }

  /** Different starts never lead to the same state, in C or in Python. */
  lemma {:induction false} StatesNeverMerge(q: Quad, r: Quad, n: nat)
    requires Fits(q) && Fits(r)
    ensures CIterate(q, n) == CIterate(r, n) ==> q == r
    ensures PythonIterate(q, n) == PythonIterate(r, n) ==> q == r
  {
    hide CStep, PythonStep;
    if n > 0 {
      StatesNeverMerge(q, r, n - 1);
      SameLoop(q, n - 1);
      SameLoop(r, n - 1);
      SameLoop(q, n);
      SameLoop(r, n);
      StepUndone(CIterate(q, n - 1));
      StepUndone(CIterate(r, n - 1));
    }
  }
}
