/** Bitwise operations on unbounded naturals, by their binary digits. */
module Bits {
  import opened Modular

  function And(x: nat, y: nat): nat
    decreases x
  {
    if x == 0 then 0 else (if x % 2 == 1 && y % 2 == 1 then 1 else 0) + 2 * And(x / 2, y / 2)
  }

  function Xor(x: nat, y: nat): nat
    decreases x + y
  {
    if x == 0 && y == 0 then 0 else (if x % 2 != y % 2 then 1 else 0) + 2 * Xor(x / 2, y / 2)
  }

  function Pow2(k: nat): (p: nat)
    ensures p >= 1
  {
    if k == 0 then 1 else 2 * Pow2(k - 1)
  }

  lemma Pow2Plus8(k: nat)
    ensures Pow2(k + 8) == 0x100 * Pow2(k)
  {
    assert Pow2(k + 2) == 4 * Pow2(k);
    assert Pow2(k + 4) == 4 * Pow2(k + 2);
    assert Pow2(k + 6) == 4 * Pow2(k + 4);
  }

  lemma Pow2Plus32(k: nat)
    ensures Pow2(k + 32) == 0x1_0000_0000 * Pow2(k)
  {
    hide Pow2;
    Pow2Plus8(k);
    Pow2Plus8(k + 8);
    Pow2Plus8(k + 16);
    Pow2Plus8(k + 24);
  }

  lemma Pow2Zero()
    ensures Pow2(0) == 1
  {
  }

  lemma Pow2Of64()
    ensures Pow2(64) == 0x1_0000_0000_0000_0000
  {
    hide Pow2;
    Pow2Zero();
    Pow2Plus32(0);
    Pow2Plus32(32);
  }

  lemma {:induction false} XorBound(x: nat, y: nat, k: nat)
    requires x < Pow2(k) && y < Pow2(k)
    ensures Xor(x, y) < Pow2(k)
    decreases k
  {
    if k > 0 {
      XorBound(x / 2, y / 2, k - 1);
    }
  }

  /** The remainder by an even modulus keeps the last digit. */
  lemma {:induction false} WrapDouble(x: nat, m: nat)
    requires m > 0
    ensures Wrap(x, 2 * m) == x % 2 + 2 * Wrap(x / 2, m)
    decreases x
  {
    if x >= 2 * m {
      WrapDouble(x - 2 * m, m);
      assert (x - 2 * m) / 2 == x / 2 - m;
    }
  }

  lemma {:induction false} AndWraps(x: nat, k: nat)
    ensures And(x, Pow2(k) - 1) == Wrap(x, Pow2(k))
    decreases k
  {
    hide Wrap;
    if k == 0 {
      AndZero(x);
    } else {
      var m := Pow2(k - 1);
      assert (2 * m - 1) % 2 == 1 && (2 * m - 1) / 2 == m - 1;
      AndWraps(x / 2, k - 1);
      WrapDouble(x, m);
    }
  }

  /** Masking with `2^k - 1` is the remainder by `2^k`. */
  lemma AndMask(x: nat, k: nat)
    ensures And(x, Pow2(k) - 1) == x % Pow2(k)
  {
    AndWraps(x, k);
    WrapIsMod(x, Pow2(k));
  }

  lemma {:induction false} AndZero(x: nat)
    ensures And(x, 0) == 0
  {
    if x > 0 {
      AndZero(x / 2);
    }
  }

  lemma {:induction false} AndSelf(x: nat)
    ensures And(x, x) == x
  {
    if x > 0 {
      AndSelf(x / 2);
    }
  }

  ghost predicate PowerOfTwo(n: nat) {
    exists k: nat :: Pow2(k) == n
  }

  /** `n` and `n - 1` share a digit 1 unless `n` is a power of two. */
  lemma {:induction false} NoCommonDigit(n: nat)
    requires n >= 1 && And(n, n - 1) == 0
    ensures PowerOfTwo(n)
  {
    if n == 1 {
      assert Pow2(0) == 1;
    } else if n % 2 == 1 {
      assert (n - 1) / 2 == n / 2;
      AndSelf(n / 2);
    } else {
      assert (n - 1) / 2 == n / 2 - 1;
      NoCommonDigit(n / 2);
      var k: nat :| Pow2(k) == n / 2;
      assert Pow2(k + 1) == n;
    }
  }

  // ---- Single binary digits ----

  predicate Bit(x: nat, i: nat) {
    if i == 0 then x % 2 == 1 else Bit(x / 2, i - 1)
  }

  lemma {:induction false} XorBit(x: nat, y: nat, i: nat)
    ensures Bit(Xor(x, y), i) == (Bit(x, i) != Bit(y, i))
    decreases i
  {
    if i > 0 {
      XorHalf(x, y);
      XorBit(x / 2, y / 2, i - 1);
    }
  }

  lemma XorHalf(x: nat, y: nat)
    ensures Xor(x, y) / 2 == Xor(x / 2, y / 2)
  {
  }

  lemma {:induction false} ShiftLeftBit(x: nat, k: nat, i: nat)
    ensures Bit(x * Pow2(k), i) == (i >= k && Bit(x, i - k))
    decreases k, i
  {
    if k > 0 {
      var y := x * Pow2(k - 1);
      assert x * Pow2(k) == 2 * y;
      if i > 0 {
        ShiftLeftBit(x, k - 1, i - 1);
      }
    }
  }

  /** Digit `i` of the quotient by `2^k` is digit `i + k`. */
  lemma {:induction false} ShiftRightBit(q: nat, r: nat, k: nat, i: nat)
    requires r < Pow2(k)
    ensures Bit(q, i) == Bit(q * Pow2(k) + r, i + k)
    decreases k
  {
    if k > 0 {
      var h := q * Pow2(k - 1);
      assert q * Pow2(k) == 2 * h;
      assert (2 * h + r) / 2 == h + r / 2;
      ShiftRightBit(q, r / 2, k - 1, i);
    }
  }

  lemma {:induction false} WrapBit(x: nat, k: nat, i: nat)
    ensures Bit(Wrap(x, Pow2(k)), i) == (i < k && Bit(x, i))
    decreases k, i
  {
    if k == 0 {
      ZeroBit(i);
    } else {
      WrapDouble(x, Pow2(k - 1));
      if i > 0 {
        WrapBit(x / 2, k - 1, i - 1);
      }
    }
  }

  lemma {:induction false} ZeroBit(i: nat)
    ensures !Bit(0, i)
  {
    if i > 0 {
      ZeroBit(i - 1);
    }
  }

  lemma {:induction false} XorTwice(x: nat, y: nat)
    ensures Xor(Xor(x, y), y) == x
    decreases x + y
  {
    if x != 0 || y != 0 {
      XorHalf(x, y);
      XorTwice(x / 2, y / 2);
    }
  }
}
