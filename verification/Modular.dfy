/** Remainders by a variable modulus, kept apart from the solver's own `%`. */
module Modular {
  /** `x % n`, by `WrapIsMod`. */
  function Wrap(x: nat, n: nat): (r: nat)
    requires n > 0
    ensures r < n
    decreases x
  {
    if x < n then x else Wrap(x - n, n)
  }

  lemma ModUnique(x: nat, n: nat, q: nat, r: nat)
    requires r < n && x == q * n + r
    ensures x % n == r
  {
    var q', r' := x / n, x % n;
    assert x == q' * n + r';
    assert (q - q') * n == r' - r && (q' - q) * n == r - r';
    if q > q' {
      MulAtLeast(q - q', n);
    } else if q < q' {
      MulAtLeast(q' - q, n);
    }
  }

  lemma MulAtLeast(k: nat, n: nat)
    requires k >= 1
    ensures k * n >= n
  {
    assert k * n == n + (k - 1) * n;
  }

  lemma {:induction false} WrapQuotient(x: nat, n: nat) returns (q: nat)
    requires n > 0
    ensures x == q * n + Wrap(x, n)
    decreases x
  {
    if x < n {
      q := 0;
    } else {
      var q' := WrapQuotient(x - n, n);
      q := q' + 1;
      assert q * n == q' * n + n;
    }
  }

  lemma WrapIsMod(x: nat, n: nat)
    requires n > 0
    ensures Wrap(x, n) == x % n
  {
    var q := WrapQuotient(x, n);
    ModUnique(x, n, q, Wrap(x, n));
  }

  lemma {:induction false} WrapPlus(x: nat, y: nat, n: nat)
    requires n > 0
    ensures Wrap(Wrap(x, n) + y, n) == Wrap(x + y, n)
    decreases x
  {
    if x >= n {
      WrapPlus(x - n, y, n);
    }
  }

  /** A window of `n` consecutive numbers has `n` different remainders. */
  lemma {:induction false} WrapInjective(x: nat, y: nat, n: nat)
    requires x <= y < x + n
    ensures Wrap(x, n) == Wrap(y, n) ==> x == y
    decreases x
  {
    if x >= n {
      WrapInjective(x - n, y - n, n);
    } else if y >= n {
      assert Wrap(y, n) == Wrap(y - n, n) == y - n;
    }
  }

  /** A window of `n` consecutive numbers meets every remainder. */
  lemma WrapSurjective(x: nat, v: nat, n: nat) returns (k: nat)
    requires v < n
    ensures k < n && Wrap(x + k, n) == v
  {
    var r := Wrap(x, n);
    k := if v >= r then v - r else v + n - r;
    WrapPlus(x, k, n);
  }

  const UINT64: nat := 0x1_0000_0000_0000_0000

  /** The value that a `uint64_t` keeps of `x`. */
  function Uint64(x: int): (r: nat)
    ensures r < UINT64
  {
    x % UINT64
  }

  lemma Uint64Exact(x: nat)
    requires x < UINT64
    ensures Uint64(x) == x
  {
  }

  lemma Uint64IsMod(x: int)
    ensures Uint64(x) == x % 0x1_0000_0000_0000_0000
  {
  }

  lemma Uint64Sum(x: int, y: int)
    ensures Uint64(Uint64(x) + y) == Uint64(x + y)
  {
  }

  lemma Uint64Mul(x: nat, y: nat)
    ensures Uint64(Uint64(x) * y) == Uint64(x * y)
  {
    var q := x / UINT64;
    Distributed(UINT64, q, Uint64(x), y);
    DropMultiple(q * y, Uint64(x) * y);
  }

  lemma Distributed(n: nat, q: nat, r: nat, y: nat)
    ensures (n * q + r) * y == n * (q * y) + r * y
  {
  }

  lemma DropMultiple(k: nat, x: nat)
    ensures Uint64(UINT64 * k + x) == Uint64(x)
  {
  }

  lemma ByteExact(n: nat)
    requires n < 0x100
    ensures (n as bv8) as nat == n
  {
    // one case for each value of the three leading bits
    if n < 0x20 {} else if n < 0x40 {} else if n < 0x60 {} else if n < 0x80 {}
    else if n < 0xa0 {} else if n < 0xc0 {} else if n < 0xe0 {}
  }
}
