/** Where the constants of SHA-256 come from: sections 4.2.2 and 5.3.3 of FIPS 180-4 take them from the first primes. */
module Sha256Constants {
  import opened Modular
  import opened Sha256Spec

  // ---- The first primes ----

  predicate IsPrime(n: nat) {
    n >= 2 && forall d :: 2 <= d < n ==> n % d != 0
  }

  /** The primes up to `n`. */
  function Primes(n: nat): seq<nat> {
    if n == 0 then [] else Primes(n - 1) + (if IsPrime(n) then [n] else [])
  }

  /** They are all there, in increasing order. */
  lemma {:induction false} PrimesAreAll(n: nat)
    ensures forall p: nat :: p in Primes(n) <==> p <= n && IsPrime(p)
    ensures forall i, j :: 0 <= i < j < |Primes(n)| ==> Primes(n)[i] < Primes(n)[j]
  {
    assert !IsPrime(0);
    hide IsPrime;
    if n > 0 {
      PrimesAreAll(n - 1);
      var ps := Primes(n - 1);
      assert forall i :: 0 <= i < |ps| ==> ps[i] in ps;
    }
  }

  lemma ProductAtLeast(d: nat, e: nat, k: nat)
    requires d >= k && e >= k
    ensures d * e >= k * k
  {
    assert d * e == k * e + (d - k) * e;
    assert k * e == k * k + k * (e - k);
  }

  lemma Cofactor(d: nat, e: nat)
    requires 2 <= d < d * e
    ensures 2 <= e < d * e && (d * e) % e == 0
  {
    assert d * e == 2 * e + (d - 2) * e;
    ModUnique(d * e, e, d, 0);
  }

  /** Of two factors of a number below `k * k` one is below `k`. */
  lemma SmallFactor(d: nat, e: nat, k: nat)
    requires 2 <= d < d * e < k * k
    ensures d < k || (2 <= e < d * e && e < k && (d * e) % e == 0)
  {
    Cofactor(d, e);
    if d >= k && e >= k {
      ProductAtLeast(d, e, k);
    }
  }

  lemma Quotient(n: nat, d: nat) returns (e: nat)
    requires d > 0 && n % d == 0
    ensures n == d * e
  {
    e := n / d;
  }

  /** A number below `k * k` that is not prime has a divisor below `k`. */
  lemma SmallDivisor(n: nat, k: nat) returns (d: nat)
    requires 2 <= n < k * k && !IsPrime(n)
    ensures 2 <= d < n && d < k && n % d == 0
  {
    d :| 2 <= d < n && n % d == 0;
    hide IsPrime;
    var e := Quotient(n, d);
    SmallFactor(d, e, k);
    if d >= k {
      d := e;
    }
  }

  lemma DividesTransitive(a: nat, d: nat, n: nat)
    requires a >= 1 && d >= 1 && d % a == 0 && n % d == 0
    ensures n % a == 0
  {
    var q, r := n / d, d / a;
    assert n == q * d && d == r * a;
    assert q * (r * a) == (q * r) * a;
    ModUnique(n, a, q * r, 0);
  }

  /** `n` is at least 2, and none of the primes below 19 divides it, itself aside. */
  predicate PassesTrial(n: nat) {
    && n >= 2
    && (n % 2 != 0 || n == 2) && (n % 3 != 0 || n == 3) && (n % 5 != 0 || n == 5) && (n % 7 != 0 || n == 7)
    && (n % 11 != 0 || n == 11) && (n % 13 != 0 || n == 13) && (n % 17 != 0 || n == 17)
  }

  lemma FailsWithDivisor(n: nat, d: nat)
    requires 2 <= d < 19 && d < n && n % d == 0
    ensures !PassesTrial(n)
  {
    if d % 2 == 0 {
      DividesTransitive(2, d, n);
    } else if d % 3 == 0 {
      DividesTransitive(3, d, n);
    } else {
      assert d == 5 || d == 7 || d == 11 || d == 13 || d == 17;
    }
  }

  lemma PrimePasses(n: nat)
    requires IsPrime(n)
    ensures PassesTrial(n)
  {
  }

  lemma TrialDivision(n: nat)
    requires n < 19 * 19
    ensures IsPrime(n) <==> PassesTrial(n)
  {
    assert IsPrime(n) ==> n >= 2;
    hide IsPrime, PassesTrial;
    if IsPrime(n) {
      PrimePasses(n);
    } else if n >= 2 {
      var d := SmallDivisor(n, 19);
      FailsWithDivisor(n, d);
    }
  }

  /** Above `p` and up to `n` no number passes. */
  predicate AllFail(p: nat, n: nat)
    decreases n
  {
    if n <= p then true else if PassesTrial(n) then false else AllFail(p, n - 1)
  }

  /** By trial division, `q` is the first prime after `p`. */
  predicate NextPrime(p: nat, q: nat) {
    p < q < 19 * 19 && PassesTrial(q) && AllFail(p, q - 1)
  }

  lemma {:induction false} NoneBetween(p: nat, n: nat)
    requires p <= n < 19 * 19 && AllFail(p, n)
    ensures Primes(n) == Primes(p)
    decreases n
  {
    hide IsPrime, PassesTrial;
    if p < n {
      NoneBetween(p, n - 1);
      TrialDivision(n);
    }
  }

  lemma PrimesExtended(p: nat, q: nat)
    requires NextPrime(p, q)
    ensures Primes(q) == Primes(p) + [q]
  {
    hide IsPrime, PassesTrial;
    NoneBetween(p, q - 1);
    TrialDivision(q);
  }

  // ---- The tables ----

  /** The first 64 primes, four to a row. */
  const PRIMES: seq<seq<nat>> := [
    [2, 3, 5, 7], [11, 13, 17, 19], [23, 29, 31, 37], [41, 43, 47, 53],
    [59, 61, 67, 71], [73, 79, 83, 89], [97, 101, 103, 107], [109, 113, 127, 131],
    [137, 139, 149, 151], [157, 163, 167, 173], [179, 181, 191, 193], [197, 199, 211, 223],
    [227, 229, 233, 239], [241, 251, 257, 263], [269, 271, 277, 281], [283, 293, 307, 311]
  ]

  function CubeRoot(p: nat): (r: nat)
    requires 1 <= p < 343
    ensures r * r * r <= p < (r + 1) * (r + 1) * (r + 1)
  {
    if p < 8 then 1 else if p < 27 then 2 else if p < 64 then 3 else if p < 125 then 4 else if p < 216 then 5 else 6
  }

  /** `bits` are the first 32 bits of the fractional part of the cube root of `p`. */
  predicate CubeRootBits(bits: nat, p: nat) {
    && 1 <= p < 343
    && bits < 0x1_0000_0000
    && var x := CubeRoot(p) * 0x1_0000_0000 + bits;
       x * x * x <= p * 0x1_0000_0000_0000_0000_0000_0000 < (x + 1) * (x + 1) * (x + 1)
  }

  function Listed(t: nat): nat
    requires t < 64
  {
    PRIMES[t / 4][t % 4]
  }

  lemma FirstColumn()
    ensures NextPrime(0, PRIMES[0][0])
    ensures forall r :: 0 < r < 16 ==> NextPrime(PRIMES[r - 1][3], PRIMES[r][0])
  {
  }

  lemma SecondColumn()
    ensures forall r :: 0 <= r < 16 ==> NextPrime(PRIMES[r][0], PRIMES[r][1])
  {
  }

  lemma ThirdColumn()
    ensures forall r :: 0 <= r < 16 ==> NextPrime(PRIMES[r][1], PRIMES[r][2])
  {
  }

  lemma FourthColumn()
    ensures forall r :: 0 <= r < 16 ==> NextPrime(PRIMES[r][2], PRIMES[r][3])
  {
  }

  lemma NextListed(t: nat)
    requires t < 64
    ensures NextPrime(if t == 0 then 0 else Listed(t - 1), Listed(t))
  {
    hide NextPrime;
    match t % 4
    case 0 => FirstColumn();
    case 1 => SecondColumn();
    case 2 => ThirdColumn();
    case _ => FourthColumn();
  }

  /** Entry `t` is the last of the first `t + 1` primes. */
  lemma {:induction false} ListedCount(t: nat)
    requires t < 64
    ensures |Primes(Listed(t))| == t + 1 && Primes(Listed(t))[t] == Listed(t)
    ensures t > 0 ==> Primes(Listed(t - 1)) <= Primes(Listed(t))
  {
    hide Listed, NextPrime;
    NextListed(t);
    PrimesExtended(if t == 0 then 0 else Listed(t - 1), Listed(t));
    if t > 0 {
      ListedCount(t - 1);
    }
  }

  lemma {:induction false} ListedPrefix(t: nat, u: nat)
    requires t <= u < 64
    ensures Primes(Listed(t)) <= Primes(Listed(u))
    decreases u
  {
    hide Listed, Primes;
    if t < u {
      ListedPrefix(t, u - 1);
      ListedCount(u);
    }
  }

  /** The table lists the 64 primes up to 311. */
  lemma FirstPrimes(t: nat)
    requires t < 64
    ensures |Primes(311)| == 64 && Primes(311)[t] == Listed(t)
  {
    assert Listed(63) == 311;
    hide Listed, Primes;
    ListedCount(63);
    ListedCount(t);
    ListedPrefix(t, 63);
  }

  // ---- The roots ----

  lemma FirstQuarter()
    ensures forall r, i :: 0 <= r < 4 && 0 <= i < 4 ==> CubeRootBits(K[r][i] as nat, PRIMES[r][i])
  {
  }

  lemma SecondQuarter()
    ensures forall r, i :: 4 <= r < 8 && 0 <= i < 4 ==> CubeRootBits(K[r][i] as nat, PRIMES[r][i])
  {
  }

  lemma ThirdQuarter()
    ensures forall r, i :: 8 <= r < 12 && 0 <= i < 4 ==> CubeRootBits(K[r][i] as nat, PRIMES[r][i])
  {
  }

  lemma FourthQuarter()
    ensures forall r, i :: 12 <= r < 16 && 0 <= i < 4 ==> CubeRootBits(K[r][i] as nat, PRIMES[r][i])
  {
  }

  /** Every round constant is the beginning of the fractional part of the cube root of its prime. */
  lemma ConstantsAreCubeRoots(t: nat)
    requires t < 64
    ensures |Primes(311)| == 64 && CubeRootBits(Constant(t) as nat, Primes(311)[t])
  {
    hide CubeRootBits, Primes;
    FirstPrimes(t);
    match t / 16
    case 0 => FirstQuarter();
    case 1 => SecondQuarter();
    case 2 => ThirdQuarter();
    case _ => FourthQuarter();
  }

  function SquareRoot(p: nat): (r: nat)
    requires 1 <= p < 25
    ensures r * r <= p < (r + 1) * (r + 1)
  {
    if p < 4 then 1 else if p < 9 then 2 else if p < 16 then 3 else 4
  }

  /** Likewise for the square root. */
  predicate SquareRootBits(bits: nat, p: nat) {
    && 1 <= p < 25
    && bits < 0x1_0000_0000
    && var x := SquareRoot(p) * 0x1_0000_0000 + bits;
       x * x <= p * 0x1_0000_0000_0000_0000 < (x + 1) * (x + 1)
  }

  /** The initial hash value is made in the same way from the square roots of the first eight primes. */
  lemma InitialIsSquareRoots(t: nat)
    requires t < 8
    ensures |Primes(311)| == 64 && SquareRootBits(H0[t] as nat, Primes(311)[t])
  {
    hide Primes, NextPrime;
    FirstPrimes(t);
  }
}
