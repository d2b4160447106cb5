/** Decimal notation, as `printf` writes it, and bounded formatting. */
module Decimal {
  function Digit(d: nat): char
    requires d < 10
  {
    "0123456789"[d]
  }

  /** `%llu`. */
  function Unsigned(n: nat): (s: string)
    ensures |s| >= 1
  {
    if n < 10 then [Digit(n)] else Unsigned(n / 10) + [Digit(n % 10)]
  }

  /** `%d` and `%ld`. */
  function Signed(n: int): (s: string)
    ensures |s| >= 1
  {
    if n < 0 then "-" + Unsigned(-n) else Unsigned(n)
  }

  predicate IsDigit(c: char) {
    '0' <= c <= '9'
  }

  predicate AllDigits(s: string) {
    forall i :: 0 <= i < |s| ==> IsDigit(s[i])
  }

  /** The number that a digit string stands for. */
  function ToNumber(s: string): nat
    requires AllDigits(s)
  {
    if s == [] then 0 else 10 * ToNumber(s[..|s| - 1]) + (s[|s| - 1] as int - '0' as int)
  }

  lemma {:induction false} UnsignedValue(n: nat)
    ensures AllDigits(Unsigned(n)) && ToNumber(Unsigned(n)) == n
    ensures Unsigned(n)[0] == '0' ==> n == 0
  {
    var s := Unsigned(n);
    if n < 10 {
      assert s[..0] == [];
    } else {
      UnsignedValue(n / 10);
      assert s[..|s| - 1] == Unsigned(n / 10);
    }
  }

  function Pow10(k: nat): nat {
    if k == 0 then 1 else 10 * Pow10(k - 1)
  }

  lemma {:induction false} UnsignedLength(n: nat, k: nat)
    requires k >= 1 && n < Pow10(k)
    ensures |Unsigned(n)| <= k
  {
    if n >= 10 {
      UnsignedLength(n / 10, k - 1);
    }
  }

  lemma UnsignedLength64(n: nat)
    requires n < 0x1_0000_0000_0000_0000
    ensures |Unsigned(n)| <= 20
  {
    assert Pow10(5) == 100000;
    assert Pow10(10) == 100000 * Pow10(5);
    assert Pow10(15) == 100000 * Pow10(10);
    assert Pow10(20) == 100000 * Pow10(15);
    UnsignedLength(n, 20);
  }

  /** What `snprintf` stores of `text` in a buffer of `size` characters, the terminator left aside. */
  function Snprintf(size: nat, text: string): (s: string)
    requires size >= 1
    ensures s <= text
    ensures |text| < size ==> s == text
  {
    if |text| < size then text else text[..size - 1]
  }
}
