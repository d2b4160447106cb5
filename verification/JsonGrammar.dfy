/** The numbers of JSON as section 6 of RFC 8259 writes them down, against the automaton that the parser runs. */
module JsonGrammar {
  import opened Decimal
  import opened Json

  predicate Digits(s: string) {
    s != "" && AllDigits(s)
  }

  /** `int`: no leading zero. */
  predicate IsInt(s: string) {
    s == "0" || (Digits(s) && s[0] != '0')
  }

  /** `[ frac ]`. */
  predicate IsFrac(s: string) {
    s == "" || (s[0] == '.' && Digits(s[1..]))
  }

  /** `[ exp ]`. */
  predicate IsExp(s: string) {
    s == "" || ((s[0] == 'e' || s[0] == 'E') && IsSigned(s[1..]))
  }

  predicate IsSigned(s: string) {
    Digits(s) || (s != "" && (s[0] == '+' || s[0] == '-') && Digits(s[1..]))
  }

  ghost predicate IsFracExp(s: string) {
    exists k: nat :: k <= |s| && IsFrac(s[..k]) && IsExp(s[k..])
  }

  ghost predicate IsIntFracExp(s: string) {
    exists k: nat :: k <= |s| && IsInt(s[..k]) && IsFracExp(s[k..])
  }

  /** `number = [ minus ] int [ frac ] [ exp ]`. */
  ghost predicate InGrammar(s: string) {
    IsIntFracExp(s) || (s != "" && s[0] == '-' && IsIntFracExp(s[1..]))
  }

  // ---- Runs of digits ----

  function DigitRun(s: string): (n: nat)
    ensures n <= |s| && AllDigits(s[..n])
    ensures n < |s| ==> !IsDigit(s[n])
  {
    if s == "" || !IsDigit(s[0]) then 0
    else
      assert s[..DigitRun(s[1..]) + 1] == [s[0]] + s[1..][..DigitRun(s[1..])];
      DigitRun(s[1..]) + 1
  }

  /** Digits before something else are the run. */
  lemma {:induction false} RunIs(s: string, k: nat)
    requires k <= |s| && AllDigits(s[..k]) && (k < |s| ==> !IsDigit(s[k]))
    ensures DigitRun(s) == k
  {
    if k > 0 {
      assert s[0] == s[..k][0];
      assert s[1..][..k - 1] == s[..k][1..];
      RunIs(s[1..], k - 1);
    }
  }

  // ---- From the end to the beginning ----

  lemma {:induction false} ExpAccepts(s: string)
    ensures CompletesNumber(Exp, s) <==> AllDigits(s)
    decreases |s|
  {
    if s != "" {
      ExpAccepts(s[1..]);
      StuckStays(s[1..]);
      assert s == [s[0]] + s[1..];
    }
  }

  lemma ESignAccepts(s: string)
    ensures CompletesNumber(ESign, s) <==> Digits(s)
  {
    if s != "" {
      ExpAccepts(s[1..]);
      StuckStays(s[1..]);
      assert s == [s[0]] + s[1..];
    }
  }

  lemma EAccepts(s: string)
    ensures CompletesNumber(E, s) <==> IsSigned(s)
  {
    if s != "" {
      ExpAccepts(s[1..]);
      ESignAccepts(s[1..]);
      StuckStays(s[1..]);
      assert s == [s[0]] + s[1..];
    }
  }

  lemma {:induction false} FracAccepts(s: string)
    ensures CompletesNumber(Frac, s) <==> IsExp(s[DigitRun(s)..])
    decreases |s|
  {
    if s != "" {
      if IsDigit(s[0]) {
        FracAccepts(s[1..]);
        assert s[DigitRun(s)..] == s[1..][DigitRun(s[1..])..];
      } else {
        EAccepts(s[1..]);
        StuckStays(s[1..]);
        assert s[0..] == s;
      }
    }
  }

  lemma PointAccepts(s: string)
    ensures CompletesNumber(Point, s) <==> DigitRun(s) > 0 && IsExp(s[DigitRun(s)..])
  {
    if s != "" {
      StuckStays(s[1..]);
      if IsDigit(s[0]) {
        FracAccepts(s[1..]);
        assert s[DigitRun(s)..] == s[1..][DigitRun(s[1..])..];
      }
    }
  }

  lemma FracSplit(s: string, k: nat)
    requires 0 < k <= |s| && IsFrac(s[..k]) && IsExp(s[k..])
    ensures s[0] == '.' && k == 1 + DigitRun(s[1..]) && DigitRun(s[1..]) > 0
  {
    hide IsExp;
    assert IsExp(s[k..]) ==> k == |s| || !IsDigit(s[k]) by {
      ExpStart(s[k..]);
    }
    assert s[1..][..k - 1] == s[..k][1..];
    RunIs(s[1..], k - 1);
  }

  lemma ExpStart(t: string)
    ensures IsExp(t) ==> t == "" || !IsDigit(t[0])
  {
  }

  lemma ZeroAccepts(s: string)
    ensures CompletesNumber(Zero, s) <==> IsFracExp(s)
  {
    hide CompletesNumber, IsExp;
    ZeroSteps(s);
    if CompletesNumber(Zero, s) {
      if IsExp(s) {
        assert s[..0] == "" && s[0..] == s;
        assert IsFrac(s[..0]) && IsExp(s[0..]);
      } else {
        var k := 1 + DigitRun(s[1..]);
        assert s[..k][1..] == s[1..][..DigitRun(s[1..])] && s[k..] == s[1..][DigitRun(s[1..])..];
        assert IsFrac(s[..k]) && IsExp(s[k..]);
      }
    }
    if IsFracExp(s) {
      var k: nat :| k <= |s| && IsFrac(s[..k]) && IsExp(s[k..]);
      if k == 0 {
        assert s[0..] == s;
      } else {
        FracSplit(s, k);
        assert s[1..][k - 1..] == s[k..];
      }
    }
  }

  /** After the integer part. */
  lemma ZeroSteps(s: string)
    ensures CompletesNumber(Zero, s) <==>
      IsExp(s) || (s != "" && s[0] == '.' && DigitRun(s[1..]) > 0 && IsExp(s[1..][DigitRun(s[1..])..]))
  {
    if s != "" {
      StuckStays(s[1..]);
      EAccepts(s[1..]);
      PointAccepts(s[1..]);
    }
  }

  lemma {:induction false} IntAccepts(s: string)
    ensures CompletesNumber(Int, s) <==> CompletesNumber(Zero, s[DigitRun(s)..])
    decreases |s|
  {
    if s != "" {
      if IsDigit(s[0]) {
        IntAccepts(s[1..]);
        assert s[DigitRun(s)..] == s[1..][DigitRun(s[1..])..];
      } else {
        assert s[0..] == s;
      }
    }
  }

  lemma FracExpStart(t: string)
    requires IsFracExp(t)
    ensures t == "" || !IsDigit(t[0])
  {
    var k: nat :| k <= |t| && IsFrac(t[..k]) && IsExp(t[k..]);
    if 0 < k {
      assert t[..k][0] == t[0];
    }
  }

  lemma MinusSteps(s: string)
    ensures CompletesNumber(Minus, s) <==>
      && s != ""
      && if s[0] == '0' then IsFracExp(s[1..]) else IsDigit(s[0]) && IsFracExp(s[DigitRun(s)..])
  {
    if s != "" {
      StuckStays(s[1..]);
      ZeroAccepts(s[1..]);
      IntAccepts(s[1..]);
      ZeroAccepts(s[1..][DigitRun(s[1..])..]);
      assert IsDigit(s[0]) ==> s[DigitRun(s)..] == s[1..][DigitRun(s[1..])..];
    }
  }

  lemma IntSplit(s: string, k: nat)
    requires k <= |s| && IsInt(s[..k]) && IsFracExp(s[k..])
    ensures s != "" && IsDigit(s[0]) && k == if s[0] == '0' then 1 else DigitRun(s)
  {
    hide IsFracExp;
    FracExpStart(s[k..]);
    assert s[0] == s[..k][0];
    if s[0] != '0' {
      RunIs(s, k);
    }
  }

  lemma MinusAccepts(s: string)
    ensures CompletesNumber(Minus, s) <==> IsIntFracExp(s)
  {
    hide CompletesNumber, IsFracExp;
    MinusSteps(s);
    if CompletesNumber(Minus, s) {
      var k := if s[0] == '0' then 1 else DigitRun(s);
      assert s[0] == '0' ==> s[..1] == "0";
      assert IsInt(s[..k]) && IsFracExp(s[k..]);
    }
    if IsIntFracExp(s) {
      var k: nat :| k <= |s| && IsInt(s[..k]) && IsFracExp(s[k..]);
      IntSplit(s, k);
    }
  }

  /** The automaton accepts exactly the numbers of the grammar. */
  lemma NumberIffInGrammar(s: string)
    ensures IsNumber(s) <==> InGrammar(s)
  {
    MinusAccepts(s);
    if s != "" {
      MinusAccepts(s[1..]);
      StuckStays(s[1..]);
    }
    if IsIntFracExp(s) {
      NumberStart(s);
    }
  }

  lemma NumberStart(s: string)
    requires IsIntFracExp(s)
    ensures s != "" && IsDigit(s[0])
  {
    var k: nat :| k <= |s| && IsInt(s[..k]) && IsFracExp(s[k..]);
    assert s[0] == s[..k][0];
  }

  /** What `%.6g` gives for 612 million. */
  lemma ExponentExample()
    ensures IsNumber("6.12e+08")
  {
    var s := "6.12e+08";
    assert s[0..1] == "6" && IsInt(s[..1]);
    var t := s[1..];
    assert t == ".12e+08" && t[..3] == ".12" && t[3..] == "e+08";
    assert IsFrac(t[..3]) && IsExp(t[3..]);
    assert IsFracExp(t) && IsIntFracExp(s);
    NumberIffInGrammar(s);
  }

  /** `unescaped` of section 7, in code points. */
  lemma PlainInNumbers(s: string)
    ensures IsPlain(s) <==> forall c :: c in s ==> 0x20 <= c as int && c as int != 0x22 && c as int != 0x5C
  {
    forall i | 0 <= i < |s|
      ensures s[i] in s
    {
    }
  }
}
