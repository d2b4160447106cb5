/** `fmt_commas` of benchmark/src/main.c. */
module Commas {
  import opened Decimal

  /** A comma before each group of three, counted from the right. */
  function Group(s: string): (g: string)
    ensures |g| >= |s|
  {
    if |s| <= 3 then s else Group(s[..|s| - 3]) + "," + s[|s| - 3..]
  }

  /** The grouping from the left, as the loop writes it. */
  lemma {:induction false} GroupFromLeft(s: string)
    requires s != []
    ensures Group(s) == [s[0]] + (if |s| > 1 && (|s| - 1) % 3 == 0 then "," else "") + Group(s[1..])
  {
    if |s| > 4 {
      GroupFromLeft(s[..|s| - 3]);
      assert s[..|s| - 3][1..] == s[1..][..|s| - 4];
      assert s[1..][|s| - 4..] == s[|s| - 3..];
    } else if |s| == 4 {
      assert Group(s[..1]) == [s[0]];
    }
  }

  lemma GroupTail(s: string, i: nat)
    requires i < |s|
    ensures Group(s[i..]) == [s[i]] + (if |s| - i > 1 && (|s| - i - 1) % 3 == 0 then "," else "") + Group(s[i + 1..])
  {
    GroupFromLeft(s[i..]);
    assert s[i..][1..] == s[i + 1..];
  }

  /** Formats `val` into `buf`: as much of the grouped number as fits, and a terminator. */
  method FmtCommas(buf: array<char>, bufsz: nat, val: nat) returns (out: nat)
    requires 1 <= bufsz <= buf.Length
    requires val < 0x1_0000_0000_0000_0000
    modifies buf
    ensures out == if |Group(Unsigned(val))| < bufsz then |Group(Unsigned(val))| else bufsz - 1
    ensures buf[..out] == Group(Unsigned(val))[..out] && buf[out] == '\0'
    ensures forall j :: out < j < buf.Length ==> buf[j] == old(buf[j])
  {
    hide Group, Unsigned;
    var tmp := Snprintf(32, Unsigned(val));
    UnsignedLength64(val);
    var len := |tmp|;
    out := 0;
    var i := 0;
    ghost var done, rest := "", Group(tmp);
    assert tmp[0..] == tmp;
    while i < len && out + 1 < bufsz
      invariant 0 <= i <= len && |done| == out < bufsz
      invariant Group(tmp) == done + rest
      invariant out + 1 < bufsz || i == len ==> rest == Group(tmp[i..])
      invariant forall j :: 0 <= j < out ==> buf[j] == done[j]
      invariant forall j :: out <= j < buf.Length ==> buf[j] == old(buf[j])
    {
      GroupTail(tmp, i);
      buf[out] := tmp[i];
      out := out + 1;
      done, rest := Shift(done, rest);
      var rem := len - i - 1;
      if rem > 0 && rem % 3 == 0 && out + 1 < bufsz {
        buf[out] := ',';
        out := out + 1;
        done, rest := Shift(done, rest);
      }
      i := i + 1;
    }
    if i == len {
      assert tmp[i..] == [] && rest == [] by { GroupLengthOfNone(); }
    }
    buf[out] := '\0';
    assert buf[..out] == done;
  }

  lemma Shift(done: string, rest: string) returns (done': string, rest': string)
    requires rest != []
    ensures done' == done + [rest[0]] && rest' == rest[1..] && done' + rest' == done + rest
  {
    done', rest' := done + [rest[0]], rest[1..];
  }

  lemma GroupLengthOfNone()
    ensures Group("") == ""
  {
  }

  // ---- What the full form is ----

  lemma {:induction false} GroupLength(s: string)
    requires s != []
    ensures |Group(s)| == |s| + (|s| - 1) / 3
  {
    if |s| > 3 {
      GroupLength(s[..|s| - 3]);
    }
  }

  /** How many digits stand to the right of position `r`, counted from the right. */
  function DigitsBehind(r: nat): (d: nat)
    ensures d <= r
  {
    r - r / 4
  }

  lemma FourFewer(r: nat)
    ensures r >= 4 ==> (r - 4) % 4 == r % 4 && DigitsBehind(r - 4) == DigitsBehind(r) - 3
    ensures r < 4 ==> r % 4 == r && DigitsBehind(r) == r
  {
  }

  lemma CharacterFromRight(h: string, tail: string, r: nat)
    requires |tail| == 3 && r < |h| + 4
    ensures var g := h + "," + tail;
      g[|g| - 1 - r] == if r < 3 then tail[2 - r] else if r == 3 then ',' else h[|h| - 1 - (r - 4)]
  {
  }

  /** Counted from the right, every fourth character is a comma and the others are the digits in order. */
  lemma {:induction false} CommaPositions(s: string, r: nat)
    requires s != [] && r < |Group(s)|
    ensures r % 4 == 3 ==> Group(s)[|Group(s)| - 1 - r] == ','
    ensures r % 4 != 3 ==>
      DigitsBehind(r) < |s| && Group(s)[|Group(s)| - 1 - r] == s[|s| - 1 - DigitsBehind(r)]
  {
    FourFewer(r);
    if |s| > 3 {
      var head, tail := s[..|s| - 3], s[|s| - 3..];
      assert Group(s) == Group(head) + "," + tail;
      CharacterFromRight(Group(head), tail, r);
      hide Group, DigitsBehind;
      if r >= 4 {
        CommaPositions(head, r - 4);
      }
    }
  }

  function WithoutCommas(t: string): string {
    if t == [] then [] else WithoutCommas(t[..|t| - 1]) + (if t[|t| - 1] == ',' then "" else [t[|t| - 1]])
  }

  lemma {:induction false} WithoutCommasConcat(t: string, u: string)
    ensures WithoutCommas(t + u) == WithoutCommas(t) + WithoutCommas(u)
  {
    if u == [] {
      assert t + u == t;
    } else {
      assert (t + u)[..|t + u| - 1] == t + u[..|u| - 1];
      WithoutCommasConcat(t, u[..|u| - 1]);
    }
  }

  lemma {:induction false} WithoutCommasDigits(s: string)
    requires AllDigits(s)
    ensures WithoutCommas(s) == s
  {
    if s != [] {
      WithoutCommasDigits(s[..|s| - 1]);
      assert s == s[..|s| - 1] + [s[|s| - 1]];
    }
  }

  lemma WithoutCommasComma()
    ensures WithoutCommas(",") == ""
  {
    assert ","[..0] == "";
  }

  lemma {:induction false} UngroupDigits(s: string)
    requires AllDigits(s)
    ensures WithoutCommas(Group(s)) == s
  {
    if |s| <= 3 {
      WithoutCommasDigits(s);
    } else {
      var head, tail := s[..|s| - 3], s[|s| - 3..];
      assert Group(s) == Group(head) + "," + tail;
      hide WithoutCommas, Group;
      UngroupDigits(head);
      WithoutCommasDigits(tail);
      WithoutCommasConcat(Group(head) + ",", tail);
      WithoutCommasConcat(Group(head), ",");
      WithoutCommasComma();
      assert s == head + tail;
    }
  }

  /** Deleting the commas and reading the digits gives the number back. */
  lemma GroupedNumberReadBack(val: nat)
    ensures WithoutCommas(Group(Unsigned(val))) == Unsigned(val)
    ensures AllDigits(Unsigned(val)) && ToNumber(Unsigned(val)) == val
  {
    UnsignedValue(val);
    UngroupDigits(Unsigned(val));
  }
}
