/** UTF-8, as section 4 of RFC 3629 defines it.  A byte is a character below 256. */
module Utf8 {
  /** What the bytes read so far ask for: nothing, or one, two or three more continuation bytes, the first of them
      restricted after four of the leading bytes. */
  datatype State = Ready | One | Two | Three | AfterE0 | AfterED | AfterF0 | AfterF4 | Bad

  function Step(q: State, c: char): State {
    match q
    case Ready =>
      if c < '\U{80}' then Ready
      else if '\U{C2}' <= c <= '\U{DF}' then One
      else if c == '\U{E0}' then AfterE0
      else if c == '\U{ED}' then AfterED
      else if '\U{E1}' <= c <= '\U{EF}' then Two
      else if c == '\U{F0}' then AfterF0
      else if '\U{F1}' <= c <= '\U{F3}' then Three
      else if c == '\U{F4}' then AfterF4
      else Bad
    case One => if '\U{80}' <= c <= '\U{BF}' then Ready else Bad
    case Two => if '\U{80}' <= c <= '\U{BF}' then One else Bad
    case Three => if '\U{80}' <= c <= '\U{BF}' then Two else Bad
    case AfterE0 => if '\U{A0}' <= c <= '\U{BF}' then One else Bad
    case AfterED => if '\U{80}' <= c <= '\U{9F}' then One else Bad
    case AfterF0 => if '\U{90}' <= c <= '\U{BF}' then Two else Bad
    case AfterF4 => if '\U{80}' <= c <= '\U{8F}' then Two else Bad
    case Bad => Bad
  }

  function Run(q: State, s: string): State
    decreases |s|
  {
    if s == "" then q else Run(Step(q, s[0]), s[1..])
  }

  predicate IsUtf8(s: string) {
    Run(Ready, s) == Ready
  }

  predicate IsAscii(s: string) {
    forall i :: 0 <= i < |s| ==> s[i] < '\U{80}'
  }

  lemma {:induction false} RunConcat(q: State, s: string, t: string)
    ensures Run(q, s + t) == Run(Run(q, s), t)
    decreases |s|
  {
    hide Step;
    if s == "" {
      assert s + t == t;
    } else {
      assert (s + t)[1..] == s[1..] + t;
      RunConcat(Step(q, s[0]), s[1..], t);
    }
  }

  lemma {:induction false} AsciiRuns(s: string)
    requires IsAscii(s)
    ensures Run(Ready, s) == Ready
  {
    if s != "" {
      AsciiRuns(s[1..]);
    }
  }

  lemma {:induction false} BadStays(s: string)
    ensures Run(Bad, s) == Bad
  {
    if s != "" {
      BadStays(s[1..]);
    }
  }

  /** A text is cut in two well-formed halves wherever an ASCII character follows. */
  lemma CutBeforeAscii(s: string, t: string)
    requires t != "" && t[0] < '\U{80}'
    ensures IsUtf8(s + t) <==> IsUtf8(s) && IsUtf8(t)
  {
    RunConcat(Ready, s, t);
    if Run(Ready, s) != Ready {
      assert Step(Run(Ready, s), t[0]) == Bad;
      BadStays(t[1..]);
    }
  }

  /** ASCII before a text changes nothing. */
  lemma AfterAscii(s: string, t: string)
    requires IsAscii(s)
    ensures IsUtf8(s + t) <==> IsUtf8(t)
  {
    RunConcat(Ready, s, t);
    AsciiRuns(s);
  }

  // ---- What is well formed ----

  /** A code point that is not half of a surrogate pair. */
  predicate IsScalar(n: nat) {
    n < 0xD800 || 0xE000 <= n < 0x11_0000
  }

  function Encode(n: nat): (s: string)
    requires IsScalar(n)
    ensures 1 <= |s| <= 4
    ensures |s| == 1 || forall i :: 0 <= i < |s| ==> s[i] >= '\U{80}'
  {
    if n < 0x80 then [n as char]
    else if n < 0x800 then [(0xC0 + n / 0x40) as char, Continuation(n)]
    else if n < 0x1_0000 then [(0xE0 + n / 0x1000) as char, Continuation(n / 0x40), Continuation(n)]
    else [(0xF0 + n / 0x4_0000) as char, Continuation(n / 0x1000), Continuation(n / 0x40), Continuation(n)]
  }

  /** The byte that carries the lowest six bits. */
  function Continuation(n: nat): char {
    (0x80 + n % 0x40) as char
  }

  /** The code point of an encoding. */
  function Decode(s: string): int
    requires 1 <= |s| <= 4
  {
    if |s| == 1 then s[0] as int
    else if |s| == 2 then (s[0] as int - 0xC0) * 0x40 + (s[1] as int - 0x80)
    else if |s| == 3 then
      (s[0] as int - 0xE0) * 0x1000 + (s[1] as int - 0x80) * 0x40 + (s[2] as int - 0x80)
    else
      (s[0] as int - 0xF0) * 0x4_0000 + (s[1] as int - 0x80) * 0x1000 + (s[2] as int - 0x80) * 0x40
        + (s[3] as int - 0x80)
  }

  lemma EncodeDecoded(n: nat)
    requires IsScalar(n)
    ensures Decode(Encode(n)) == n
  {
    assert n / 0x1000 == n / 0x40 / 0x40 && n / 0x4_0000 == n / 0x1000 / 0x40;
  }

  function Steps(q: State, a: char, b: char, c: char): State {
    Step(Step(Step(q, a), b), c)
  }

  lemma RunFour(q: State, a: char, b: char, c: char, d: char)
    ensures Run(q, [a]) == Step(q, a)
    ensures Run(q, [a, b]) == Step(Step(q, a), b)
    ensures Run(q, [a, b, c]) == Steps(q, a, b, c)
    ensures Run(q, [a, b, c, d]) == Step(Steps(q, a, b, c), d)
  {
    hide Step;
    assert [a] + [b] == [a, b] && [a, b] + [c] == [a, b, c] && [a, b, c] + [d] == [a, b, c, d];
    RunOne(q, a);
    RunConcat(q, [a], [b]);
    RunOne(Step(q, a), b);
    RunConcat(q, [a, b], [c]);
    RunOne(Step(Step(q, a), b), c);
    RunConcat(q, [a, b, c], [d]);
    RunOne(Steps(q, a, b, c), d);
  }

  lemma RunOne(q: State, a: char)
    ensures Run(q, [a]) == Step(q, a)
  {
    hide Step;
    assert [a][1..] == "";
  }

  lemma ThreeBytes(n: nat)
    requires IsScalar(n) && 0x800 <= n < 0x1_0000
    ensures Steps(Ready, (0xE0 + n / 0x1000) as char, Continuation(n / 0x40), Continuation(n)) == Ready
  {
    var w, h, m := n / 0x40, n / 0x1000, n / 0x40 % 0x40;
    assert h == w / 0x40 && w == 0x40 * h + m;
    assert h < 16 && (h == 0 ==> m >= 0x20) && (h == 13 ==> m < 0x20);
  }

  lemma FourBytes(n: nat)
    requires IsScalar(n) && 0x1_0000 <= n
    ensures Step(Steps(Ready, (0xF0 + n / 0x4_0000) as char, Continuation(n / 0x1000), Continuation(n / 0x40)),
                 Continuation(n)) == Ready
  {
    var w, h, m := n / 0x1000, n / 0x4_0000, n / 0x1000 % 0x40;
    assert h == w / 0x40 && w == 0x40 * h + m;
    assert h < 5 && (h == 0 ==> m >= 0x10) && (h == 4 ==> m < 0x10);
  }

  lemma EncodeIsUtf8(n: nat)
    requires IsScalar(n)
    ensures IsUtf8(Encode(n))
  {
    hide Run;
    var s := Encode(n);
    RunFour(Ready, s[0], if |s| > 1 then s[1] else ' ', if |s| > 2 then s[2] else ' ', if |s| > 3 then s[3] else ' ');
    if 0x1_0000 <= n {
      FourBytes(n);
    } else if 0x800 <= n {
      ThreeBytes(n);
    }
  }

  predicate AreScalars(ns: seq<nat>) {
    forall i :: 0 <= i < |ns| ==> IsScalar(ns[i])
  }

  function EncodeAll(ns: seq<nat>): string
    requires AreScalars(ns)
  {
    if ns == [] then "" else Encode(ns[0]) + EncodeAll(ns[1..])
  }

  lemma {:induction false} EncodedIsUtf8(ns: seq<nat>)
    requires AreScalars(ns)
    ensures IsUtf8(EncodeAll(ns))
  {
    if ns != [] {
      hide Encode;
      EncodeIsUtf8(ns[0]);
      EncodedIsUtf8(ns[1..]);
      RunConcat(Ready, Encode(ns[0]), EncodeAll(ns[1..]));
    }
  }

  /** A byte that does not spoil a text that ends well. */
  lemma NextByte(q: State, s: string)
    requires Run(q, s) == Ready && q != Ready
    ensures s != "" && Step(q, s[0]) != Bad && Run(Step(q, s[0]), s[1..]) == Ready
  {
    if s != "" {
      BadStays(s[1..]);
    }
  }

  lemma LastSix(a: nat, b: nat)
    requires b < 0x40
    ensures (a * 0x40 + b) / 0x40 == a && (a * 0x40 + b) % 0x40 == b
  {
  }

  lemma DivTwice(n: nat)
    ensures n / 0x1000 == n / 0x40 / 0x40
    ensures n / 0x4_0000 == n / 0x1000 / 0x40
  {
  }

  lemma SixBits(h: nat, m: nat, l: nat, k: nat)
    requires m < 0x40 && l < 0x40 && k < 0x40
    ensures var n := h * 0x4_0000 + m * 0x1000 + l * 0x40 + k;
      && n % 0x40 == k && n / 0x40 % 0x40 == l && n / 0x1000 % 0x40 == m
      && n / 0x1000 == h * 0x40 + m && n / 0x4_0000 == h
  {
    DivTwice(h * 0x4_0000 + m * 0x1000 + l * 0x40 + k);
    LastSix(h * 0x1000 + m * 0x40 + l, k);
    LastSix(h * 0x40 + m, l);
    LastSix(h, m);
  }

  lemma FirstTwo(s: string) returns (n: nat)
    requires IsUtf8(s) && s != "" && '\U{C2}' <= s[0] <= '\U{DF}'
    ensures IsScalar(n) && Encode(n) <= s
  {
    NextByte(One, s[1..]);
    n := (s[0] as nat - 0xC0) * 0x40 + (s[1] as nat - 0x80);
    assert n / 0x40 == s[0] as nat - 0xC0 && n % 0x40 == s[1] as nat - 0x80;
  }

  lemma FirstThree(s: string) returns (n: nat)
    requires IsUtf8(s) && s != "" && '\U{E0}' <= s[0] <= '\U{EF}'
    ensures IsScalar(n) && Encode(n) <= s
  {
    var q := Step(Ready, s[0]);
    NextByte(q, s[1..]);
    NextByte(Step(q, s[1]), s[1..][1..]);
    var h, m, l := s[0] as nat - 0xE0, s[1] as nat - 0x80, s[2] as nat - 0x80;
    n := h * 0x1000 + m * 0x40 + l;
    SixBits(0, h, m, l);
  }

  lemma FirstFour(s: string) returns (n: nat)
    requires IsUtf8(s) && s != "" && '\U{F0}' <= s[0] <= '\U{F4}'
    ensures IsScalar(n) && Encode(n) <= s
  {
    var q := Step(Ready, s[0]);
    NextByte(q, s[1..]);
    NextByte(Step(q, s[1]), s[1..][1..]);
    NextByte(Step(Step(q, s[1]), s[2]), s[1..][1..][1..]);
    var h, m, l, k := s[0] as nat - 0xF0, s[1] as nat - 0x80, s[2] as nat - 0x80, s[3] as nat - 0x80;
    n := h * 0x4_0000 + m * 0x1000 + l * 0x40 + k;
    SixBits(h, m, l, k);
  }

  /** A well-formed text begins with the encoding of a code point, and the rest is well formed. */
  lemma FirstScalar(s: string) returns (n: nat)
    requires IsUtf8(s) && s != ""
    ensures IsScalar(n) && Encode(n) <= s && IsUtf8(s[|Encode(n)|..])
  {
    if s[0] < '\U{80}' {
      n := s[0] as nat;
    } else if s[0] < '\U{C2}' || '\U{F4}' < s[0] {
      BadStays(s[1..]);
    } else if s[0] <= '\U{DF}' {
      n := FirstTwo(s);
    } else if s[0] <= '\U{EF}' {
      n := FirstThree(s);
    } else {
      n := FirstFour(s);
    }
    var k := |Encode(n)|;
    assert s == Encode(n) + s[k..];
    EncodeIsUtf8(n);
    RunConcat(Ready, Encode(n), s[k..]);
  }

  lemma {:induction false} Utf8IsEncoded(s: string) returns (ns: seq<nat>)
    requires IsUtf8(s)
    ensures AreScalars(ns) && EncodeAll(ns) == s
    decreases |s|
  {
    if s == "" {
      ns := [];
    } else {
      hide IsUtf8, Encode;
      var n := FirstScalar(s);
      var rest := Utf8IsEncoded(s[|Encode(n)|..]);
      ns := [n] + rest;
      assert s == Encode(n) + s[|Encode(n)|..];
    }
  }

  /** A byte string is well formed if and only if it is the encoding of some code points. */
  lemma Utf8IffEncoded(s: string)
    ensures IsUtf8(s) <==> exists ns :: AreScalars(ns) && EncodeAll(ns) == s
  {
    hide IsUtf8;
    if IsUtf8(s) {
      var ns := Utf8IsEncoded(s);
    }
    forall ns | AreScalars(ns) && EncodeAll(ns) == s
      ensures IsUtf8(s)
    {
      EncodedIsUtf8(ns);
    }
  }
}
