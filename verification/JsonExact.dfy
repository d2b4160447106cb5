/** The other half: a printed document that reads back as it was can only have held valid numbers and plain strings,
    because the printer escapes nothing. */
module JsonExact {
  import opened Json
  import opened Utf8

  lemma {:induction false} ScannedIsNumber(q: NumberState, s: string)
    ensures ScanNumber(q, s).Some? ==> CompletesNumber(q, s[..ScanNumber(q, s).value])
    decreases |s|
  {
    if s != "" && !NumberStep(q, s[0]).Stuck? {
      ScannedIsNumber(NumberStep(q, s[0]), s[1..]);
      var n := ScanNumber(NumberStep(q, s[0]), s[1..]);
      if n.Some? {
        assert s[..n.value + 1][1..] == s[1..][..n.value];
      }
    }
  }

  /** Whatever the parser takes for a number is one. */
  lemma ReadNumberIsNumber(s: string)
    ensures ParseValue(s).Success? && ParseValue(s).value.Number? ==> IsNumber(ParseValue(s).value.lexeme)
  {
    hide ParseMembers, ReadString, CompletesNumber, ScanNumber;
    ScannedIsNumber(Start, s);
  }

  /** The number of bytes that `ReadChar` takes off. */
  function Taken(s: string): nat
    requires ReadChar(s).Success?
  {
    |s| - |ReadChar(s).rest|
  }

  /** What is read is a single byte, or comes from an escape sequence and is not ASCII. */
  lemma ReadShape(s: string)
    requires ReadChar(s).Success?
    ensures var p := ReadChar(s).value;
      && 1 <= |p| <= Taken(s) <= 6
      && (|p| > 1 ==> s[0] == '\\' && forall i :: 0 <= i < |p| ==> p[i] != '\\')
  {
    hide CodePoint;
  }

  lemma ReadBytes(t: string)
    requires ReadChar(t).Success? && ReadChar(t).value != "\""
    ensures 1 <= Taken(t) <= |t| && ReadChar(t).rest == t[Taken(t)..]
    ensures '"' !in t[..Taken(t)]
  {
    hide CodePoint, Encode;
    var k := Taken(t);
    if k == 6 {
      assert IsHex(t[2]) && IsHex(t[3]) && IsHex(t[4]) && IsHex(t[5]);
      assert t[..6] == [t[0], t[1], t[2], t[3], t[4], t[5]];
    } else if k == 2 {
      assert t[..2] == [t[0], t[1]];
    } else {
      assert t[..1] == [t[0]];
    }
  }

  /** Something other than a quotation mark is not read across the closing one, and not from one either. */
  lemma ReadWithin(w: string, rest: string)
    requires ReadChar(w + "\"" + rest).Success? && ReadChar(w + "\"" + rest).value != "\""
    ensures var t := w + "\"" + rest;
      && 1 <= Taken(t) <= |w|
      && '"' !in w[..Taken(t)]
      && ReadChar(t).rest == w[Taken(t)..] + "\"" + rest
  {
    var t := w + "\"" + rest;
    hide ReadChar;
    var k := Taken(t);
    assert k > |w| ==> t[..k][|w|] == '"';
    ReadBytes(t);
    assert t[..k] == w[..k] && t[k..] == w[k..] + "\"" + rest;
  }

  /** What `ReadString` gives when it does not stop at once. */
  lemma ReadStringStep(t: string)
    requires ReadString(t).Success? && !("\"" <= t)
    ensures ReadChar(t).Success? && ReadString(ReadChar(t).rest).Success?
    ensures ReadString(t).value == ReadChar(t).value + ReadString(ReadChar(t).rest).value
  {
    hide ReadChar;
  }

  /** Once an escape sequence has put the bytes read behind the text, they cannot catch up: `q` is what the reading
      of `w` would have to yield before `w` itself. */
  lemma {:induction false} LagPersists(q: string, w: string, rest: string)
    requires q != "" && '"' !in q
    requires ReadString(w + "\"" + rest).Success?
    ensures ReadString(w + "\"" + rest).value != q + w
    decreases |w|
  {
    hide ReadChar, ReadString;
    var t := w + "\"" + rest;
    var v := ReadString(t).value;
    if v == q + w {
      if "\"" <= t {
        EmptyString(t);
      } else {
        ReadStringStep(t);
        var p := ReadChar(t).value;
        assert |p| > |q| ==> p[|q|] == v[|q|] == w[0] == t[0];
        ReadShape(t);
        assert |p| <= |q|;
        assert v[0] == p[0] == q[0] && q[0] in q;
        ReadWithin(w, rest);
        var k := Taken(t);
        var lag := q[|p|..] + w[..k];
        assert v[|p|..] == ReadString(ReadChar(t).rest).value;
        assert (q + w)[|p|..] == lag + w[k..];
        LagPersists(lag, w[k..], rest);
      }
    }
  }

  lemma EmptyString(t: string)
    requires "\"" <= t
    ensures ReadString(t).value == ""
  {
  }

  /** A string that begins with an escape sequence does not read back as it was. */
  lemma EscapeNotExact(s: string, rest: string)
    requires s != "" && s[0] == '\\'
    requires ReadString(s + "\"" + rest).Success?
    ensures ReadString(s + "\"" + rest).value != s
  {
    hide ReadString, ReadChar;
    var t := s + "\"" + rest;
    var v := ReadString(t).value;
    assert t[0] == '\\';
    ReadStringStep(t);
    ReadShape(t);
    LongEscape(t);
    if v == s {
      var p := ReadChar(t).value;
      assert p[0] == v[0] == t[0];
      assert p == "\\";
      ReadWithin(s, rest);
      var k := Taken(t);
      assert s[k..] + "\"" + rest == ReadChar(t).rest;
      assert '"' !in s[1..k] by { assert s[1..k] == s[..k][1..]; }
      assert v[1..] == ReadString(ReadChar(t).rest).value;
      assert s[1..] == s[1..k] + s[k..];
      LagPersists(s[1..k], s[k..], rest);
    }
  }

  /** A string printed without escaping reads back as it was only if it is plain. */
  lemma {:induction false} StringExact(s: string, rest: string)
    requires ReadString(s + "\"" + rest).Success? && ReadString(s + "\"" + rest).value == s
    ensures IsPlain(s)
    decreases |s|
  {
    if s != "" {
      hide ReadString, ReadChar;
      var t := s + "\"" + rest;
      assert t[0] == s[0];
      if t[0] == '"' {
        EmptyString(t);
      } else if t[0] == '\\' {
        EscapeNotExact(s, rest);
      } else {
        ReadStringStep(t);
        RawByte(t);
        var tail := ReadString(t[1..]).value;
        assert t[1..] == s[1..] + "\"" + rest;
        assert ([s[0]] + tail)[1..] == tail;
        StringExact(s[1..], rest);
      }
    }
  }

  lemma RawByte(t: string)
    requires ReadChar(t).Success? && t[0] != '\\'
    ensures t[0] >= ' ' && t[0] != '"' && ReadChar(t) == Success([t[0]], t[1..])
  {
  }

  lemma LongEscape(t: string)
    requires ReadChar(t).Success? && t[0] == '\\'
    ensures Taken(t) >= 2
  {
  }

  lemma StringValueExact(s: string, rest: string)
    requires ParseValue("\"" + s + "\"" + rest).Success? && ParseValue("\"" + s + "\"" + rest).value == String(s)
    ensures IsPlain(s)
  {
    var t := "\"" + s + "\"" + rest;
    assert t[0] == '"' && t[1..] == s + "\"" + rest;
    StringExact(s, rest);
  }

  lemma KeyExact(key: string, tail: string)
    requires ParseMember("\"" + key + "\"" + tail).Success? && ParseMember("\"" + key + "\"" + tail).value.key == key
    ensures IsPlain(key)
  {
    var t := "\"" + key + "\"" + tail;
    hide ParseValue, IsPlain;
    assert t[0] == '"' && t[1..] == key + "\"" + tail;
    StringExact(key, tail);
  }

  /** A printed value, after any whitespace. */
  function Printed(indent: string, v: Value, rest: string): string {
    SkipWhitespace(ValueText(indent, v) + rest)
  }

  lemma {:induction false} ValueExact(indent: string, v: Value, rest: string)
    requires IsIndent(indent) && EndsValue(rest)
    requires ParseValue(Printed(indent, v, rest)).Success? && ParseValue(Printed(indent, v, rest)).value == v
    ensures Printable(v)
    decreases v, 1
  {
    match v
    case Number(l) => ReadNumberIsNumber(Printed(indent, v, rest));
    case String(s) =>
      assert (ValueText(indent, v) + rest)[0] == '"';
      assert Printed(indent, v, rest) == "\"" + s + "\"" + rest;
      StringValueExact(s, rest);
    case Object(ms) =>
      ClosingOf(MembersText(INNER, ms), indent, rest);
      assert (ValueText(indent, v) + rest)[0] == '{';
      ObjectExact(INNER, ms, indent, rest);
    case _ =>
  }

  lemma {:induction false} ObjectExact(inner: string, ms: seq<Member>, indent: string, rest: string)
    requires IsIndent(inner) && IsIndent(indent)
    requires var r := ParseValue("{\n" + MembersText(inner, ms) + Closing(indent, rest));
      r.Success? && r.value == Object(ms)
    ensures Printable(Object(ms))
    decreases ms, 1
  {
    if ms != [] {
      hide ParseValue, ParseMembers, MembersText, Closing, Printable;
      var body := MembersText(inner, ms) + Closing(indent, rest);
      assert "{\n" + MembersText(inner, ms) + Closing(indent, rest) == "{\n" + body;
      ParseObject(body);
      MembersExact(inner, ms, indent, rest);
    }
  }

  lemma {:induction false} MembersExact(inner: string, ms: seq<Member>, indent: string, rest: string)
    requires IsIndent(inner) && IsIndent(indent) && ms != []
    requires var r := ParseMembers(SkipWhitespace(MembersText(inner, ms) + Closing(indent, rest)));
      r.Success? && r.value == ms
    ensures Printable(Object(ms))
    decreases ms, 0
  {
    hide ParseMember, ParseMembers, MemberText, Closing, SkipWhitespace, IsPlain;
    ClosingEnds(indent, rest);
    var follow :=
      if |ms| == 1 then Closing(indent, rest) else ",\n" + (MembersText(inner, ms[1..]) + Closing(indent, rest));
    assert MembersText(inner, ms) + Closing(indent, rest) == MemberText(inner, ms[0]) + follow;
    var t := SkipWhitespace(MemberText(inner, ms[0]) + follow);
    FirstOfMembers(t, ms);
    MemberExact(inner, ms[0], follow);
    MemberRead(inner, ms[0], follow);
    if |ms| > 1 {
      RestOfMembers(t, ms, MembersText(inner, ms[1..]) + Closing(indent, rest));
      MembersExact(inner, ms[1..], indent, rest);
      assert ms == [ms[0]] + ms[1..];
    }
  }

  lemma FirstOfMembers(t: string, ms: seq<Member>)
    requires ms != [] && ParseMembers(t).Success? && ParseMembers(t).value == ms
    ensures ParseMember(t).Success? && ParseMember(t).value == ms[0]
  {
    hide ParseMember;
  }

  lemma RestOfMembers(t: string, ms: seq<Member>, next: string)
    requires |ms| > 1 && ParseMembers(t).Success? && ParseMembers(t).value == ms
    requires ParseMember(t) == Success(ms[0], ",\n" + next)
    ensures ParseMembers(SkipWhitespace(next)).Success? && ParseMembers(SkipWhitespace(next)).value == ms[1..]
  {
    hide ParseMember;
    var follow := ",\n" + next;
    assert follow[0] == ',' && follow[1..] == "\n" + next && ("\n" + next)[1..] == next;
  }

  lemma {:induction false} MemberExact(inner: string, m: Member, rest: string)
    requires IsIndent(inner) && EndsValue(rest)
    requires var r := ParseMember(SkipWhitespace(MemberText(inner, m) + rest)); r.Success? && r.value == m
    ensures IsPlain(m.key) && Printable(m.value)
    decreases m, 0
  {
    hide ParseMember, ParseValue, MemberText, ValueText, Printable, IsPlain;
    var body := ValueText(inner, m.value) + rest;
    MemberOpens(inner, m, rest);
    KeyExact(m.key, ": " + body);
    KeyRead(m.key, body);
    ValueExact(inner, m.value, rest);
  }

  /** The document reads back as it was exactly when every number is a JSON number and every string and key is free of
      quotation marks, backslashes and control characters. */
  lemma DocumentReadIffPrintable(ms: seq<Member>)
    ensures ParseText(DocumentText(ms)) == Some(Object(ms)) <==> Printable(Object(ms))
  {
    if Printable(Object(ms)) {
      DocumentRead(ms);
    }
    if ParseText(DocumentText(ms)) == Some(Object(ms)) {
      assert DocumentText(ms) == "{\n" + MembersText("  ", ms) + Closing("", "\n");
      assert DocumentText(ms)[0] == '{';
      ObjectExact("  ", ms, "", "\n");
    }
  }
}
