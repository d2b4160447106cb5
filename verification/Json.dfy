/** JSON texts: a parser for the grammar of RFC 8259 (sections 2, 3, 4, 6 and 7) without arrays, the layout that
    benchmark/src/json_writer.c prints, and that the parser undoes the layout.  Strings are strings of bytes. */
module Json {
  import opened Decimal
  import opened Utf8

  datatype Option<T> = None | Some(value: T)

  /** Numbers are kept as written. */
  datatype Value =
    | Null
    | Bool(b: bool)
    | Number(lexeme: string)
    | String(chars: string)
    | Object(members: seq<Member>)

  datatype Member = Member(key: string, value: Value)

  // ---- Numbers (section 6) ----

  /** The places in `[ minus ] int [ frac ] [ exp ]`. */
  datatype NumberState = Start | Minus | Zero | Int | Point | Frac | E | ESign | Exp | Stuck

  function NumberStep(q: NumberState, c: char): NumberState {
    match q
    case Start => if c == '-' then Minus else if c == '0' then Zero else if IsDigit(c) then Int else Stuck
    case Minus => if c == '0' then Zero else if IsDigit(c) then Int else Stuck
    case Zero => if c == '.' then Point else if c == 'e' || c == 'E' then E else Stuck
    case Int =>
      if IsDigit(c) then Int else if c == '.' then Point else if c == 'e' || c == 'E' then E else Stuck
    case Point => if IsDigit(c) then Frac else Stuck
    case Frac => if IsDigit(c) then Frac else if c == 'e' || c == 'E' then E else Stuck
    case E => if c == '+' || c == '-' then ESign else if IsDigit(c) then Exp else Stuck
    case ESign => if IsDigit(c) then Exp else Stuck
    case Exp => if IsDigit(c) then Exp else Stuck
    case Stuck => Stuck
  }

  predicate Complete(q: NumberState) {
    q.Zero? || q.Int? || q.Frac? || q.Exp?
  }

  /** From `q`, all of `s` completes a number. */
  predicate CompletesNumber(q: NumberState, s: string)
    decreases |s|
  {
    if s == "" then Complete(q) else CompletesNumber(NumberStep(q, s[0]), s[1..])
  }

  predicate IsNumber(s: string) {
    CompletesNumber(Start, s)
  }

  /** The length of the longest run of characters from `q` that keeps to the grammar, if it completes a number. */
  function ScanNumber(q: NumberState, s: string): (n: Option<nat>)
    ensures n.Some? ==> n.value <= |s|
    decreases |s|
  {
    if s == "" || NumberStep(q, s[0]).Stuck? then (if Complete(q) then Some(0) else None)
    else
      var n := ScanNumber(NumberStep(q, s[0]), s[1..]);
      if n.Some? then Some(n.value + 1) else None
  }

  // ---- Strings (section 7) ----

  predicate IsHex(c: char) {
    IsDigit(c) || 'a' <= c <= 'f' || 'A' <= c <= 'F'
  }

  datatype Parsed<T> = Failure | Success(value: T, rest: string)

  function HexDigit(c: char): (n: nat)
    requires IsHex(c)
    ensures n < 16
  {
    if IsDigit(c) then c as nat - '0' as nat
    else if 'a' <= c <= 'f' then c as nat - 'a' as nat + 10
    else c as nat - 'A' as nat + 10
  }

  /** The code point of `\uXXXX`; half of a surrogate pair reads as the replacement character. */
  function CodePoint(a: char, b: char, c: char, d: char): (n: nat)
    requires IsHex(a) && IsHex(b) && IsHex(c) && IsHex(d)
    ensures IsScalar(n)
  {
    var n := 0x1000 * HexDigit(a) + 0x100 * HexDigit(b) + 0x10 * HexDigit(c) + HexDigit(d);
    if 0xD800 <= n < 0xE000 then 0xFFFD else n
  }

  function Escaped(c: char): Option<char> {
    match c
    case '"' => Some('"')
    case '\\' => Some('\\')
    case '/' => Some('/')
    case 'b' => Some('\U{0008}')
    case 'f' => Some('\U{000C}')
    case 'n' => Some('\n')
    case 'r' => Some('\r')
    case 't' => Some('\t')
    case _ => None
  }

  /** A byte or an escape sequence at the start of `s`. */
  function ReadChar(s: string): (r: Parsed<string>)
    ensures r.Success? ==> |r.rest| < |s| && r.value != ""
  {
    if s == "" || s[0] < ' ' || s[0] == '"' then Failure
    else if s[0] != '\\' then Success([s[0]], s[1..])
    else if |s| >= 2 && Escaped(s[1]).Some? then Success([Escaped(s[1]).value], s[2..])
    else if |s| >= 6 && s[1] == 'u' && IsHex(s[2]) && IsHex(s[3]) && IsHex(s[4]) && IsHex(s[5]) then
      Success(Encode(CodePoint(s[2], s[3], s[4], s[5])), s[6..])
    else Failure
  }

  /** The bytes up to the closing quotation mark, with escape sequences replaced. */
  function ReadString(s: string): (r: Parsed<string>)
    ensures r.Success? ==> |r.rest| < |s|
    decreases |s|
  {
    if "\"" <= s then Success("", s[1..])
    else
      var c := ReadChar(s);
      if c.Failure? then Failure
      else
        var t := ReadString(c.rest);
        if t.Success? then Success(c.value + t.value, t.rest) else Failure
  }

  // ---- Values, objects and texts (sections 2 to 4) ----

  predicate IsWhitespace(c: char) {
    c == ' ' || c == '\t' || c == '\n' || c == '\r'
  }

  function SkipWhitespace(s: string): (r: string)
    ensures |r| <= |s|
  {
    if s != "" && IsWhitespace(s[0]) then SkipWhitespace(s[1..]) else s
  }

  /** Parses a value at the start of `s`. */
  function ParseValue(s: string): (r: Parsed<Value>)
    ensures r.Success? ==> |r.rest| < |s|
    decreases |s|, 0
  {
    if "null" <= s then Success(Null, s[4..])
    else if "true" <= s then Success(Bool(true), s[4..])
    else if "false" <= s then Success(Bool(false), s[5..])
    else if "\"" <= s then
      var t := ReadString(s[1..]);
      if t.Success? then Success(String(t.value), t.rest) else Failure
    else if "{" <= s then
      var t := SkipWhitespace(s[1..]);
      if "}" <= t then Success(Object([]), t[1..])
      else
        var ms := ParseMembers(t);
        if ms.Success? then Success(Object(ms.value), ms.rest) else Failure
    else
      var n := ScanNumber(Start, s);
      if n.Some? && n.value > 0 then Success(Number(s[..n.value]), s[n.value..]) else Failure
  }

  /** Parses one or more members and the closing brace. */
  function ParseMembers(s: string): (r: Parsed<seq<Member>>)
    ensures r.Success? ==> |r.rest| < |s|
    decreases |s|, 1
  {
    var m := ParseMember(s);
    if m.Failure? then Failure
    else
      var t := SkipWhitespace(m.rest);
      if "}" <= t then Success([m.value], t[1..])
      else if "," <= t then
        var ms := ParseMembers(SkipWhitespace(t[1..]));
        if ms.Success? then Success([m.value] + ms.value, ms.rest) else Failure
      else Failure
  }

  function ParseMember(s: string): (r: Parsed<Member>)
    ensures r.Success? ==> |r.rest| < |s|
    decreases |s|, 0
  {
    if !("\"" <= s) then Failure
    else
      var key := ReadString(s[1..]);
      if key.Failure? then Failure
      else
        var t := SkipWhitespace(key.rest);
        if !(":" <= t) then Failure
        else
          var v := ParseValue(SkipWhitespace(t[1..]));
          if v.Success? then Success(Member(key.value, v.value), v.rest) else Failure
  }

  /** A text is one value, with whitespace around it and nothing else. */
  function ParseText(s: string): Option<Value> {
    var v := ParseValue(SkipWhitespace(s));
    if v.Success? && SkipWhitespace(v.rest) == "" then Some(v.value) else None
  }

  // ---- The layout ----

  /** Free of quotation marks, backslashes and control characters. */
  predicate IsPlain(s: string) {
    forall i :: 0 <= i < |s| ==> s[i] >= ' ' && s[i] != '"' && s[i] != '\\'
  }

  predicate Printable(v: Value) {
    match v
    case Number(l) => IsNumber(l)
    case String(s) => IsPlain(s)
    case Object(ms) => forall m :: m in ms ==> IsPlain(m.key) && Printable(m.value)
    case _ => true
  }

  const INNER := "    "

  /** A value; the members of an object stand on lines of their own, all indented alike, and the closing brace is
      indented like the line that opened it. */
  function ValueText(indent: string, v: Value): string
    decreases v
  {
    match v
    case Null => "null"
    case Bool(b) => if b then "true" else "false"
    case Number(l) => l
    case String(s) => "\"" + s + "\""
    case Object(ms) => "{\n" + MembersText(INNER, ms) + "\n" + indent + "}"
  }

  function MemberText(indent: string, m: Member): string
    decreases m
  {
    indent + "\"" + m.key + "\": " + ValueText(indent, m.value)
  }

  function MembersText(indent: string, ms: seq<Member>): string
    decreases ms
  {
    if ms == [] then ""
    else if |ms| == 1 then MemberText(indent, ms[0])
    else MemberText(indent, ms[0]) + ",\n" + MembersText(indent, ms[1..])
  }

  /** The whole file. */
  function DocumentText(ms: seq<Member>): string {
    "{\n" + MembersText("  ", ms) + "\n}\n"
  }

  // ---- The parser undoes the layout ----

  lemma {:induction false} NumberRead(q: NumberState, l: string, rest: string)
    requires CompletesNumber(q, l)
    requires rest == "" || rest[0] in ",\n"
    ensures ScanNumber(q, l + rest) == Some(|l|)
    decreases |l|
  {
    if l == "" {
      assert l + rest == rest;
    } else {
      assert (l + rest)[1..] == l[1..] + rest;
      StuckStays(l[1..]);
      NumberRead(NumberStep(q, l[0]), l[1..], rest);
    }
  }

  lemma {:induction false} StuckStays(l: string)
    ensures !CompletesNumber(Stuck, l)
  {
    if l != "" {
      StuckStays(l[1..]);
    }
  }

  lemma {:induction false} StringRead(s: string, rest: string)
    requires IsPlain(s)
    ensures ReadString(s + "\"" + rest) == Success(s, rest)
  {
    var t := s + "\"" + rest;
    if s == "" {
      assert t == "\"" + rest && t[1..] == rest;
    } else {
      assert t[1..] == s[1..] + "\"" + rest && t[0] == s[0];
      StringRead(s[1..], rest);
      assert [s[0]] + s[1..] == s;
    }
  }

  predicate IsIndent(s: string) {
    forall i :: 0 <= i < |s| ==> s[i] == ' '
  }

  lemma {:induction false} IndentSkipped(indent: string, s: string)
    requires IsIndent(indent)
    ensures SkipWhitespace(indent + s) == SkipWhitespace(s)
  {
    if indent == "" {
      assert indent + s == s;
    } else {
      assert (indent + s)[1..] == indent[1..] + s;
      IndentSkipped(indent[1..], s);
    }
  }

  /** What stands between the last member of an object and what follows the object. */
  function Closing(indent: string, rest: string): string {
    "\n" + indent + "}" + rest
  }

  lemma ClosingSkipped(indent: string, rest: string)
    requires IsIndent(indent)
    ensures SkipWhitespace(Closing(indent, rest)) == "}" + rest
  {
    assert Closing(indent, rest)[1..] == indent + ("}" + rest);
    IndentSkipped(indent, "}" + rest);
  }

  predicate EndsValue(rest: string) {
    rest == "" || rest[0] in ",\n"
  }

  lemma NumberValueRead(l: string, rest: string)
    requires IsNumber(l) && EndsValue(rest)
    ensures ParseValue(l + rest) == Success(Number(l), rest)
  {
    assert l != "";
    StuckStays(l[1..]);
    NumberRead(Start, l, rest);
    var s := l + rest;
    assert s[0] == '-' || IsDigit(s[0]);
    assert s[..|l|] == l && s[|l|..] == rest;
  }

  lemma StringValueRead(t: string, rest: string)
    requires IsPlain(t)
    ensures ParseValue("\"" + t + "\"" + rest) == Success(String(t), rest)
  {
    var s := "\"" + t + "\"" + rest;
    StringRead(t, rest);
    assert s[0] == '"' && s[1..] == t + "\"" + rest;
  }

  lemma {:induction false} ValueRead(indent: string, v: Value, rest: string)
    requires IsIndent(indent) && Printable(v) && EndsValue(rest)
    ensures ParseValue(ValueText(indent, v) + rest) == Success(v, rest)
    decreases v, 1
  {
    hide ParseMembers, MembersText, Closing, IsPlain;
    var s := ValueText(indent, v) + rest;
    match v
    case Null => assert s[4..] == rest;
    case Bool(b) =>
      if b {
        assert s[0] == 't' && s[4..] == rest;
      } else {
        assert s[0] == 'f' && s[5..] == rest;
      }
    case Number(l) => NumberValueRead(l, rest);
    case String(t) => StringValueRead(t, rest);
    case Object(ms) =>
      ObjectRead(INNER, ms, indent, rest);
      ClosingOf(MembersText(INNER, ms), indent, rest);
  }

  lemma ClosingOf(body: string, indent: string, rest: string)
    ensures "{\n" + body + "\n" + indent + "}" + rest == "{\n" + body + Closing(indent, rest)
  {
  }

  lemma {:induction false} ObjectRead(inner: string, ms: seq<Member>, indent: string, rest: string)
    requires IsIndent(inner) && IsIndent(indent) && Printable(Object(ms))
    ensures ParseValue("{\n" + MembersText(inner, ms) + Closing(indent, rest)) == Success(Object(ms), rest)
    decreases ms, 1
  {
    hide ParseValue, ParseMembers, MembersText, Closing, Printable;
    var body := MembersText(inner, ms) + Closing(indent, rest);
    assert "{\n" + MembersText(inner, ms) + Closing(indent, rest) == "{\n" + body;
    ParseObject(body);
    if ms == [] {
      assert MembersText(inner, []) == "" by { NoMembers(inner); }
      assert body == Closing(indent, rest);
      ClosingSkipped(indent, rest);
    } else {
      MembersRead(inner, ms, indent, rest);
    }
  }

  /** Behind an opening brace and a newline the parser reads members, or the closing brace. */
  lemma ParseObject(body: string)
    ensures ParseValue("{\n" + body)
         == var t := SkipWhitespace(body);
            if "}" <= t then Success(Object([]), t[1..])
            else
              var ms := ParseMembers(t);
              if ms.Success? then Success(Object(ms.value), ms.rest) else Failure
  {
    hide ParseMembers;
    var s := "{\n" + body;
    assert s[0] == '{' && s[1..] == "\n" + body && ("\n" + body)[1..] == body;
  }

  lemma NoMembers(inner: string)
    ensures MembersText(inner, []) == ""
  {
  }

  lemma LastMember(t: string, m: Member, c: string, rest: string)
    requires ParseMember(t) == Success(m, c) && SkipWhitespace(c) == "}" + rest
    ensures ParseMembers(t) == Success([m], rest)
  {
    hide ParseMember;
  }

  lemma NextMember(t: string, m: Member, next: string, ms: seq<Member>, rest: string)
    requires ParseMember(t) == Success(m, ",\n" + next)
    requires ParseMembers(SkipWhitespace(next)) == Success(ms, rest)
    ensures ParseMembers(t) == Success([m] + ms, rest)
  {
    hide ParseMember;
    var follow := ",\n" + next;
    assert follow[0] == ',' && follow[1..] == "\n" + next && ("\n" + next)[1..] == next;
  }

  lemma {:induction false} MembersRead(inner: string, ms: seq<Member>, indent: string, rest: string)
    requires IsIndent(inner) && IsIndent(indent) && ms != [] && Printable(Object(ms))
    ensures var t := SkipWhitespace(MembersText(inner, ms) + Closing(indent, rest));
      ParseMembers(t) == Success(ms, rest) && !("}" <= t)
    decreases ms, 0
  {
    hide ParseMember, ParseMembers, MemberText, Closing, SkipWhitespace;
    var end := Closing(indent, rest);
    ClosingEnds(indent, rest);
    if |ms| == 1 {
      MemberRead(inner, ms[0], end);
      ClosingSkipped(indent, rest);
      LastMember(SkipWhitespace(MemberText(inner, ms[0]) + end), ms[0], end, rest);
      assert [ms[0]] == ms;
    } else {
      var next := MembersText(inner, ms[1..]) + end;
      var follow := ",\n" + next;
      assert MembersText(inner, ms) + end == MemberText(inner, ms[0]) + follow;
      MemberRead(inner, ms[0], follow);
      MembersRead(inner, ms[1..], indent, rest);
      NextMember(SkipWhitespace(MemberText(inner, ms[0]) + follow), ms[0], next, ms[1..], rest);
      assert [ms[0]] + ms[1..] == ms;
    }
  }

  lemma ClosingEnds(indent: string, rest: string)
    ensures Closing(indent, rest) != "" && EndsValue(Closing(indent, rest))
  {
  }

  /** Behind a plain key the parser reads the value. */
  lemma KeyRead(key: string, body: string)
    requires IsPlain(key)
    ensures ParseMember("\"" + key + "\"" + (": " + body))
         == var v := ParseValue(SkipWhitespace(body));
            if v.Success? then Success(Member(key, v.value), v.rest) else Failure
  {
    hide ParseValue, IsPlain, ReadString;
    var tail := ": " + body;
    var t := "\"" + key + "\"" + tail;
    StringRead(key, tail);
    assert t[0] == '"' && t[1..] == key + "\"" + tail;
    assert tail[0] == ':' && tail[1..] == " " + body && (" " + body)[1..] == body;
  }

  /** What the parser sees of a printed member. */
  lemma MemberOpens(inner: string, m: Member, rest: string)
    requires IsIndent(inner)
    ensures SkipWhitespace(MemberText(inner, m) + rest)
         == "\"" + m.key + "\"" + (": " + (ValueText(inner, m.value) + rest))
  {
    hide ValueText;
    var t := "\"" + m.key + "\"" + (": " + (ValueText(inner, m.value) + rest));
    assert MemberText(inner, m) + rest == inner + t;
    IndentSkipped(inner, t);
  }

  lemma {:induction false} MemberRead(inner: string, m: Member, rest: string)
    requires IsIndent(inner) && IsPlain(m.key) && Printable(m.value) && rest != "" && EndsValue(rest)
    ensures var t := SkipWhitespace(MemberText(inner, m) + rest);
      ParseMember(t) == Success(m, rest) && !("}" <= t)
    decreases m, 0
  {
    hide ParseMember, ParseValue, MemberText, ValueText, SkipWhitespace, IsPlain, Printable;
    var body := ValueText(inner, m.value) + rest;
    MemberOpens(inner, m, rest);
    assert SkipWhitespace(MemberText(inner, m) + rest)[0] == '"';
    ValueRead(inner, m.value, rest);
    ValueStart(inner, m.value, rest);
    KeyRead(m.key, body);
  }

  /** A printed value does not begin with whitespace. */
  lemma ValueStart(indent: string, v: Value, rest: string)
    requires Printable(v)
    ensures SkipWhitespace(ValueText(indent, v) + rest) == ValueText(indent, v) + rest
  {
    if v.Number? {
      assert v.lexeme != "";
      StuckStays(v.lexeme[1..]);
    }
    assert !IsWhitespace((ValueText(indent, v) + rest)[0]);
  }

  /** Reading the printed document gives back exactly its members, with nothing left over. */
  lemma DocumentRead(ms: seq<Member>)
    requires Printable(Object(ms))
    ensures ParseText(DocumentText(ms)) == Some(Object(ms))
  {
    ObjectRead("  ", ms, "", "\n");
    assert DocumentText(ms) == "{\n" + MembersText("  ", ms) + Closing("", "\n");
    assert "\n"[1..] == "";
  }
}
