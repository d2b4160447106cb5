/** The document as a file of bytes: section 8.1 of RFC 8259 demands UTF-8.  The layout keeps to ASCII around the
    strings, so that the file is well formed exactly when each of them is. */
module JsonFile {
  import opened Json
  import opened JsonExact
  import opened Utf8

  /** Every string and key is well-formed UTF-8. */
  predicate WellFormed(v: Value) {
    match v
    case String(s) => IsUtf8(s)
    case Object(ms) => forall m :: m in ms ==> IsUtf8(m.key) && WellFormed(m.value)
    case _ => true
  }

  /** A reader of files rejects what is not UTF-8. */
  function ReadFile(s: string): Option<Value> {
    if IsUtf8(s) then ParseText(s) else None
  }

  lemma {:induction false} NumberIsAscii(q: NumberState, l: string)
    requires CompletesNumber(q, l)
    ensures IsAscii(l)
    decreases |l|
  {
    if l != "" {
      StuckStays(l[1..]);
      NumberIsAscii(NumberStep(q, l[0]), l[1..]);
      assert l == [l[0]] + l[1..];
    }
  }

  /** A text between two pieces of ASCII, the second not empty. */
  lemma Enclosed(before: string, s: string, after: string)
    requires IsAscii(before) && IsAscii(after) && after != ""
    ensures IsUtf8(before + s + after) <==> IsUtf8(s)
  {
    hide Run;
    assert before + s + after == before + (s + after);
    AfterAscii(before, s + after);
    CutBeforeAscii(s, after);
    AsciiRuns(after);
  }

  lemma {:induction false} ValueUtf8(indent: string, v: Value)
    requires IsIndent(indent) && Printable(v)
    ensures IsUtf8(ValueText(indent, v)) <==> WellFormed(v)
    decreases v, 1
  {
    hide Run, MembersText;
    match v
    case Number(l) => NumberIsAscii(Start, l); AsciiRuns(l);
    case String(s) => Enclosed("\"", s, "\"");
    case Object(ms) =>
      MembersUtf8(INNER, ms);
      var after := "\n" + indent + "}";
      assert ValueText(indent, v) == "{\n" + MembersText(INNER, ms) + after;
      Enclosed("{\n", MembersText(INNER, ms), after);
    case _ => AsciiRuns(ValueText(indent, v));
  }

  lemma {:induction false} MemberUtf8(indent: string, m: Member)
    requires IsIndent(indent) && Printable(m.value)
    ensures IsUtf8(MemberText(indent, m)) <==> IsUtf8(m.key) && WellFormed(m.value)
    decreases m, 0
  {
    hide Run, ValueText, WellFormed, Printable;
    var value := ValueText(indent, m.value);
    ValueUtf8(indent, m.value);
    AfterAscii("\": ", value);
    CutBeforeAscii(m.key, "\": " + value);
    AfterAscii(indent + "\"", m.key + ("\": " + value));
    assert MemberText(indent, m) == (indent + "\"") + (m.key + ("\": " + value));
  }

  lemma FirstAndRest(ms: seq<Member>)
    requires ms != []
    ensures WellFormed(Object(ms)) <==>
              IsUtf8(ms[0].key) && WellFormed(ms[0].value) && WellFormed(Object(ms[1..]))
    ensures Printable(Object(ms)) ==> Printable(ms[0].value) && Printable(Object(ms[1..]))
  {
    hide IsUtf8;
    assert ms == [ms[0]] + ms[1..];
  }

  lemma MembersTextParts(indent: string, ms: seq<Member>)
    requires ms != []
    ensures |ms| == 1 ==> MembersText(indent, ms) == MemberText(indent, ms[0])
    ensures |ms| > 1 ==> MembersText(indent, ms) == MemberText(indent, ms[0]) + ",\n" + MembersText(indent, ms[1..])
  {
    hide MemberText;
  }

  lemma Joined(s: string, t: string)
    ensures IsUtf8(s + ",\n" + t) <==> IsUtf8(s) && IsUtf8(t)
  {
    hide Run;
    assert s + ",\n" + t == s + (",\n" + t);
    AfterAscii(",\n", t);
    CutBeforeAscii(s, ",\n" + t);
  }

  lemma {:induction false} MembersUtf8(indent: string, ms: seq<Member>)
    requires IsIndent(indent) && Printable(Object(ms))
    ensures IsUtf8(MembersText(indent, ms)) <==> WellFormed(Object(ms))
    decreases ms, 0
  {
    if ms == [] {
      AsciiRuns("");
    } else {
      assert WellFormed(Object([]));
      hide IsUtf8, MemberText, MembersText, WellFormed, Printable;
      FirstAndRest(ms);
      MembersTextParts(indent, ms);
      MemberUtf8(indent, ms[0]);
      if |ms| > 1 {
        MembersUtf8(indent, ms[1..]);
        Joined(MemberText(indent, ms[0]), MembersText(indent, ms[1..]));
      } else {
        assert ms[1..] == [];
      }
    }
  }

  /** The written file reads back as it was exactly when every number is a JSON number, every string and key is free of
      quotation marks, backslashes and control characters, and every one of them is well-formed UTF-8. */
  lemma FileReadIff(ms: seq<Member>)
    ensures ReadFile(DocumentText(ms)) == Some(Object(ms)) <==> Printable(Object(ms)) && WellFormed(Object(ms))
  {
    DocumentReadIffPrintable(ms);
    if Printable(Object(ms)) {
      MembersUtf8("  ", ms);
      Enclosed("{\n", MembersText("  ", ms), "\n}\n");
    }
  }
}
