/**
 The logger's attribute escaper: four replacements, one after the other.

 They amount to one substitution per character, and the broker's parser reads the result
 back exactly when the value has no double quote.
 */
module AttrEscape {
  import opened Sequences
  import opened TextSearch
  import opened SlogLine
  import opened SlogPrinter

  /** An attribute value: a text, or a value of another type. */
  datatype AttrValue<T> = Text(text: string) | Other(value: T)

  function ReplaceAll(s: string, from: char, into: string): string {
    if s == "" then "" else (if s[0] == from then into else [s[0]]) + ReplaceAll(s[1..], from, into)
  }

  function Sanitize(s: string): string {
    var s1 := ReplaceAll(s, '\\', "\\\\");
    var s2 := ReplaceAll(s1, '\n', "\\n");
    var s3 := ReplaceAll(s2, '\t', "\\t");
    ReplaceAll(s3, '\r', "\\r")
  }

  function SanitizeAttrValue<T>(value: AttrValue<T>): AttrValue<T> {
    match value
    case Text(s) => Text(Sanitize(s))
    case Other(_) => value
  }

  // ---------- The four passes are one substitution ----------

  lemma {:induction false} ReplaceCat(a: string, b: string, from: char, into: string)
    ensures ReplaceAll(a + b, from, into) == ReplaceAll(a, from, into) + ReplaceAll(b, from, into)
    decreases |a|
  {
    if a == "" {
      assert a + b == b;
    } else {
      assert (a + b)[1..] == a[1..] + b;
      ReplaceCat(a[1..], b, from, into);
    }
  }

  lemma SanitizeCat(a: string, b: string)
    ensures Sanitize(a + b) == Sanitize(a) + Sanitize(b)
  {
    ReplaceCat(a, b, '\\', "\\\\");
    var a1, b1 := ReplaceAll(a, '\\', "\\\\"), ReplaceAll(b, '\\', "\\\\");
    ReplaceCat(a1, b1, '\n', "\\n");
    var a2, b2 := ReplaceAll(a1, '\n', "\\n"), ReplaceAll(b1, '\n', "\\n");
    ReplaceCat(a2, b2, '\t', "\\t");
    ReplaceCat(ReplaceAll(a2, '\t', "\\t"), ReplaceAll(b2, '\t', "\\t"), '\r', "\\r");
  }

  lemma ReplaceOne(c: char, from: char, into: string)
    ensures ReplaceAll([c], from, into) == if c == from then into else [c]
  {
    assert ReplaceAll([c], from, into) == (if c == from then into else [c]) + ReplaceAll("", from, into);
  }

  lemma ReplaceTwo(c: char, d: char, from: char, into: string)
    requires c != from && d != from
    ensures ReplaceAll([c, d], from, into) == [c, d]
  {
    assert [c, d] == [c] + [d];
    ReplaceCat([c], [d], from, into);
    ReplaceOne(c, from, into);
    ReplaceOne(d, from, into);
  }

  lemma SanitizeChar(c: char)
    ensures Sanitize([c]) == EncodeChar(c, false)
  {
    ReplaceOne(c, '\\', "\\\\");
    ReplaceTwo('\\', '\\', '\n', "\\n");
    ReplaceTwo('\\', '\\', '\t', "\\t");
    ReplaceTwo('\\', '\\', '\r', "\\r");
    ReplaceOne(c, '\n', "\\n");
    ReplaceTwo('\\', 'n', '\t', "\\t");
    ReplaceTwo('\\', 'n', '\r', "\\r");
    ReplaceOne(c, '\t', "\\t");
    ReplaceTwo('\\', 't', '\r', "\\r");
    ReplaceOne(c, '\r', "\\r");
  }

  /** The four successive replacements equal one substitution per character. */
  lemma {:induction false} SanitizeIsSubstitution(s: string)
    ensures Sanitize(s) == Encode(s, false)
    decreases |s|
  {
    if s != "" {
      assert s == [s[0]] + s[1..];
      SanitizeCat([s[0]], s[1..]);
      SanitizeChar(s[0]);
      SanitizeIsSubstitution(s[1..]);
    }
  }

  /** A sanitised text stays on one line. */
  lemma {:induction false} EncodedHasNoControls(s: string)
    ensures '\n' !in Encode(s, false) && '\t' !in Encode(s, false) && '\r' !in Encode(s, false)
    decreases |s|
  {
    if s != "" {
      EncodedHasNoControls(s[1..]);
    }
  }

  // ---------- Nothing is lost ----------

  lemma {:induction false} EncodeCat(a: string, b: string, quotes: bool)
    ensures Encode(a + b, quotes) == Encode(a, quotes) + Encode(b, quotes)
    decreases |a|
  {
    if a == "" {
      assert a + b == b;
    } else {
      assert (a + b)[1..] == a[1..] + b;
      EncodeCat(a[1..], b, quotes);
    }
  }

  /** Two characters, or a character and nothing, never have encodings that begin alike. */
  lemma EncodedHeads(c: char, d: char, a: string, b: string)
    requires EncodeChar(c, false) + a == EncodeChar(d, false) + b
    ensures c == d && a == b
  {
    var x, y := EncodeChar(c, false) + a, EncodeChar(d, false) + b;
    assert x[0] == EncodeChar(c, false)[0] && y[0] == EncodeChar(d, false)[0];
    assert x[0] == '\\' ==> x[1] == EncodeChar(c, false)[1] && y[1] == EncodeChar(d, false)[1];
    assert x[|EncodeChar(c, false)|..] == a && y[|EncodeChar(d, false)|..] == b;
  }

  lemma {:induction false} EncodeInjective(s: string, t: string)
    requires Encode(s, false) == Encode(t, false)
    ensures s == t
    decreases |s|
  {
    if s != "" && t != "" {
      EncodedHeads(s[0], t[0], Encode(s[1..], false), Encode(t[1..], false));
      EncodeInjective(s[1..], t[1..]);
      assert s == [s[0]] + s[1..] && t == [t[0]] + t[1..];
    }
  }

  /** Sanitising is injective, so different texts stay different, and it leaves no control character. */
  lemma SanitizeKeepsTexts(s: string, t: string)
    ensures Sanitize(s) == Sanitize(t) <==> s == t
    ensures '\n' !in Sanitize(s) && '\t' !in Sanitize(s) && '\r' !in Sanitize(s)
  {
    SanitizeIsSubstitution(s);
    SanitizeIsSubstitution(t);
    EncodedHasNoControls(s);
    if Encode(s, false) == Encode(t, false) {
      EncodeInjective(s, t);
    }
  }

  lemma SanitizedParts(before: string, after: string)
    ensures Sanitize(before + "\"" + after) == Encode(before, false) + "\"" + Encode(after, false)
  {
    SanitizeIsSubstitution(before + "\"" + after);
    EncodeCat(before + "\"", after, false);
    EncodeCat(before, "\"", false);
    assert Encode("\"", false) == "\"";
  }

  lemma QuoteStands(head: string, tail: string)
    ensures Has(head + "\"" + tail, 0, head) && At(head + "\"" + tail, |head|, Rune('"'))
  {
  }

  /** Up to its first double quote, a sanitised text is read back. */
  lemma SanitizedPrefixReads(before: string, after: string)
    requires '"' !in before
    ensures Quoted(Sanitize(before + "\"" + after) + "\"", 0).0 == before
  {
    var head, tail := Encode(before, false), Encode(after, false) + "\"";
    SanitizedParts(before, after);
    Regroup(head + "\"", Encode(after, false), "\"");
    QuoteStands(head, tail);
    QuotedReads(head + "\"" + tail, 0, before, false);
  }

  lemma RecoversIffNoQuote(s: string)
    ensures Quoted(Sanitize(s) + "\"", 0).0 == s <==> '"' !in s
  {
    var q := Until(s, 0, Rune('"'));
    UntilRune(s, 0, '"');
    if q == |s| {
      assert s[0..q] == s;
      SanitizeIsSubstitution(s);
      var line := Sanitize(s) + "\"";
      QuotedReads(line, 0, s, false);
    } else {
      assert s == s[..q] + "\"" + s[q + 1..];
      SanitizedPrefixReads(s[..q], s[q + 1..]);
    }
  }

  // ---------- Attribute values ----------

  /** Different values stay different; a text is left without line breaks and tabs, any other value as it is. */
  lemma SanitizeKeepsValues<T>(u: AttrValue<T>, v: AttrValue<T>)
    ensures SanitizeAttrValue(u) == SanitizeAttrValue(v) <==> u == v
    ensures match SanitizeAttrValue(u)
            case Text(s) => u.Text? && '\n' !in s && '\t' !in s && '\r' !in s
            case Other(value) => u == Other(value)
  {
    match (u, v)
    case (Text(s), Text(t)) => SanitizeKeepsTexts(s, t);
    case (Text(s), Other(_)) => SanitizeKeepsTexts(s, s);
    case _ =>
  }

  /** The parser's quoted value loop recovers a sanitised text iff the text has no double quote. */
  lemma ParserRecoversIffNoQuote<T>(value: AttrValue<T>)
    requires value.Text?
    ensures SanitizeAttrValue(value).Text?
    ensures Quoted(SanitizeAttrValue(value).text + "\"", 0).0 == value.text <==> '"' !in value.text
  {
    RecoversIffNoQuote(value.text);
  }
}
