/**
 A printer for log lines, and the proof that the parser undoes it.

 A value is printed quoted, with escapes, or bare. Quoted values are arbitrary texts.
 */
module SlogPrinter {
  import opened Sequences
  import opened Wrappers
  import opened TextSearch
  import opened Space
  import opened SlogLine

  // ---------- Escaping ----------

  /** `quotes` says whether a double quote is escaped too. */
  function EncodeChar(c: char, quotes: bool): string {
    if c == '\\' then "\\\\"
    else if c == '\n' then "\\n"
    else if c == '\t' then "\\t"
    else if c == '\r' then "\\r"
    else if c == '"' && quotes then "\\\""
    else [c]
  }

  function Encode(s: string, quotes: bool): string {
    if s == "" then "" else EncodeChar(s[0], quotes) + Encode(s[1..], quotes)
  }

  lemma QuotedChar(line: string, i: nat, c: char, quotes: bool)
    requires Has(line, i, EncodeChar(c, quotes)) && (quotes || c != '"')
    ensures var next := i + |EncodeChar(c, quotes)|;
            && next <= |line|
            && Quoted(line, i).0 == [c] + Quoted(line, next).0
            && Quoted(line, i).1 == Quoted(line, next).1
  {
    var e := EncodeChar(c, quotes);
    assert line[i + 0] == e[0];
    assert |e| == 2 ==> line[i + 1] == e[1];
  }

  /** What is left to read behind the first character. */
  lemma EncodedRest(line: string, i: nat, v: string, quotes: bool)
    requires v != "" && Has(line, i, Encode(v, quotes))
    ensures var k := i + |EncodeChar(v[0], quotes)|;
            && Has(line, i, EncodeChar(v[0], quotes)) && Has(line, k, Encode(v[1..], quotes))
            && k + |Encode(v[1..], quotes)| == i + |Encode(v, quotes)|
  {
    HasCat(line, i, EncodeChar(v[0], quotes), Encode(v[1..], quotes));
  }

  lemma QuotedStep(line: string, i: nat, v: string, quotes: bool, end: nat)
    requires v != "" && Has(line, i, EncodeChar(v[0], quotes)) && (quotes || v[0] != '"')
    requires Quoted(line, i + |EncodeChar(v[0], quotes)|) == (v[1..], end)
    ensures Quoted(line, i) == (v, end)
  {
    QuotedChar(line, i, v[0], quotes);
    assert v == [v[0]] + v[1..];
  }

  lemma QuotedEnds(line: string, i: nat)
    requires At(line, i, Rune('"'))
    ensures Quoted(line, i) == ("", i + 1)
  {
  }

  /** A value stands encoded, character by character, between two positions. */
  predicate EncodedAt(line: string, i: nat, v: string, quotes: bool, end: nat)
    decreases |v|
  {
    if v == "" then i == end
    else Has(line, i, EncodeChar(v[0], quotes)) && (quotes || v[0] != '"')
         && EncodedAt(line, i + |EncodeChar(v[0], quotes)|, v[1..], quotes, end)
  }

  lemma NoQuoteRest(v: string)
    requires v != "" && '"' !in v
    ensures v[0] != '"' && '"' !in v[1..]
  {
    assert v == [v[0]] + v[1..];
  }

  lemma {:induction false} EncodedStands(line: string, i: nat, v: string, quotes: bool)
    requires Has(line, i, Encode(v, quotes)) && (quotes || '"' !in v)
    ensures EncodedAt(line, i, v, quotes, i + |Encode(v, quotes)|)
    decreases |v|
  {
    if v != "" {
      assert quotes || (v[0] != '"' && '"' !in v[1..]) by {
        if !quotes {
          NoQuoteRest(v);
        }
      }
      EncodedRest(line, i, v, quotes);
      EncodedStands(line, i + |EncodeChar(v[0], quotes)|, v[1..], quotes);
    }
  }

  lemma {:induction false} EncodedReads(line: string, i: nat, v: string, quotes: bool, end: nat)
    requires EncodedAt(line, i, v, quotes, end) && At(line, end, Rune('"'))
    ensures i <= |line| && Quoted(line, i) == (v, end + 1)
    decreases |v|
  {
    if v == "" {
      QuotedEnds(line, i);
    } else {
      EncodedReads(line, i + |EncodeChar(v[0], quotes)|, v[1..], quotes, end);
      QuotedStep(line, i, v, quotes, end + 1);
    }
  }

  /** Unescaping a quoted value gives back the text that was escaped. */
  lemma QuotedReads(line: string, i: nat, v: string, quotes: bool)
    requires Has(line, i, Encode(v, quotes)) && At(line, i + |Encode(v, quotes)|, Rune('"'))
    requires quotes || '"' !in v
    ensures Quoted(line, i) == (v, i + |Encode(v, quotes)| + 1)
  {
    EncodedStands(line, i, v, quotes);
    EncodedReads(line, i, v, quotes, i + |Encode(v, quotes)|);
  }

  // ---------- What is not an escape ----------

  /** No quote from one position up to another, and no backslash that escapes anything. */
  predicate Verbatim(line: string, i: nat, e: nat) {
    && i <= e <= |line|
    && forall k | i <= k < e ::
         && line[k] != '"'
         && (line[k] == '\\' ==> k + 1 == |line| || (k + 1 < e && line[k + 1] !in {'n', 't', 'r', '\\', '"'}))
  }

  lemma PairReads(line: string, i: nat, e: nat)
    requires Verbatim(line, i, e) && i < e && line[i] == '\\' && i + 1 < |line|
    ensures Verbatim(line, i + 2, e)
    ensures var (rest, next) := Quoted(line, i + 2); Quoted(line, i) == (['\\', line[i + 1]] + rest, next)
  {
    var c := line[i + 1];
    assert c !in {'n', 't', 'r', '\\', '"'};
    assert Unescaped(c) == ['\\', c];
  }

  lemma TwoAhead(line: string, i: nat, e: nat)
    requires i + 2 <= e <= |line|
    ensures [line[i], line[i + 1]] + line[i + 2..e] == line[i..e]
  {
  }

  /** A quoted value without quotes and escapes is read as it stands, up to its quote or the end of the line. */
  lemma {:induction false} VerbatimReads(line: string, i: nat, e: nat)
    requires Verbatim(line, i, e) && (e == |line| || line[e] == '"')
    ensures Quoted(line, i) == (line[i..e], if e < |line| then e + 1 else e)
    decreases e - i
  {
    if i == e {
    } else if line[i] == '\\' && i + 1 < |line| {
      PairReads(line, i, e);
      VerbatimReads(line, i + 2, e);
      TwoAhead(line, i, e);
    } else {
      VerbatimReads(line, i + 1, e);
      assert [line[i]] + line[i + 1..e] == line[i..e];
    }
  }

  // ---------- Printing ----------

  datatype Printed = Printed(key: string, value: string, quoted: bool)

  function PrintValue(p: Printed): string {
    if p.quoted then "\"" + Encode(p.value, true) + "\"" else p.value
  }

  function PrintField(p: Printed): string {
    p.key + "=" + PrintValue(p)
  }

  function PrintLine(ps: seq<Printed>): string {
    if ps == [] then ""
    else if |ps| == 1 then PrintField(ps[0])
    else PrintField(ps[0]) + " " + PrintLine(ps[1..])
  }

  function FieldsOf(ps: seq<Printed>): seq<Field> {
    if ps == [] then [] else [Field(ps[0].key, ps[0].value)] + FieldsOf(ps[1..])
  }

  /** A key without an equals sign or leading space; a bare value that ends at the next blank. */
  predicate Clean(p: Printed) {
    && '=' !in p.key
    && (p.key == "" || !IsSpace(p.key[0]))
    && (p.quoted || (' ' !in p.value
                     && (p.value == "" || (p.value[0] != '"' && !IsSpace(p.value[|p.value| - 1])))))
  }

  lemma QuotedPrinted(line: string, i: nat, v: string)
    requires Has(line, i, "\"" + Encode(v, true) + "\"")
    ensures var e := i + 1 + |Encode(v, true)|;
            At(line, i, Rune('"')) && Has(line, i + 1, Encode(v, true)) && At(line, e, Rune('"'))
  {
    var body := Encode(v, true);
    HasCat(line, i, "\"" + body, "\"");
    HasCat(line, i, "\"", body);
    HasMark(line, i, Rune('"'));
    HasMark(line, i + 1 + |body|, Rune('"'));
  }

  lemma QuotedValueReads(line: string, i: nat, v: string)
    requires Has(line, i, "\"" + Encode(v, true) + "\"")
    ensures i < |line| && ValueAt(line, i) == (v, i + 2 + |Encode(v, true)|)
  {
    QuotedPrinted(line, i, v);
    QuotedReads(line, i + 1, v, true);
  }

  lemma BareValueReads(line: string, i: nat, v: string)
    requires Has(line, i, v) && ' ' !in v && (v != "" ==> v[0] != '"')
    requires i + |v| == |line| || line[i + |v|] == ' '
    ensures ValueAt(line, i) == (v, i + |v|)
  {
    assert v != "" ==> line[i + 0] == v[0];
    RuneUntil(line, i, ' ', v);
  }

  lemma ValuePrinted(line: string, i: nat, p: Printed)
    requires Has(line, i, PrintValue(p)) && Clean(p)
    requires var next := i + |PrintValue(p)|; next == |line| || line[next] == ' '
    ensures ValueAt(line, i) == (p.value, i + |PrintValue(p)|)
  {
    if p.quoted {
      QuotedValueReads(line, i, p.value);
    } else {
      BareValueReads(line, i, p.value);
    }
  }

  lemma KeyPrinted(line: string, i: nat, p: Printed)
    requires Has(line, i, PrintField(p)) && Clean(p)
    ensures var e := i + |p.key|;
            && i <= e < |line| && While(line, i, ' ') == i && Until(line, i, Rune('=')) == e
            && line[i..e] == p.key && Has(line, e + 1, PrintValue(p))
            && |PrintField(p)| == |p.key| + 1 + |PrintValue(p)|
  {
    HasCat(line, i, p.key + "=", PrintValue(p));
    HasCat(line, i, p.key, "=");
    HasMark(line, i + |p.key|, Rune('='));
    assert p.key != "" ==> line[i + 0] == p.key[0];
    RuneUntil(line, i, '=', p.key);
  }

  lemma FieldFound(line: string, i: nat, e: nat, value: string, next: nat)
    requires i <= e < |line| && While(line, i, ' ') == i && Until(line, i, Rune('=')) == e
    requires ValueAt(line, e + 1) == (value, next)
    ensures FirstField(line, i) == Some((Field(line[i..e], value), next))
  {
  }

  lemma FieldValueAt(line: string, i: nat, p: Printed)
    requires Has(line, i, PrintField(p)) && Clean(p)
    requires var next := i + |PrintField(p)|; next == |line| || line[next] == ' '
    ensures i + |p.key| < |line| && ValueAt(line, i + |p.key| + 1) == (p.value, i + |PrintField(p)|)
  {
    KeyPrinted(line, i, p);
    ValuePrinted(line, i + |p.key| + 1, p);
  }

  lemma FieldPrinted(line: string, i: nat, p: Printed)
    requires Has(line, i, PrintField(p)) && Clean(p)
    requires var next := i + |PrintField(p)|; next == |line| || line[next] == ' '
    ensures FirstField(line, i) == Some((Field(p.key, p.value), i + |PrintField(p)|))
  {
    var e, next := i + |p.key|, i + |PrintField(p)|;
    assert i <= e < |line| && While(line, i, ' ') == i && Until(line, i, Rune('=')) == e && line[i..e] == p.key by {
      KeyPrinted(line, i, p);
    }
    assert ValueAt(line, e + 1) == (p.value, next) by {
      FieldValueAt(line, i, p);
    }
    FieldFound(line, i, e, p.value, next);
  }

  /**
   The printed fields stand in the line from `i` on, with any number of blanks before each of them;
   behind the last one there is no further equals sign.
   */
  predicate Laid(line: string, i: nat, ps: seq<Printed>)
    decreases |ps|
  {
    i <= |line|
    && if ps == [] then '=' !in line[i..]
       else
         var start := While(line, i, ' ');
         var next := start + |PrintField(ps[0])|;
         && Has(line, start, PrintField(ps[0]))
         && (next == |line| || line[next] == ' ')
         && Laid(line, next, ps[1..])
  }

  lemma FieldAndBlank(line: string, i: nat, p: Printed, rest: string)
    requires Has(line, i, PrintField(p) + " " + rest)
    ensures var next := i + |PrintField(p)|;
            Has(line, i, PrintField(p)) && At(line, next, Rune(' ')) && Has(line, next + 1, rest)
  {
    HasCat(line, i, PrintField(p) + " ", rest);
    HasCat(line, i, PrintField(p), " ");
    HasMark(line, i + |PrintField(p)|, Rune(' '));
  }

  /** The first of some printed fields, and what comes behind it. */
  lemma FirstLaid(line: string, i: nat, ps: seq<Printed>)
    requires ps != [] && Clean(ps[0]) && Has(line, i, PrintLine(ps)) && i + |PrintLine(ps)| == |line|
    ensures var next := i + |PrintField(ps[0])|;
            && While(line, i, ' ') == i && Has(line, i, PrintField(ps[0])) && next <= |line|
            && if |ps| == 1 then next == |line|
               else At(line, next, Rune(' ')) && Has(line, next + 1, PrintLine(ps[1..]))
                    && next + 1 + |PrintLine(ps[1..])| == |line|
  {
    if |ps| > 1 {
      FieldAndBlank(line, i, ps[0], PrintLine(ps[1..]));
    }
    KeyPrinted(line, i, ps[0]);
  }

  lemma LaidCons(line: string, i: nat, start: nat, p: Printed, rest: seq<Printed>)
    requires i <= start <= |line| && While(line, i, ' ') == start && Has(line, start, PrintField(p))
    requires var next := start + |PrintField(p)|; (next == |line| || line[next] == ' ') && Laid(line, next, rest)
    ensures Laid(line, i, [p] + rest)
  {
    assert ([p] + rest)[1..] == rest;
  }

  lemma LastLaid(line: string)
    ensures Laid(line, |line|, [])
  {
  }

  /** Printed fields stand as laid, at a position or one blank behind it. */
  lemma {:induction false} LineIsLaid(line: string, i: nat, start: nat, ps: seq<Printed>)
    requires ps != [] && forall p | p in ps :: Clean(p)
    requires Has(line, start, PrintLine(ps)) && start + |PrintLine(ps)| == |line|
    requires i == start || (i + 1 == start && line[i] == ' ')
    ensures i <= |line| && Laid(line, i, ps)
    decreases |ps|
  {
    var p, rest := ps[0], ps[1..];
    var next := start + |PrintField(p)|;
    assert p in ps && ps == [p] + rest;
    FirstLaid(line, start, ps);
    assert While(line, i, ' ') == start;
    if |ps| == 1 {
      LastLaid(line);
    } else {
      LineIsLaid(line, next, next + 1, rest);
    }
    LaidCons(line, i, start, p, rest);
  }

  lemma PrintedLineIsLaid(ps: seq<Printed>)
    requires forall p | p in ps :: Clean(p)
    ensures Laid(PrintLine(ps), 0, ps)
  {
    if ps != [] {
      LineIsLaid(PrintLine(ps), 0, 0, ps);
    }
  }

  lemma {:induction false} WhileEnds(line: string, i: nat)
    requires i <= |line|
    ensures var start := While(line, i, ' '); While(line, start, ' ') == start
    decreases |line| - i
  {
  }

  lemma NoFieldBehind(line: string, i: nat)
    requires i <= |line| && '=' !in line[i..]
    ensures Fields(line, i) == []
  {
    forall k | i <= k < |line|
      ensures line[k] != '='
    {
      assert line[i..][k - i] == line[k];
    }
  }

  lemma FieldBehindBlanks(line: string, i: nat, p: Printed)
    requires i <= |line| && Clean(p) && Has(line, While(line, i, ' '), PrintField(p))
    requires var next := While(line, i, ' ') + |PrintField(p)|; next == |line| || line[next] == ' '
    ensures FirstField(line, i) == Some((Field(p.key, p.value), While(line, i, ' ') + |PrintField(p)|))
  {
    FieldPrinted(line, While(line, i, ' '), p);
    WhileEnds(line, i);
  }

  /** A laid line splits into its fields, whatever the blanks between them. */
  lemma {:induction false} FieldsPrinted(line: string, i: nat, ps: seq<Printed>)
    requires Laid(line, i, ps)
    requires forall p | p in ps :: Clean(p)
    ensures Fields(line, i) == FieldsOf(ps)
    decreases |ps|
  {
    if ps == [] {
      NoFieldBehind(line, i);
    } else {
      var p := ps[0];
      var start := While(line, i, ' ');
      var next := start + |PrintField(p)|;
      assert Clean(p) && Has(line, start, PrintField(p)) && Laid(line, next, ps[1..]) by {
        assert p in ps;
      }
      assert FirstField(line, i) == Some((Field(p.key, p.value), next)) by {
        FieldBehindBlanks(line, i, p);
      }
      FieldsPrinted(line, next, ps[1..]);
    }
  }

  lemma FieldIsTight(p: Printed)
    requires Clean(p)
    ensures PrintField(p) != "" && Tight(PrintField(p))
  {
  }

  lemma TightCat(a: string, b: string)
    requires a != "" && b != "" && Tight(a) && Tight(b)
    ensures a + " " + b != "" && Tight(a + " " + b)
  {
  }

  /** A printed line has no white space to trim. */
  lemma {:induction false} PrintedIsTight(ps: seq<Printed>)
    requires forall p | p in ps :: Clean(p)
    ensures Tight(PrintLine(ps))
    ensures ps != [] ==> PrintLine(ps) != ""
    decreases |ps|
  {
    if ps != [] {
      FieldIsTight(ps[0]);
      PrintedIsTight(ps[1..]);
      if |ps| > 1 {
        TightCat(PrintField(ps[0]), PrintLine(ps[1..]));
      }
    }
  }

  // ---------- What a printed line is parsed to ----------

  function LastOf(fs: seq<Field>, key: string): Option<string> {
    if fs == [] then None
    else if LastOf(fs[1..], key).Some? then LastOf(fs[1..], key)
    else if fs[0].key == key then Some(fs[0].value)
    else None
  }

  /** The last timestamp that can be read. */
  function LastTime(fs: seq<Field>, parseTime: string -> Option<int>): Option<int> {
    if fs == [] then None
    else if LastTime(fs[1..], parseTime).Some? then LastTime(fs[1..], parseTime)
    else if fs[0].key == "time" then parseTime(fs[0].value)
    else None
  }

  function Or<T>(o: Option<T>, default: T): T {
    if o.Some? then o.value else default
  }

  function Attr(event: LogEvent, key: string): Option<string> {
    if key in event.attrs then Some(event.attrs[key]) else None
  }

  predicate IsAttr(key: string) {
    key != "time" && key != "level" && key != "msg"
  }

  /** Every field of an event comes from the last field of the line with its key. */
  lemma {:induction false} LastFieldWins(event: LogEvent, fs: seq<Field>, parseTime: string -> Option<int>, key: string)
    ensures var e := ApplyAll(event, fs, parseTime);
            && e.time == Or(LastTime(fs, parseTime), event.time)
            && e.level == Or(LastOf(fs, "level"), event.level)
            && e.message == Or(LastOf(fs, "msg"), event.message)
            && Attr(e, key) == if IsAttr(key) && LastOf(fs, key).Some? then LastOf(fs, key) else Attr(event, key)
    decreases |fs|
  {
    if fs != [] {
      LastFieldWins(Apply(event, fs[0], parseTime), fs[1..], parseTime, key);
    }
  }

  /**
   Parsing a line gives its fields back, the last of several with the same key winning; a line
   without a message is its own message.
   */
  lemma ParsingReadsLine(line: string, ps: seq<Printed>, now: int, parseTime: string -> Option<int>, key: string)
    requires Tight(line) && Laid(line, 0, ps) && forall p | p in ps :: Clean(p)
    ensures var fs := FieldsOf(ps);
            var e := EventOf(TrimSpace(line), now, parseTime);
            && e.time == Or(LastTime(fs, parseTime), now)
            && e.level == Or(LastOf(fs, "level"), "INFO")
            && e.message == (if Or(LastOf(fs, "msg"), "") == "" then line else LastOf(fs, "msg").value)
            && Attr(e, key) == if IsAttr(key) then LastOf(fs, key) else None
  {
    TrimIsTight(line);
    FieldsPrinted(line, 0, ps);
    LastFieldWins(Blank(now), FieldsOf(ps), parseTime, key);
  }

  /** So parsing undoes printing. */
  lemma ParsingUndoesPrinting(ps: seq<Printed>, now: int, parseTime: string -> Option<int>, key: string)
    requires forall p | p in ps :: Clean(p)
    ensures var line := PrintLine(ps);
            var fs := FieldsOf(ps);
            var e := EventOf(TrimSpace(line), now, parseTime);
            && e.time == Or(LastTime(fs, parseTime), now)
            && e.level == Or(LastOf(fs, "level"), "INFO")
            && e.message == (if Or(LastOf(fs, "msg"), "") == "" then line else LastOf(fs, "msg").value)
            && Attr(e, key) == if IsAttr(key) then LastOf(fs, key) else None
  {
    PrintedIsTight(ps);
    PrintedLineIsLaid(ps);
    ParsingReadsLine(PrintLine(ps), ps, now, parseTime, key);
  }
}
