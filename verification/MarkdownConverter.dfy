/**
 The converter, and a strict reader for the MarkdownV2 it emits.

 `Read` knows `*bold*`, `_italic_`, verbatim code and fences, and backslash escapes. It
 rejects a reserved character that is neither a delimiter nor escaped, as well as an escape
 of a character that needs none.
 */
module MarkdownConverter {
  import opened Sequences
  import opened Wrappers
  import opened TextSearch
  import opened Markdown

  // ---------- The reader ----------

  /** What MarkdownV2 reserves outside code. */
  const SPECIALS := {
    '_', '*', '[', ']', '(', ')', '~', '`', '>', '#', '+', '-', '=', '|', '{', '}', '.', '!', '\\' }

  /** The converter's table is the one of MarkdownV2. */
  lemma ReservedAreSpecial(c: char)
    ensures Reserved(c) <==> c in SPECIALS
  {
  }

  datatype Escaped = Escaped(text: string, next: nat, closed: bool)

  /** Reads escaped text from `i` up to an unescaped `delimiter`, or to the end. */
  function ReadEscaped(t: string, i: nat, delimiter: char): (r: Option<Escaped>)
    requires i <= |t|
    ensures r.Some? ==> i <= r.value.next <= |t|
    decreases |t| - i
  {
    if i == |t| then Some(Escaped("", i, false))
    else if t[i] == delimiter then Some(Escaped("", i + 1, true))
    else if t[i] in SPECIALS && !(t[i] == '\\' && i + 1 < |t| && t[i + 1] in SPECIALS) then None
    else
      var k := if t[i] == '\\' then i + 1 else i;
      match ReadEscaped(t, k + 1, delimiter)
      case None => None
      case Some(e) => Some(Escaped([t[k]] + e.text, e.next, e.closed))
  }

  function ReadStyled(t: string, i: nat, style: Style, delimiter: char): (r: Option<(Span, nat)>)
    requires i < |t|
    ensures r.Some? ==> i < r.value.1 <= |t|
  {
    match ReadEscaped(t, i + 1, delimiter)
    case None => None
    case Some(e) => Some((Styled(style, e.text, e.closed), e.next))
  }

  /** Reads verbatim text from `a` up to `mark`, or to the end. */
  function ReadVerbatim(t: string, a: nat, style: Style, mark: Mark): (r: (Span, nat))
    requires a <= |t|
    ensures a <= r.1 <= |t|
  {
    var e := Until(t, a, mark);
    (Styled(style, t[a..e], e < |t|), if e < |t| then e + |Literal(mark)| else e)
  }

  /** The span that starts at `i`, and the position after it. */
  function ReadSpan(t: string, i: nat): (r: Option<(Span, nat)>)
    requires i < |t|
    ensures r.Some? ==> i < r.value.1 <= |t|
  {
    if At(t, i, Ticks) then
      Some(ReadVerbatim(t, if At(t, i + 3, Rune('\n')) then i + 4 else i + 3, Fence, Ticks))
    else if t[i] == '`' then Some(ReadVerbatim(t, i + 1, Code, Rune('`')))
    else if t[i] == '*' then ReadStyled(t, i, Bold, '*')
    else if t[i] == '_' then ReadStyled(t, i, Italic, '_')
    else if t[i] == '\\' && i + 1 < |t| && t[i + 1] in SPECIALS then Some((Plain(t[i + 1]), i + 2))
    else if t[i] in SPECIALS then None
    else Some((Plain(t[i]), i + 1))
  }

  function Read(t: string, i: nat): Option<seq<Span>>
    requires i <= |t|
    decreases |t| - i
  {
    if i == |t| then Some([]) else
      match ReadSpan(t, i)
      case None => None
      case Some((span, next)) =>
        match Read(t, next)
        case None => None
        case Some(rest) => Some([span] + rest)
  }

  // ---------- The reader understands what is emitted ----------

  /** Reading one escaped character. */
  lemma ReadEscape(t: string, i: nat, delimiter: char, c: char)
    requires Reserved(delimiter) && delimiter != '\\'
    requires Has(t, i, Escape(c))
    ensures var k := i + |Escape(c)|;
            k <= |t| && ReadEscaped(t, i, delimiter) == match ReadEscaped(t, k, delimiter)
              case None => None
              case Some(e) => Some(Escaped([c] + e.text, e.next, e.closed))
  {
    EscapedAt(t, i, c);
  }

  lemma ReadEscapedStep(t: string, i: nat, delimiter: char, text: string, rest: Escaped)
    requires Reserved(delimiter) && delimiter != '\\' && text != "" && Has(t, i, Escape(text[0]))
    requires ReadEscaped(t, i + |Escape(text[0])|, delimiter) == Some(rest) && rest.text == text[1..]
    ensures ReadEscaped(t, i, delimiter) == Some(Escaped(text, rest.next, rest.closed))
  {
    ReadEscape(t, i, delimiter, text[0]);
    assert text == [text[0]] + text[1..];
  }

  /** A text stands escaped, character by character, between two positions. */
  predicate EscapedStands(t: string, i: nat, text: string, end: nat)
    decreases |text|
  {
    if text == "" then i == end
    else Has(t, i, Escape(text[0])) && EscapedStands(t, i + |Escape(text[0])|, text[1..], end)
  }

  lemma {:induction false} EscapedLies(t: string, i: nat, text: string)
    requires Has(t, i, EscapeAll(text))
    ensures EscapedStands(t, i, text, i + |EscapeAll(text)|)
    decreases |text|
  {
    if text != "" {
      HasCat(t, i, Escape(text[0]), EscapeAll(text[1..]));
      EscapedLies(t, i + |Escape(text[0])|, text[1..]);
    }
  }

  /** Escaped text ends at a delimiter, or at the end of the whole text. */
  predicate EndsAt(t: string, end: nat, delimiter: char, closed: bool) {
    if closed then At(t, end, Rune(delimiter)) else end == |t|
  }

  lemma ReadEscapedEnd(t: string, end: nat, delimiter: char, closed: bool)
    requires EndsAt(t, end, delimiter, closed)
    ensures ReadEscaped(t, end, delimiter) == Some(Escaped("", end + if closed then 1 else 0, closed))
  {
  }

  lemma {:induction false} ReadStanding(t: string, i: nat, delimiter: char, text: string, end: nat, closed: bool)
    requires Reserved(delimiter) && delimiter != '\\'
    requires EscapedStands(t, i, text, end) && EndsAt(t, end, delimiter, closed)
    ensures i <= |t| && ReadEscaped(t, i, delimiter) == Some(Escaped(text, end + if closed then 1 else 0, closed))
    decreases |text|
  {
    if text == "" {
      ReadEscapedEnd(t, i, delimiter, closed);
    } else {
      ReadStanding(t, i + |Escape(text[0])|, delimiter, text[1..], end, closed);
      ReadEscapedStep(t, i, delimiter, text, Escaped(text[1..], end + if closed then 1 else 0, closed));
    }
  }

  lemma ReadEscapedText(t: string, i: nat, delimiter: char, text: string, closed: bool)
    requires Reserved(delimiter) && delimiter != '\\'
    requires Has(t, i, EscapeAll(text)) && EndsAt(t, i + |EscapeAll(text)|, delimiter, closed)
    ensures ReadEscaped(t, i, delimiter)
         == Some(Escaped(text, i + |EscapeAll(text)| + if closed then 1 else 0, closed))
  {
    EscapedLies(t, i, text);
    ReadStanding(t, i, delimiter, text, i + |EscapeAll(text)|, closed);
  }

  lemma EscapedAt(t: string, i: nat, c: char)
    requires Has(t, i, Escape(c))
    ensures Reserved(c) ==> i + 1 < |t| && t[i] == '\\' && t[i + 1] == c
    ensures !Reserved(c) ==> i < |t| && t[i] == c
  {
    assert t[i + 0] == Escape(c)[0];
    assert Reserved(c) ==> t[i + 1] == Escape(c)[1];
  }

  lemma ReadVerbatimText(t: string, a: nat, style: Style, mark: Mark, text: string, closed: bool)
    requires Has(t, a, text + Closing(mark, closed)) && Lacks(text, mark, closed)
    requires closed || a + |text| == |t|
    ensures ReadVerbatim(t, a, style, mark)
         == (Styled(style, text, closed), a + |text + Closing(mark, closed)|)
  {
    LacksUntil(t, a, mark, text, closed);
  }

  lemma DelimitedAt(t: string, i: nat, d: char, inner: string, closed: bool)
    requires Has(t, i, Delimited([d], inner, closed))
    ensures At(t, i, Rune(d)) && Has(t, i + 1, inner)
    ensures closed ==> At(t, i + 1 + |inner|, Rune(d))
    ensures |Delimited([d], inner, closed)| == 1 + |inner| + if closed then 1 else 0
  {
    HasCat(t, i, [d] + inner, if closed then [d] else "");
    HasCat(t, i, [d], inner);
    HasMark(t, i, Rune(d));
    HasMark(t, i + 1 + |inner|, Rune(d));
  }

  lemma ReadStyledText(t: string, i: nat, style: Style, d: char, text: string, closed: bool)
    requires Reserved(d) && d != '\\'
    requires Has(t, i, Delimited([d], EscapeAll(text), closed))
    requires closed || i + 1 + |EscapeAll(text)| == |t|
    ensures i < |t| && t[i] == d
    ensures ReadStyled(t, i, style, d)
         == Some((Styled(style, text, closed), i + |Delimited([d], EscapeAll(text), closed)|))
  {
    DelimitedAt(t, i, d, EscapeAll(text), closed);
    ReadEscapedText(t, i + 1, d, text, closed);
  }

  lemma ReadCode(t: string, i: nat, text: string, closed: bool)
    requires Has(t, i, Delimited("`", text, closed)) && Lacks(text, Rune('`'), closed)
    requires var next := i + |Delimited("`", text, closed)|;
             && (closed || next == |t|)
             && (text == "" && closed ==> next == |t| || t[next] != '`')
    ensures ReadSpan(t, i) == Some((Styled(Code, text, closed), i + |Delimited("`", text, closed)|))
  {
    var token := Inline(Backtick, text, closed);
    var body := text + Closing(Rune('`'), closed);
    assert Delimited("`", text, closed) == "`" + body;
    HasCat(t, i, "`", body);
    HasMark(t, i, Rune('`'));
    assert Source(token) == "`" + body;
    InlineOpens(t, i, token);
    ReadVerbatimText(t, i + 1, Code, Rune('`'), text, closed);
  }

  lemma BlockBodyAt(t: string, i: nat, text: string, closed: bool)
    requires Has(t, i, "```" + BlockBody(text, closed))
    ensures At(t, i, Ticks) && At(t, i + 3, Rune('\n'))
    ensures Has(t, i + 4, text + Closing(Ticks, closed))
  {
    var body := text + Closing(Ticks, closed);
    HasCat(t, i, "```", BlockBody(text, closed));
    HasMark(t, i, Ticks);
    assert BlockBody(text, closed) == "\n" + body;
    HasCat(t, i + 3, "\n", body);
    HasMark(t, i + 3, Rune('\n'));
  }

  lemma ReadBlock(t: string, i: nat, text: string, closed: bool)
    requires Has(t, i, "```" + BlockBody(text, closed)) && Lacks(text, Ticks, closed)
    requires closed || i + 4 + |text| == |t|
    ensures i < |t|
    ensures ReadSpan(t, i) == Some((Styled(Fence, text, closed), i + |"```" + BlockBody(text, closed)|))
  {
    BlockBodyAt(t, i, text, closed);
    ReadVerbatimText(t, i + 4, Fence, Ticks, text, closed);
    assert |"```" + BlockBody(text, closed)| == 4 + |text + Closing(Ticks, closed)|;
  }

  lemma ReadDangling(t: string, i: nat)
    requires Has(t, i, "```") && i + 3 == |t|
    ensures ReadSpan(t, i) == Some((Styled(Fence, "", false), i + 3))
  {
    HasMark(t, i, Ticks);
    assert t[i + 3..i + 3] == "";
  }

  lemma ReadChar(t: string, i: nat, c: char)
    requires Has(t, i, Escape(c)) && c != '`' && c != '*' && c != '_'
    ensures i < |t| && ReadSpan(t, i) == Some((Plain(c), i + |Escape(c)|))
  {
    EscapedAt(t, i, c);
  }

  lemma ReadInline(t: string, i: nat, kind: Kind, text: string, closed: bool)
    requires var out := Emit(Inline(kind, text, closed)); var next := i + |out|;
             && Has(t, i, out) && Lacks(text, InMark(kind), closed)
             && (closed || next == |t|)
             && (text == "" && closed && kind.Backtick? ==> next == |t| || t[next] != '`')
    ensures i < |t|
    ensures ReadSpan(t, i)
         == Some((Styled(StyleOf(kind), text, closed), i + |Emit(Inline(kind, text, closed))|))
  {
    if kind.Backtick? {
      ReadCode(t, i, text, closed);
    } else {
      ReadStyledText(t, i, StyleOf(kind), OutMark(kind), text, closed);
    }
  }

  lemma ReadHeader(t: string, i: nat, text: string)
    requires Has(t, i, Delimited("*", EscapeAll(text), true))
    ensures i < |t|
    ensures ReadSpan(t, i) == Some((Styled(Bold, text, true), i + |Delimited("*", EscapeAll(text), true)|))
  {
    ReadStyledText(t, i, Bold, '*', text, true);
    assert ReadSpan(t, i) == ReadStyled(t, i, Bold, '*');
  }

  lemma ReadToken(t: string, i: nat, token: Token, bol: bool, tail: seq<Token>)
    requires TokenOk(token, bol, tail) && Has(t, i, Emit(token))
    requires var next := i + |Emit(token)|;
             && (next == |t| <==> tail == [])
             && (next < |t| && t[next] == '`' ==> Ticked(tail[0]))
    ensures i < |t| && ReadSpan(t, i) == Some((Meaning(token), i + |Emit(token)|))
  {
    match token
    case Char(c) => ReadChar(t, i, c);
    case Inline(kind, text, closed) => ReadInline(t, i, kind, text, closed);
    case Block(_, text, closed) => ReadBlock(t, i, text, closed);
    case Dangling(_) => ReadDangling(t, i);
    case Header(_, _, text) => ReadHeader(t, i, text);
  }

  /** Output that begins with a backtick was emitted for a code span or a fence. */
  lemma EmitHead(ts: seq<Token>)
    requires ts != []
    ensures EmitAll(ts) != ""
    ensures EmitAll(ts)[0] == '`' ==> Ticked(ts[0])
  {
    assert Emit(ts[0]) <= EmitAll(ts);
  }

  /** The first token's output, and behind it that of the others up to the end. */
  lemma EmittedParts(t: string, i: nat, ts: seq<Token>)
    requires ts != [] && Has(t, i, EmitAll(ts)) && i + |EmitAll(ts)| == |t|
    ensures var next := i + |Emit(ts[0])|;
            && Has(t, i, Emit(ts[0])) && Has(t, next, EmitAll(ts[1..])) && next + |EmitAll(ts[1..])| == |t|
  {
    HasCat(t, i, Emit(ts[0]), EmitAll(ts[1..]));
  }

  lemma EmittedAhead(t: string, i: nat, ts: seq<Token>)
    requires Has(t, i, EmitAll(ts)) && i + |EmitAll(ts)| == |t|
    ensures i == |t| <==> ts == []
    ensures i < |t| && t[i] == '`' ==> Ticked(ts[0])
  {
    if ts != [] {
      EmitHead(ts);
      assert t[i + 0] == EmitAll(ts)[0];
    }
  }

  lemma ReadCons(t: string, i: nat, ts: seq<Token>, next: nat)
    requires ts != [] && i < next <= |t| && ReadSpan(t, i) == Some((Meaning(ts[0]), next))
    requires Read(t, next) == Some(MeaningAll(ts[1..]))
    ensures Read(t, i) == Some(MeaningAll(ts))
  {
  }

  lemma ReadFirst(t: string, i: nat, ts: seq<Token>, bol: bool)
    requires ts != [] && Dialect(ts, bol) && Has(t, i, EmitAll(ts)) && i + |EmitAll(ts)| == |t|
    ensures i < |t| && ReadSpan(t, i) == Some((Meaning(ts[0]), i + |Emit(ts[0])|))
  {
    EmittedParts(t, i, ts);
    EmittedAhead(t, i + |Emit(ts[0])|, ts[1..]);
    ReadToken(t, i, ts[0], bol, ts[1..]);
  }

  lemma EmittedTail(t: string, i: nat, ts: seq<Token>, bol: bool)
    requires ts != [] && Dialect(ts, bol) && Has(t, i, EmitAll(ts)) && i + |EmitAll(ts)| == |t|
    ensures var next := i + |Emit(ts[0])|;
            && next <= |t| && Has(t, next, EmitAll(ts[1..])) && next + |EmitAll(ts[1..])| == |t|
            && Dialect(ts[1..], ts[0] == Char('\n'))
  {
    EmittedParts(t, i, ts);
  }

  lemma ReadHead(t: string, i: nat, ts: seq<Token>, bol: bool)
    requires ts != [] && Dialect(ts, bol) && Has(t, i, EmitAll(ts)) && i + |EmitAll(ts)| == |t|
    requires var next := i + |Emit(ts[0])|; next <= |t| && Read(t, next) == Some(MeaningAll(ts[1..]))
    ensures i <= |t| && Read(t, i) == Some(MeaningAll(ts))
  {
    ReadFirst(t, i, ts, bol);
    ReadCons(t, i, ts, i + |Emit(ts[0])|);
  }

  lemma {:induction false} ReadTail(t: string, i: nat, ts: seq<Token>, bol: bool)
    requires ts != [] && Dialect(ts, bol) && Has(t, i, EmitAll(ts)) && i + |EmitAll(ts)| == |t|
    ensures var next := i + |Emit(ts[0])|; next <= |t| && Read(t, next) == Some(MeaningAll(ts[1..]))
    decreases |ts|, 0
  {
    EmittedTail(t, i, ts, bol);
    ReadEmitted(t, i + |Emit(ts[0])|, ts[1..], ts[0] == Char('\n'));
  }

  lemma {:induction false} ReadEmitted(t: string, i: nat, ts: seq<Token>, bol: bool)
    requires i <= |t| && Has(t, i, EmitAll(ts)) && i + |EmitAll(ts)| == |t|
    requires Dialect(ts, bol)
    ensures Read(t, i) == Some(MeaningAll(ts))
    decreases |ts|, 1
  {
    if ts != [] {
      ReadTail(t, i, ts, bol);
      ReadHead(t, i, ts, bol);
    }
  }

  /** What the converter makes of a text. */
  function Converted(text: string): string {
    EmitAll(Scan(text, 0))
  }

  /** Reading a conversion gives the spans of the input and their visible text. */
  lemma ConversionKeepsMeaning(text: string)
    ensures Read(Converted(text), 0) == Some(MeaningAll(Scan(text, 0)))
  {
    ScanInDialect(text, 0);
    ReadEmitted(Converted(text), 0, Scan(text, 0), true);
  }

  // ---------- Length ----------

  lemma {:induction false} EscapedLength(text: string)
    ensures |text| <= |EscapeAll(text)| <= 2 * |text|
    decreases |text|
  {
    if text != "" {
      EscapedLength(text[1..]);
    }
  }

  lemma TokenLength(t: Token, bol: bool, tail: seq<Token>)
    requires TokenOk(t, bol, tail)
    ensures |Emit(t)| <= 2 * |Source(t)|
  {
    match t
    case Char(_) =>
    case Inline(kind, text, _) => EscapedLength(text);
    case Block(_, _, _) =>
    case Dangling(_) =>
    case Header(_, _, text) => EscapedLength(text);
  }

  lemma {:induction false} EmittedLength(ts: seq<Token>, bol: bool)
    requires Dialect(ts, bol)
    ensures |EmitAll(ts)| <= 2 * |SourceAll(ts)|
    decreases |ts|
  {
    if ts != [] {
      TokenLength(ts[0], bol, ts[1..]);
      EmittedLength(ts[1..], ts[0] == Char('\n'));
    }
  }

  /** A conversion is at most twice as long as its input, and some are that long. */
  lemma ConversionLength(text: string)
    ensures |Converted(text)| <= 2 * |text|
    ensures |Converted("!")| == 2
  {
    ScanLosesNothing(text);
    ScanInDialect(text, 0);
    EmittedLength(Scan(text, 0), true);
    assert Scan("!", 0) == [Char('!')];
  }

  // ---------- The converter ----------

  lemma {:induction false} EscapeSnoc(s: string, a: nat, i: nat)
    requires a <= i < |s|
    ensures EscapeAll(s[a..i + 1]) == EscapeAll(s[a..i]) + Escape(s[i])
    decreases i - a
  {
    if a == i {
      assert s[a..i + 1] == [s[i]];
      assert EscapeAll([s[i]]) == Escape(s[i]) + EscapeAll("");
    } else {
      EscapeSnoc(s, a + 1, i);
      assert s[a..i + 1][1..] == s[a + 1..i + 1] && s[a..i][1..] == s[a + 1..i];
      assert Escape(s[a]) + (EscapeAll(s[a + 1..i]) + Escape(s[i]))
          == Escape(s[a]) + EscapeAll(s[a + 1..i]) + Escape(s[i]);
    }
  }

  /** Copies the text from `start` up to `mark` behind `prefix`. */
  method CopyUntil(text: string, start: nat, mark: Mark, prefix: string) returns (out: string, i: nat)
    requires start <= |text|
    ensures i == Until(text, start, mark)
    ensures out == prefix + text[start..i]
  {
    out, i := prefix, start;
    while i < |text| && !At(text, i, mark)
      invariant start <= i <= |text|
      invariant Until(text, i, mark) == Until(text, start, mark)
      invariant out == prefix + text[start..i]
    {
      out := out + [text[i]];
      i := i + 1;
    }
  }

  /** Escapes the text from `start` up to `mark` behind `prefix`. */
  method EscapeUntil(text: string, start: nat, mark: Mark, prefix: string) returns (out: string, i: nat)
    requires start <= |text|
    ensures i == Until(text, start, mark)
    ensures out == prefix + EscapeAll(text[start..i])
  {
    out, i := prefix, start;
    while i < |text| && !At(text, i, mark)
      invariant start <= i <= |text|
      invariant Until(text, i, mark) == Until(text, start, mark)
      invariant out == prefix + EscapeAll(text[start..i])
    {
      assert EscapeAll(text[start..i + 1]) == EscapeAll(text[start..i]) + Escape(text[i]) by {
        EscapeSnoc(text, start, i);
      }
      Regroup(prefix, EscapeAll(text[start..i]), Escape(text[i]));
      out := out + Escape(text[i]);
      i := i + 1;
    }
  }

  method SkipWhile(text: string, start: nat, c: char) returns (i: nat)
    requires start <= |text|
    ensures i == While(text, start, c)
  {
    i := start;
    while i < |text| && text[i] == c
      invariant start <= i <= |text|
      invariant While(text, i, c) == While(text, start, c)
    {
      i := i + 1;
    }
  }

  /** Converts the fenced block at `start`: the hint is skipped, the body is copied. */
  method ConvertFence(text: string, start: nat) returns (out: string, i: nat)
    requires At(text, start, Ticks)
    ensures (i == BlockAt(text, start).1) && out == Emit(BlockAt(text, start).0)
  {
    out, i := "```", start + 3;
    while i < |text| && text[i] != '\n'
      invariant start + 3 <= i <= |text|
      invariant Until(text, i, Rune('\n')) == Until(text, start + 3, Rune('\n'))
    {
      i := i + 1;
    }
    if i < |text| {
      out := out + "\n";
      i := i + 1;
      out, i := CopyUntil(text, i, Ticks, out);
      if i < |text| {
        out := out + "```";
        i := i + 3;
      }
    }
  }

  method ConvertCode(text: string, start: nat) returns (out: string, i: nat)
    requires At(text, start, Rune('`'))
    ensures (i == InlineAt(text, start, Backtick).1) && out == Emit(InlineAt(text, start, Backtick).0)
  {
    out, i := CopyUntil(text, start + 1, Rune('`'), "`");
    if i < |text| {
      out := out + "`";
      i := i + 1;
    }
  }

  method ConvertBold(text: string, start: nat) returns (out: string, i: nat)
    requires At(text, start, Stars)
    ensures (i == InlineAt(text, start, TwoStars).1) && out == Emit(InlineAt(text, start, TwoStars).0)
  {
    out, i := EscapeUntil(text, start + 2, Stars, "*");
    if i + 1 < |text| {
      out := out + "*";
      i := i + 2;
    }
  }

  method ConvertStarItalic(text: string, start: nat) returns (out: string, i: nat)
    requires At(text, start, Rune('*'))
    ensures (i == InlineAt(text, start, Star).1) && out == Emit(InlineAt(text, start, Star).0)
  {
    out, i := EscapeUntil(text, start + 1, Rune('*'), "_");
    if i < |text| {
      out := out + "_";
      i := i + 1;
    }
  }

  method ConvertUnderscoreItalic(text: string, start: nat) returns (out: string, i: nat)
    requires At(text, start, Rune('_'))
    ensures (i == InlineAt(text, start, Underscore).1) && out == Emit(InlineAt(text, start, Underscore).0)
  {
    out, i := EscapeUntil(text, start + 1, Rune('_'), "_");
    if i < |text| {
      out := out + "_";
      i := i + 1;
    }
  }

  method ConvertHeader(text: string, start: nat) returns (out: string, i: nat)
    requires At(text, start, Rune('#'))
    ensures (i == HeaderAt(text, start).1) && out == Emit(HeaderAt(text, start).0)
  {
    i := SkipWhile(text, start, '#');
    i := SkipWhile(text, i, ' ');
    out, i := EscapeUntil(text, i, Rune('\n'), "*");
    out := out + "*";
  }

  /** The converter emits, token by token, what the scan of its input stands for. */
  method ToTelegramMarkdown(text: string) returns (out: string)
    ensures out == Converted(text)
    ensures Read(out, 0) == Some(MeaningAll(Scan(text, 0)))
    ensures |out| <= 2 * |text|
  {
    out := "";
    var i := 0;
    while i < |text|
      invariant 0 <= i <= |text|
      invariant out + EmitAll(Scan(text, i)) == Converted(text)
    {
      ghost var before, start := out, i;
      var piece: string;
      if At(text, i, Ticks) {
        piece, i := ConvertFence(text, i);
      } else if text[i] == '`' {
        piece, i := ConvertCode(text, i);
      } else if At(text, i, Stars) {
        piece, i := ConvertBold(text, i);
      } else if text[i] == '*' {
        piece, i := ConvertStarItalic(text, i);
      } else if text[i] == '_' {
        piece, i := ConvertUnderscoreItalic(text, i);
      } else if text[i] == '#' && (i == 0 || text[i - 1] == '\n') {
        piece, i := ConvertHeader(text, i);
      } else {
        piece, i := Escape(text[i]), i + 1;
      }
      out := out + piece;
      EmitStep(text, start, before, out);
    }
    ConversionKeepsMeaning(text);
    ConversionLength(text);
  }

  lemma EmitStep(text: string, i: nat, before: string, out: string)
    requires i < |text| && out == before + Emit(Next(text, i).0)
    ensures out + EmitAll(Scan(text, Next(text, i).1)) == before + EmitAll(Scan(text, i))
  {
    var (t, next) := Next(text, i);
    var rest := Scan(text, next);
    assert EmitAll(Scan(text, i)) == Emit(t) + EmitAll(rest) by {
      assert ([t] + rest)[0] == t && ([t] + rest)[1..] == rest;
    }
    Regroup(before, Emit(t), EmitAll(rest));
  }
}
