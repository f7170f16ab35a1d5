/**
 The rules of the conversion, in the terms of the texts themselves.

 Each rule says what is emitted for what stands at a position of any text; together they leave
 nothing open. No table of the scanner or the emitter occurs in them.
 */
module Rules {
  import opened Sequences
  import opened Wrappers
  import opened TextSearch
  import opened Markdown
  import opened MarkdownConverter

  /** What the text from `i` on is converted to. */
  function From(s: string, i: nat): string
    requires i <= |s|
  {
    EmitAll(Scan(s, i))
  }

  /** `e` is the first position from `a` on where `lit` stands, or the end of the text. */
  predicate FirstAt(s: string, a: nat, e: nat, lit: string) {
    && a <= e <= |s|
    && (e < |s| ==> Has(s, e, lit))
    && forall j: nat | a <= j < e :: !Has(s, j, lit)
  }

  lemma FirstIsUntil(s: string, a: nat, e: nat, mark: Mark)
    requires FirstAt(s, a, e, Literal(mark))
    ensures Until(s, a, mark) == e
  {
    var u := Until(s, a, mark);
    if u < e {
      HasMark(s, u, mark);
    } else if e < u {
      HasMark(s, e, mark);
    }
  }

  lemma FromNext(s: string, i: nat, t: Token, next: nat)
    requires i < |s| && Next(s, i) == (t, next)
    ensures next <= |s| && From(s, i) == Emit(t) + From(s, next)
  {
    assert ([t] + Scan(s, next))[1..] == Scan(s, next);
  }

  lemma NothingMore(s: string)
    ensures From(s, |s|) == ""
  {
  }

  // ---------- Bold and italics ----------

  /** The delimiters of bold text and of italics, and what becomes of them. */
  const SPANS := map["**" := "*", "*" := "_", "_" := "_"]

  lemma SpanOpens(s: string, i: nat, kind: Kind)
    requires !kind.Backtick? && Has(s, i, Literal(InMark(kind)))
    requires kind.Star? ==> !Has(s, i, "**")
    ensures i < |s| && !At(s, i, Ticks) && At(s, i, InMark(kind)) && KindAt(s, i) == Some(kind)
  {
    HasMark(s, i, InMark(kind));
    HasMark(s, i, Stars);
  }

  lemma SpanToken(s: string, i: nat, e: nat, kind: Kind)
    requires i < |s| && !At(s, i, Ticks) && At(s, i, InMark(kind)) && KindAt(s, i) == Some(kind)
    requires var w := |Literal(InMark(kind))|; i + w <= |s| && i + w <= e && Until(s, i + w, InMark(kind)) == e
    ensures var w := |Literal(InMark(kind))|;
            e <= |s| && Next(s, i) == (Inline(kind, s[i + w..e], e < |s|), if e < |s| then e + w else e)
  {
  }

  lemma SpanText(kind: Kind, text: string, closed: bool)
    requires !kind.Backtick?
    ensures var out := [OutMark(kind)];
            Emit(Inline(kind, text, closed)) == out + EscapeAll(text) + if closed then out else ""
  {
  }

  lemma KindOfSpan(lit: string) returns (kind: Kind)
    requires lit in SPANS
    ensures !kind.Backtick? && Literal(InMark(kind)) == lit && [OutMark(kind)] == SPANS[lit]
    ensures kind.Star? <==> lit == "*"
  {
    assert |"**"| == 2 && |"*"| == 1 && "*"[0] == '*' && "_"[0] == '_';
    kind := if lit == "**" then TwoStars else if lit == "*" then Star else Underscore;
  }

  /** A span of some kind stands at `i`, up to `e`. */
  predicate IsSpan(s: string, i: nat, e: nat, kind: Kind, lit: string, out: string) {
    && i < |s| && !At(s, i, Ticks) && At(s, i, InMark(kind)) && KindAt(s, i) == Some(kind)
    && lit == Literal(InMark(kind)) && out == [OutMark(kind)]
    && i + |lit| <= e <= |s| && Until(s, i + |lit|, InMark(kind)) == e
  }

  lemma SpanFound(s: string, i: nat, e: nat, lit: string) returns (kind: Kind)
    requires lit in SPANS && Has(s, i, lit) && (lit == "*" ==> !Has(s, i, "**"))
    requires FirstAt(s, i + |lit|, e, lit)
    ensures !kind.Backtick? && IsSpan(s, i, e, kind, lit, SPANS[lit])
  {
    kind := KindOfSpan(lit);
    SpanOpens(s, i, kind);
    FirstIsUntil(s, i + |lit|, e, InMark(kind));
  }

  lemma CodeFound(s: string, i: nat, e: nat)
    requires Has(s, i, "`") && !Has(s, i, "```") && FirstAt(s, i + 1, e, "`")
    ensures IsSpan(s, i, e, Backtick, "`", "`")
  {
    HasMark(s, i, Rune('`'));
    HasMark(s, i, Ticks);
    FirstIsUntil(s, i + 1, e, Rune('`'));
  }

  lemma SpanIsEmitted(s: string, i: nat, e: nat, kind: Kind, lit: string, out: string)
    requires IsSpan(s, i, e, kind, lit, out) && !kind.Backtick?
    ensures i + |lit| <= e <= |s|
    ensures e < |s| ==>
      e + |lit| <= |s| && From(s, i) == out + EscapeAll(s[i + |lit|..e]) + out + From(s, e + |lit|)
    ensures e == |s| ==> From(s, i) == out + EscapeAll(s[i + |lit|..e])
  {
    var text := s[i + |lit|..e];
    SpanToken(s, i, e, kind);
    FromNext(s, i, Inline(kind, text, e < |s|), if e < |s| then e + |lit| else e);
    SpanText(kind, text, e < |s|);
    NothingMore(s);
  }

  /**
   Two asterisks open bold text, one opens italics, and so does an underscore. The text up to the
   same delimiter, or to the end, is escaped.
   */
  lemma SpanRule(s: string, i: nat, e: nat, lit: string)
    requires lit in SPANS && Has(s, i, lit) && (lit == "*" ==> !Has(s, i, "**"))
    requires FirstAt(s, i + |lit|, e, lit)
    ensures i + |lit| <= e <= |s|
    ensures e < |s| ==>
      e + |lit| <= |s| && From(s, i) == SPANS[lit] + EscapeAll(s[i + |lit|..e]) + SPANS[lit] + From(s, e + |lit|)
    ensures e == |s| ==> From(s, i) == SPANS[lit] + EscapeAll(s[i + |lit|..e])
  {
    var kind := SpanFound(s, i, e, lit);
    SpanIsEmitted(s, i, e, kind, lit, SPANS[lit]);
  }

  // ---------- Code ----------

  lemma CodeText(text: string, closed: bool)
    ensures Emit(Inline(Backtick, text, closed)) == "`" + text + if closed then "`" else ""
  {
  }

  lemma CodeIsEmitted(s: string, i: nat, e: nat)
    requires IsSpan(s, i, e, Backtick, "`", "`")
    ensures i + 1 <= e <= |s|
    ensures e < |s| ==> From(s, i) == "`" + s[i + 1..e] + "`" + From(s, e + 1)
    ensures e == |s| ==> From(s, i) == "`" + s[i + 1..e]
  {
    var text := s[i + 1..e];
    SpanToken(s, i, e, Backtick);
    FromNext(s, i, Inline(Backtick, text, e < |s|), if e < |s| then e + 1 else e);
    CodeText(text, e < |s|);
    NothingMore(s);
  }

  /** A backtick opens code, which is copied up to the next one, or to the end. */
  lemma CodeRule(s: string, i: nat, e: nat)
    requires Has(s, i, "`") && !Has(s, i, "```") && FirstAt(s, i + 1, e, "`")
    ensures e < |s| ==> From(s, i) == "`" + s[i + 1..e] + "`" + From(s, e + 1)
    ensures e == |s| ==> From(s, i) == "`" + s[i + 1..e]
  {
    CodeFound(s, i, e);
    CodeIsEmitted(s, i, e);
  }

  /** Three backticks open a fence: the rest of their line is dropped, what follows it is copied. */
  lemma FenceRule(s: string, i: nat, h: nat, e: nat)
    requires Has(s, i, "```") && FirstAt(s, i + 3, h, "\n")
    requires if h < |s| then FirstAt(s, h + 1, e, "```") else e == h
    ensures h == |s| ==> From(s, i) == "```"
    ensures h < e < |s| ==> e + 3 <= |s| && From(s, i) == "```\n" + s[h + 1..e] + "```" + From(s, e + 3)
    ensures h < e == |s| ==> From(s, i) == "```\n" + s[h + 1..e]
  {
    HasMark(s, i, Ticks);
    FirstIsUntil(s, i + 3, h, Rune('\n'));
    NothingMore(s);
    if h == |s| {
      FromNext(s, i, Dangling(s[i + 3..h]), h);
    } else {
      FirstIsUntil(s, h + 1, e, Ticks);
      FenceEmits(s, i, h, e);
    }
  }

  lemma FenceText(hint: string, body: string, closed: bool)
    ensures Emit(Block(hint, body, closed)) == "```\n" + body + if closed then "```" else ""
  {
    var end := if closed then "```" else "";
    assert "```" + ("\n" + body + end) == "```\n" + body + end;
  }

  lemma FenceEmits(s: string, i: nat, h: nat, e: nat)
    requires At(s, i, Ticks) && i + 3 <= h < e <= |s| && Until(s, i + 3, Rune('\n')) == h && Until(s, h + 1, Ticks) == e
    ensures e < |s| ==> e + 3 <= |s| && From(s, i) == "```\n" + s[h + 1..e] + "```" + From(s, e + 3)
    ensures e == |s| ==> From(s, i) == "```\n" + s[h + 1..e]
  {
    var hint, body := s[i + 3..h], s[h + 1..e];
    FromNext(s, i, Block(hint, body, e < |s|), if e < |s| then e + 3 else e);
    FenceText(hint, body, e < |s|);
    NothingMore(s);
  }

  // ---------- Headers and plain text ----------

  /** At the start of a line, number signs and the blanks behind them make the rest of the line bold. */
  lemma HeaderRule(s: string, i: nat, m: nat, b: nat, e: nat)
    requires i < m <= b <= |s| && (i == 0 || s[i - 1] == '\n')
    requires (forall j | i <= j < m :: s[j] == '#') && (forall j | m <= j < b :: s[j] == ' ')
    requires (m < |s| ==> s[m] != '#') && (b < |s| ==> s[b] != ' ') && FirstAt(s, b, e, "\n")
    ensures From(s, i) == "*" + EscapeAll(s[b..e]) + "*" + From(s, e)
  {
    assert While(s, i, '#') == m && While(s, m, ' ') == b;
    FirstIsUntil(s, b, e, Rune('\n'));
    FromNext(s, i, Header(m - i, b - m, s[b..e]), e);
  }

  /** Any other character is emitted, behind a backslash if it is special. */
  lemma PlainRule(s: string, i: nat)
    requires i < |s| && s[i] != '`' && s[i] != '*' && s[i] != '_'
    requires s[i] == '#' ==> i > 0 && s[i - 1] != '\n'
    ensures From(s, i) == (if s[i] in SPECIALS then ['\\', s[i]] else [s[i]]) + From(s, i + 1)
  {
    ReservedAreSpecial(s[i]);
    FromNext(s, i, Char(s[i]), i + 1);
  }
}
