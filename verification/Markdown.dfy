/**
 The input dialect of the converter.

 `Scan` splits a text into tokens as the converter's loop does, and `Dialect` describes the token
 lists without a scanner. A text has exactly one token list of the dialect, its scan.
 */
module Markdown {
  import opened Sequences
  import opened Wrappers
  import opened TextSearch

  // ---------- What a reader sees ----------

  datatype Style = Bold | Italic | Code | Fence

  /** `closed` is false only for a last span whose closing delimiter is missing. */
  datatype Span = Plain(c: char) | Styled(style: Style, text: string, closed: bool)

  /** The characters that must be escaped outside code. */
  predicate Reserved(c: char) {
    || c == '_' || c == '*' || c == '[' || c == ']' || c == '(' || c == ')' || c == '~'
    || c == '`' || c == '>' || c == '#' || c == '+' || c == '-' || c == '=' || c == '|'
    || c == '{' || c == '}' || c == '.' || c == '!' || c == '\\'
  }

  function Escape(c: char): string {
    if Reserved(c) then ['\\', c] else [c]
  }

  function EscapeAll(s: string): string {
    if s == "" then "" else Escape(s[0]) + EscapeAll(s[1..])
  }

  // ---------- The input dialect ----------

  /** The four kinds of inline span, by their delimiter in the input. */
  datatype Kind = Backtick | TwoStars | Star | Underscore

  function InMark(kind: Kind): Mark {
    match kind
    case Backtick => Rune('`')
    case TwoStars => Stars
    case Star => Rune('*')
    case Underscore => Rune('_')
  }

  function OutMark(kind: Kind): char {
    match kind
    case Backtick => '`'
    case TwoStars => '*'
    case Star => '_'
    case Underscore => '_'
  }

  function StyleOf(kind: Kind): Style {
    match kind
    case Backtick => Code
    case TwoStars => Bold
    case Star => Italic
    case Underscore => Italic
  }

  /**
   A token keeps every character of the input it covers. A `Dangling` fence has no line
   break, so the rest of the input is its language hint.
   */
  datatype Token =
    | Char(c: char)
    | Inline(kind: Kind, text: string, closed: bool)
    | Block(hint: string, text: string, closed: bool)
    | Dangling(hint: string)
    | Header(marks: nat, blanks: nat, text: string)

  /** `text` between two copies of `mark`, the second one missing when the span is not closed. */
  function Delimited(mark: string, text: string, closed: bool): string {
    mark + text + if closed then mark else ""
  }

  /** The body of a fenced block, from the line break on. */
  function BlockBody(text: string, closed: bool): string {
    "\n" + text + if closed then "```" else ""
  }

  /** The input text a token was scanned from. */
  function Source(t: Token): string {
    match t
    case Char(c) => [c]
    case Inline(kind, text, closed) => Delimited(Literal(InMark(kind)), text, closed)
    case Block(hint, text, closed) => "```" + hint + BlockBody(text, closed)
    case Dangling(hint) => "```" + hint
    case Header(marks, blanks, text) => Repeat('#', marks) + Repeat(' ', blanks) + text
  }

  /** The output text a token is converted to. */
  function Emit(t: Token): string {
    match t
    case Char(c) => Escape(c)
    case Inline(kind, text, closed) =>
      Delimited([OutMark(kind)], if kind.Backtick? then text else EscapeAll(text), closed)
    case Block(_, text, closed) => "```" + BlockBody(text, closed)
    case Dangling(_) => "```"
    case Header(_, _, text) => Delimited("*", EscapeAll(text), true)
  }

  /** What a token means to a reader: language hints and header marks are dropped. */
  function Meaning(t: Token): Span {
    match t
    case Char(c) => Plain(c)
    case Inline(kind, text, closed) => Styled(StyleOf(kind), text, closed)
    case Block(_, text, closed) => Styled(Fence, text, closed)
    case Dangling(_) => Styled(Fence, "", false)
    case Header(_, _, text) => Styled(Bold, text, true)
  }

  function SourceAll(ts: seq<Token>): string {
    if ts == [] then "" else Source(ts[0]) + SourceAll(ts[1..])
  }

  function EmitAll(ts: seq<Token>): string {
    if ts == [] then "" else Emit(ts[0]) + EmitAll(ts[1..])
  }

  function MeaningAll(ts: seq<Token>): seq<Span> {
    if ts == [] then [] else [Meaning(ts[0])] + MeaningAll(ts[1..])
  }

  predicate BeginsLine(s: string, i: nat)
    requires i <= |s|
  {
    i == 0 || s[i - 1] == '\n'
  }

  /** The kind of inline span that opens at `i`, tried in the converter's order. */
  function KindAt(s: string, i: nat): Option<Kind>
    requires i < |s|
  {
    if s[i] == '`' then Some(Backtick)
    else if At(s, i, Stars) then Some(TwoStars)
    else if s[i] == '*' then Some(Star)
    else if s[i] == '_' then Some(Underscore)
    else None
  }

  function InlineAt(s: string, i: nat, kind: Kind): (r: (Token, nat))
    requires i < |s| && At(s, i, InMark(kind))
    ensures i < r.1 <= |s|
  {
    var w := |Literal(InMark(kind))|;
    var e := Until(s, i + w, InMark(kind));
    (Inline(kind, s[i + w..e], e < |s|), if e < |s| then e + w else e)
  }

  function BlockAt(s: string, i: nat): (r: (Token, nat))
    requires At(s, i, Ticks)
    ensures i < r.1 <= |s|
  {
    var h := Until(s, i + 3, Rune('\n'));
    if h == |s| then (Dangling(s[i + 3..h]), h)
    else
      var e := Until(s, h + 1, Ticks);
      (Block(s[i + 3..h], s[h + 1..e], e < |s|), if e < |s| then e + 3 else e)
  }

  function HeaderAt(s: string, i: nat): (r: (Token, nat))
    requires At(s, i, Rune('#'))
    ensures i < r.1 <= |s|
  {
    var m := While(s, i, '#');
    var b := While(s, m, ' ');
    var e := Until(s, b, Rune('\n'));
    (Header(m - i, b - m, s[b..e]), e)
  }

  /** The token that starts at position `i`, and the position after it. */
  function Next(s: string, i: nat): (r: (Token, nat))
    requires i < |s|
    ensures i < r.1 <= |s|
  {
    if At(s, i, Ticks) then BlockAt(s, i)
    else if KindAt(s, i).Some? then InlineAt(s, i, KindAt(s, i).value)
    else if s[i] == '#' && BeginsLine(s, i) then HeaderAt(s, i)
    else (Char(s[i]), i + 1)
  }

  /** The tokens of the input from position `i` on. */
  function Scan(s: string, i: nat): seq<Token>
    requires i <= |s|
    decreases |s| - i
  {
    if i == |s| then [] else
      var (t, next) := Next(s, i);
      [t] + Scan(s, next)
  }

  // ---------- The scanner loses nothing ----------

  /** What follows the text of a span that `mark` delimits. */
  function Closing(mark: Mark, closed: bool): string {
    if closed then Literal(mark) else ""
  }

  /** The text a search from `a` stops at, with its closing mark, stands at `a`. */
  lemma UntilHas(s: string, a: nat, mark: Mark)
    requires a <= |s|
    ensures var e := Until(s, a, mark); Has(s, a, s[a..e] + Closing(mark, e < |s|))
  {
    var e := Until(s, a, mark);
    HasSlice(s, a, e);
    HasMark(s, e, mark);
    HasCat(s, a, s[a..e], Closing(mark, e < |s|));
  }

  lemma InlineSource(s: string, i: nat, kind: Kind)
    requires i < |s| && At(s, i, InMark(kind))
    ensures var (t, next) := InlineAt(s, i, kind); Has(s, i, Source(t)) && next == i + |Source(t)|
  {
    var (t, next) := InlineAt(s, i, kind);
    var mark := InMark(kind);
    HasMark(s, i, mark);
    UntilHas(s, i + |Literal(mark)|, mark);
    HasCat(s, i + |Literal(mark)|, t.text, Closing(mark, t.closed));
    HasCat(s, i, Literal(mark), t.text);
    HasCat(s, i, Literal(mark) + t.text, Closing(mark, t.closed));
  }

  lemma BlockBodyHas(s: string, h: nat)
    requires At(s, h, Rune('\n'))
    ensures var e := Until(s, h + 1, Ticks); Has(s, h, BlockBody(s[h + 1..e], e < |s|))
  {
    var e := Until(s, h + 1, Ticks);
    HasMark(s, h, Rune('\n'));
    UntilHas(s, h + 1, Ticks);
    HasCat(s, h, "\n", s[h + 1..e] + Closing(Ticks, e < |s|));
  }

  lemma FenceHas(s: string, i: nat, h: nat)
    requires At(s, i, Ticks) && i + 3 <= h <= |s|
    ensures Has(s, i, "```" + s[i + 3..h])
  {
    HasMark(s, i, Ticks);
    HasSlice(s, i + 3, h);
    HasCat(s, i, "```", s[i + 3..h]);
  }

  lemma ClosedBlockHas(s: string, i: nat, h: nat)
    requires At(s, i, Ticks) && i + 3 <= h && At(s, h, Rune('\n'))
    ensures var e := Until(s, h + 1, Ticks);
            Has(s, i, "```" + s[i + 3..h] + BlockBody(s[h + 1..e], e < |s|))
  {
    var e := Until(s, h + 1, Ticks);
    FenceHas(s, i, h);
    BlockBodyHas(s, h);
    HasCat(s, i, "```" + s[i + 3..h], BlockBody(s[h + 1..e], e < |s|));
  }

  lemma BlockLength(s: string, i: nat)
    requires At(s, i, Ticks)
    ensures var (t, next) := BlockAt(s, i); next == i + |Source(t)|
  {
  }

  lemma BlockSource(s: string, i: nat)
    requires At(s, i, Ticks)
    ensures Has(s, i, Source(BlockAt(s, i).0))
  {
    var h := Until(s, i + 3, Rune('\n'));
    var t := BlockAt(s, i).0;
    if h < |s| {
      var e := Until(s, h + 1, Ticks);
      assert t == Block(s[i + 3..h], s[h + 1..e], e < |s|);
      assert Has(s, i, Source(t)) by { ClosedBlockHas(s, i, h); }
    } else {
      assert t == Dangling(s[i + 3..h]);
      assert Has(s, i, Source(t)) by { FenceHas(s, i, h); }
    }
  }

  lemma RunHas(s: string, i: nat, c: char)
    requires i <= |s|
    ensures Has(s, i, Repeat(c, While(s, i, c) - i))
  {
  }

  lemma HeaderSource(s: string, i: nat)
    requires At(s, i, Rune('#'))
    ensures var (t, next) := HeaderAt(s, i); Has(s, i, Source(t)) && next == i + |Source(t)|
  {
    var m := While(s, i, '#');
    var b := While(s, m, ' ');
    var e := Until(s, b, Rune('\n'));
    assert Has(s, i, Repeat('#', m - i) + Repeat(' ', b - m)) by {
      RunHas(s, i, '#');
      RunHas(s, m, ' ');
      HasCat(s, i, Repeat('#', m - i), Repeat(' ', b - m));
    }
    assert Has(s, b, s[b..e]) by {
      HasSlice(s, b, e);
    }
    HasCat(s, i, Repeat('#', m - i) + Repeat(' ', b - m), s[b..e]);
  }

  lemma NextSource(s: string, i: nat)
    requires i < |s|
    ensures var (t, next) := Next(s, i); Has(s, i, Source(t)) && next == i + |Source(t)|
  {
    if At(s, i, Ticks) {
      BlockSource(s, i);
      BlockLength(s, i);
    } else if KindAt(s, i).Some? {
      InlineSource(s, i, KindAt(s, i).value);
    } else if s[i] == '#' && BeginsLine(s, i) {
      HeaderSource(s, i);
    }
  }

  lemma {:induction false} ScanHas(s: string, i: nat)
    requires i <= |s|
    ensures Has(s, i, SourceAll(Scan(s, i))) && i + |SourceAll(Scan(s, i))| == |s|
    decreases |s| - i
  {
    if i < |s| {
      var (t, next) := Next(s, i);
      NextSource(s, i);
      ScanHas(s, next);
      HasCat(s, i, Source(t), SourceAll(Scan(s, next)));
    }
  }

  /** The tokens of a text, printed back, are that text. */
  lemma ScanLosesNothing(s: string)
    ensures SourceAll(Scan(s, 0)) == s
  {
    ScanHas(s, 0);
  }

  // ---------- The dialect, described without the scanner ----------

  /** No mark starts inside `text`, even one that would end in the closing mark. */
  predicate Lacks(text: string, mark: Mark, closed: bool) {
    forall j: nat | j < |text| :: !At(text + Closing(mark, closed), j, mark)
  }

  predicate Ticked(t: Token) {
    t.Block? || t.Dangling? || (t.Inline? && t.kind.Backtick?)
  }

  /** Where a token may stand: at a line start or not, and before `tail`. */
  predicate TokenOk(t: Token, bol: bool, tail: seq<Token>) {
    match t
    case Char(c) => c != '`' && c != '*' && c != '_' && !(bol && c == '#')
    case Inline(kind, text, closed) =>
      && Lacks(text, InMark(kind), closed)
      && (closed || tail == [])
      && (text == "" && closed ==> !kind.Star?)
      && (text == "" && closed && kind.Backtick? && tail != [] ==> !Ticked(tail[0]))
    case Block(hint, text, closed) =>
      && '\n' !in hint
      && Lacks(text, Ticks, closed)
      && (closed || tail == [])
    case Dangling(hint) => '\n' !in hint && tail == []
    case Header(marks, blanks, text) =>
      && bol && marks > 0
      && '\n' !in text
      && !At(text, 0, Rune(' '))
      && (blanks == 0 ==> !At(text, 0, Rune('#')))
      && (tail == [] || tail[0] == Char('\n'))
  }

  predicate Dialect(ts: seq<Token>, bol: bool) {
    ts == [] || (TokenOk(ts[0], bol, ts[1..]) && Dialect(ts[1..], ts[0] == Char('\n')))
  }

  /** The text a search stops at lacks the mark. */
  lemma UntilLacks(s: string, a: nat, mark: Mark)
    requires a <= |s|
    ensures var e := Until(s, a, mark); Lacks(s[a..e], mark, e < |s|)
  {
    var e := Until(s, a, mark);
    var body := s[a..e] + Closing(mark, e < |s|);
    UntilHas(s, a, mark);
    forall j: nat | j < e - a ensures !At(body, j, mark) {
      AtCopy(s, a, body, j, mark);
    }
  }

  /** A text that lacks the mark is what a search stops at. */
  lemma LacksUntil(s: string, a: nat, mark: Mark, text: string, closed: bool)
    requires Has(s, a, text + Closing(mark, closed)) && Lacks(text, mark, closed)
    requires closed || a + |text| == |s|
    ensures Until(s, a, mark) == a + |text|
    ensures a + |text| < |s| <==> closed
    ensures s[a..a + |text|] == text
  {
    var body := text + Closing(mark, closed);
    HasCat(s, a, text, Closing(mark, closed));
    SliceHas(s, a, text);
    HasMark(s, a + |text|, mark);
    forall j: nat | a <= j < a + |text| ensures !At(s, j, mark) {
      HasMark(s, j, mark);
      AtCopy(s, a, body, j - a, mark);
      assert !At(body, j - a, mark);
    }
  }

  // ---------- Every scan is in the dialect ----------

  lemma ScanHead(s: string, i: nat)
    requires i <= |s|
    ensures i == |s| ==> Scan(s, i) == []
    ensures i < |s| ==> Scan(s, i) != [] && Scan(s, i)[0] == Next(s, i).0
    ensures i < |s| && s[i] != '`' ==> !Ticked(Scan(s, i)[0])
    ensures i < |s| && s[i] == '\n' ==> Scan(s, i)[0] == Char('\n')
  {
  }

  lemma BlockOk(s: string, i: nat, bol: bool, tail: seq<Token>)
    requires At(s, i, Ticks)
    requires BlockAt(s, i).1 == |s| ==> tail == []
    ensures TokenOk(BlockAt(s, i).0, bol, tail)
  {
    var h := Until(s, i + 3, Rune('\n'));
    UntilRune(s, i + 3, '\n');
    if h < |s| {
      UntilLacks(s, h + 1, Ticks);
    }
  }

  lemma InlineOk(s: string, i: nat, kind: Kind, bol: bool, tail: seq<Token>)
    requires i < |s| && !At(s, i, Ticks) && KindAt(s, i) == Some(kind)
    requires var next := InlineAt(s, i, kind).1;
             && (next == |s| ==> tail == [])
             && (next < |s| && s[next] != '`' ==> tail != [] && !Ticked(tail[0]))
    ensures TokenOk(InlineAt(s, i, kind).0, bol, tail)
  {
    UntilLacks(s, i + |Literal(InMark(kind))|, InMark(kind));
  }

  lemma HeaderOk(s: string, i: nat, tail: seq<Token>)
    requires i < |s| && s[i] == '#'
    requires var next := HeaderAt(s, i).1;
             && (next == |s| ==> tail == [])
             && (next < |s| ==> tail != [] && tail[0] == Char('\n'))
    ensures TokenOk(HeaderAt(s, i).0, true, tail)
  {
    UntilRune(s, While(s, While(s, i, '#'), ' '), '\n');
  }

  lemma NextOk(s: string, i: nat)
    requires i < |s|
    ensures var (t, next) := Next(s, i); TokenOk(t, BeginsLine(s, i), Scan(s, next))
  {
    var next := Next(s, i).1;
    var tail := Scan(s, next);
    ScanHead(s, next);
    if At(s, i, Ticks) {
      BlockOk(s, i, BeginsLine(s, i), tail);
    } else if KindAt(s, i).Some? {
      InlineOk(s, i, KindAt(s, i).value, BeginsLine(s, i), tail);
    } else if s[i] == '#' && BeginsLine(s, i) {
      HeaderOk(s, i, tail);
    }
  }

  /** A token ends a line exactly when it is a line break. */
  lemma NextBol(s: string, i: nat, t: Token, next: nat)
    requires i < |s| && Next(s, i) == (t, next)
    ensures next < |s| ==> BeginsLine(s, next) == (t == Char('\n'))
  {
    if !At(s, i, Ticks) && KindAt(s, i).None? && s[i] == '#' && BeginsLine(s, i) {
      UntilRune(s, While(s, While(s, i, '#'), ' '), '\n');
    }
  }

  /** Every scan is a token list of the dialect. */
  lemma {:induction false} ScanInDialect(s: string, i: nat)
    requires i <= |s|
    ensures Scan(s, i) == [] || Dialect(Scan(s, i), BeginsLine(s, i))
    decreases |s| - i
  {
    if i < |s| {
      var next := Next(s, i).1;
      NextOk(s, i);
      NextBol(s, i, Next(s, i).0, next);
      ScanInDialect(s, next);
      ScanHead(s, next);
    }
  }

  // ---------- Only one token list of the dialect prints to a given text ----------

  lemma InlineParts(s: string, i: nat, t: Token)
    requires t.Inline? && Has(s, i, Source(t))
    ensures At(s, i, InMark(t.kind))
    ensures Has(s, i + |Literal(InMark(t.kind))|, t.text + Closing(InMark(t.kind), t.closed))
  {
    var mark := InMark(t.kind);
    HasCat(s, i, Literal(mark) + t.text, Closing(mark, t.closed));
    HasCat(s, i, Literal(mark), t.text);
    HasCat(s, i + |Literal(mark)|, t.text, Closing(mark, t.closed));
    HasMark(s, i, mark);
  }

  lemma NextInline(s: string, i: nat, t: Token)
    requires t.Inline? && Has(s, i, Source(t)) && Lacks(t.text, InMark(t.kind), t.closed)
    requires var next := i + |Source(t)|;
             && (t.closed || next == |s|)
             && (t.text == "" && t.closed ==> !t.kind.Star?)
             && (t.text == "" && t.closed && t.kind.Backtick? ==> next == |s| || s[next] != '`')
    ensures Next(s, i) == (t, i + |Source(t)|)
  {
    var mark := InMark(t.kind);
    assert At(s, i, mark) && Has(s, i + |Literal(mark)|, t.text + Closing(mark, t.closed)) by {
      InlineParts(s, i, t);
    }
    assert KindAt(s, i) == Some(t.kind) && !At(s, i, Ticks) by {
      InlineOpens(s, i, t);
    }
    LacksUntil(s, i + |Literal(mark)|, mark, t.text, t.closed);
  }

  /** An inline span is recognised by its opening mark. */
  lemma InlineOpens(s: string, i: nat, t: Token)
    requires t.Inline? && At(s, i, InMark(t.kind))
    requires Has(s, i + |Literal(InMark(t.kind))|, t.text + Closing(InMark(t.kind), t.closed))
    requires Lacks(t.text, InMark(t.kind), t.closed)
    requires var next := i + |Source(t)|;
             && (t.closed || next == |s|)
             && (t.text == "" && t.closed ==> !t.kind.Star?)
             && (t.text == "" && t.closed && t.kind.Backtick? ==> next == |s| || s[next] != '`')
    ensures KindAt(s, i) == Some(t.kind) && !At(s, i, Ticks)
  {
    var mark := InMark(t.kind);
    var body := t.text + Closing(mark, t.closed);
    if t.text != "" && mark.Rune? {
      assert !At(body, 0, mark);
      assert s[i + 1 + 0] == body[0];
    }
  }

  lemma BlockParts(s: string, i: nat, hint: string, text: string, closed: bool)
    requires Has(s, i, "```" + hint + BlockBody(text, closed))
    ensures var h := i + 3 + |hint|;
            && At(s, i, Ticks) && Has(s, i + 3, hint) && At(s, h, Rune('\n'))
            && Has(s, h + 1, text + Closing(Ticks, closed))
  {
    var h := i + 3 + |hint|;
    var body := text + Closing(Ticks, closed);
    HasCat(s, i, "```" + hint, BlockBody(text, closed));
    HasCat(s, i, "```", hint);
    HasMark(s, i, Ticks);
    assert BlockBody(text, closed) == "\n" + body;
    HasCat(s, h, "\n", body);
    HasMark(s, h, Rune('\n'));
  }

  lemma BlockEnds(s: string, i: nat, hint: string, text: string, closed: bool)
    requires Has(s, i, "```" + hint + BlockBody(text, closed))
    requires '\n' !in hint && Lacks(text, Ticks, closed)
    requires closed || i + 4 + |hint| + |text| == |s|
    ensures At(s, i, Ticks)
    ensures var h := i + 3 + |hint|;
            && Until(s, i + 3, Rune('\n')) == h < |s| && s[i + 3..h] == hint
            && Until(s, h + 1, Ticks) == h + 1 + |text| <= |s|
            && s[h + 1..h + 1 + |text|] == text
            && (h + 1 + |text| < |s| <==> closed)
  {
    var h := i + 3 + |hint|;
    BlockParts(s, i, hint, text, closed);
    assert Until(s, i + 3, Rune('\n')) == h && s[i + 3..h] == hint by {
      RuneUntil(s, i + 3, '\n', hint);
    }
    LacksUntil(s, h + 1, Ticks, text, closed);
  }

  lemma NextBlock(s: string, i: nat, t: Token)
    requires t.Block? && Has(s, i, Source(t))
    requires '\n' !in t.hint && Lacks(t.text, Ticks, t.closed)
    requires t.closed || i + |Source(t)| == |s|
    ensures Next(s, i) == (t, i + |Source(t)|)
  {
    BlockEnds(s, i, t.hint, t.text, t.closed);
  }

  lemma NextDangling(s: string, i: nat, t: Token)
    requires t.Dangling? && Has(s, i, Source(t)) && i + |Source(t)| == |s|
    requires '\n' !in t.hint
    ensures Next(s, i) == (t, i + |Source(t)|)
  {
    HasCat(s, i, "```", t.hint);
    HasMark(s, i, Ticks);
    RuneUntil(s, i + 3, '\n', t.hint);
  }

  lemma HeaderParts(s: string, i: nat, t: Token)
    requires t.Header? && Has(s, i, Source(t)) && t.marks > 0
    ensures var m := i + t.marks; var b := m + t.blanks;
            && Has(s, i, Repeat('#', t.marks)) && Has(s, m, Repeat(' ', t.blanks)) && Has(s, b, t.text)
            && i < |s| && s[i] == '#' && b + |t.text| == i + |Source(t)|
  {
    HasCat(s, i, Repeat('#', t.marks) + Repeat(' ', t.blanks), t.text);
    HasCat(s, i, Repeat('#', t.marks), Repeat(' ', t.blanks));
    assert s[i + 0] == Repeat('#', t.marks)[0];
  }

  lemma HeaderEnds(s: string, i: nat, t: Token)
    requires t.Header? && Has(s, i, Source(t))
    requires '\n' !in t.text && !At(t.text, 0, Rune(' ')) && (t.blanks == 0 ==> !At(t.text, 0, Rune('#')))
    requires t.marks > 0
    requires var next := i + |Source(t)|; next == |s| || s[next] == '\n'
    ensures var m := i + t.marks; var b := m + t.blanks;
            && i < m && b + |t.text| <= |s| && s[i] == '#'
            && While(s, i, '#') == m && While(s, m, ' ') == b
            && Until(s, b, Rune('\n')) == b + |t.text| && s[b..b + |t.text|] == t.text
  {
    var m := i + t.marks;
    var b := m + t.blanks;
    HeaderParts(s, i, t);
    HeaderMarks(s, m, t.blanks, t.text);
    assert While(s, i, '#') == m by {
      WhileIs(s, i, '#', t.marks);
    }
    assert While(s, m, ' ') == b by {
      WhileIs(s, m, ' ', t.blanks);
    }
    RuneUntil(s, b, '\n', t.text);
  }

  lemma HeaderFound(s: string, i: nat, t: Token)
    requires t.Header? && Has(s, i, Source(t))
    requires '\n' !in t.text && !At(t.text, 0, Rune(' ')) && (t.blanks == 0 ==> !At(t.text, 0, Rune('#')))
    requires t.marks > 0
    requires var next := i + |Source(t)|; next == |s| || s[next] == '\n'
    ensures i < |s| && s[i] == '#' && HeaderAt(s, i) == (t, i + |Source(t)|)
  {
    HeaderEnds(s, i, t);
  }

  lemma NextHeader(s: string, i: nat, t: Token)
    requires t.Header? && Has(s, i, Source(t)) && BeginsLine(s, i)
    requires '\n' !in t.text && !At(t.text, 0, Rune(' ')) && (t.blanks == 0 ==> !At(t.text, 0, Rune('#')))
    requires t.marks > 0
    requires var next := i + |Source(t)|; next == |s| || s[next] == '\n'
    ensures Next(s, i) == (t, i + |Source(t)|)
  {
    HeaderFound(s, i, t);
  }

  /** After the header marks and blanks stands neither another mark nor another blank. */
  lemma HeaderMarks(s: string, m: nat, blanks: nat, text: string)
    requires Has(s, m, Repeat(' ', blanks)) && Has(s, m + blanks, text)
    requires !At(text, 0, Rune(' ')) && (blanks == 0 ==> !At(text, 0, Rune('#')))
    requires text == "" ==> m + blanks == |s| || s[m + blanks] == '\n'
    ensures m < |s| ==> s[m] != '#'
    ensures m + blanks < |s| ==> s[m + blanks] != ' '
  {
    assert blanks > 0 ==> s[m + 0] == Repeat(' ', blanks)[0];
    assert text != "" ==> s[m + blanks + 0] == text[0];
  }

  /** The tokens stand in the text one after the other from `i` to its end. */
  predicate Stand(s: string, i: nat, ts: seq<Token>)
    decreases |ts|
  {
    if ts == [] then i == |s| else Has(s, i, Source(ts[0])) && Stand(s, i + |Source(ts[0])|, ts[1..])
  }

  lemma {:induction false} SourceStands(s: string, i: nat, ts: seq<Token>)
    requires Has(s, i, SourceAll(ts)) && i + |SourceAll(ts)| == |s|
    ensures Stand(s, i, ts)
    decreases |ts|
  {
    if ts != [] {
      HasCat(s, i, Source(ts[0]), SourceAll(ts[1..]));
      SourceStands(s, i + |Source(ts[0])|, ts[1..]);
    }
  }

  /** The first character of a token list of the dialect. */
  lemma HeadAt(s: string, i: nat, ts: seq<Token>, bol: bool)
    requires Dialect(ts, bol) && Stand(s, i, ts) && i <= |s|
    ensures i == |s| <==> ts == []
    ensures i < |s| && s[i] == '`' ==> Ticked(ts[0])
    ensures i < |s| && ts[0] == Char('\n') ==> s[i] == '\n'
  {
    if ts != [] {
      assert TokenOk(ts[0], bol, ts[1..]);
      assert |Source(ts[0])| > 0 && s[i + 0] == Source(ts[0])[0];
    }
  }

  lemma NextUnique(s: string, i: nat, t: Token, tail: seq<Token>)
    requires i <= |s| && TokenOk(t, BeginsLine(s, i), tail) && Has(s, i, Source(t))
    requires var next := i + |Source(t)|;
             && (next == |s| <==> tail == [])
             && (next < |s| && s[next] == '`' ==> Ticked(tail[0]))
             && (next < |s| && tail[0] == Char('\n') ==> s[next] == '\n')
    ensures i < |s| && Next(s, i) == (t, i + |Source(t)|)
  {
    match t
    case Char(c) => assert s[i + 0] == Source(t)[0];
    case Inline(_, _, _) => NextInline(s, i, t);
    case Block(_, _, _) => NextBlock(s, i, t);
    case Dangling(_) => NextDangling(s, i, t);
    case Header(_, _, _) => NextHeader(s, i, t);
  }

  lemma SourceEnds(s: string, i: nat, t: Token)
    requires Has(s, i, Source(t))
    ensures i + |Source(t)| <= |s|
  {
  }

  /** The token that stands at a position is the one the scanner takes. */
  lemma NextStands(s: string, i: nat, t: Token, tail: seq<Token>, next: nat)
    requires i <= |s| && TokenOk(t, BeginsLine(s, i), tail) && Has(s, i, Source(t)) && next == i + |Source(t)|
    requires Dialect(tail, t == Char('\n')) && Stand(s, next, tail)
    ensures i < |s| && Next(s, i) == (t, next)
    ensures next <= |s| && (next == |s| <==> tail == [])
  {
    SourceEnds(s, i, t);
    HeadAt(s, next, tail, t == Char('\n'));
    NextUnique(s, i, t, tail);
  }

  lemma FirstStands(s: string, i: nat, ts: seq<Token>, bol: bool)
    requires ts != [] && Dialect(ts, bol) && Stand(s, i, ts)
    ensures TokenOk(ts[0], bol, ts[1..]) && Has(s, i, Source(ts[0]))
    ensures Dialect(ts[1..], ts[0] == Char('\n')) && Stand(s, i + |Source(ts[0])|, ts[1..])
  {
  }

  /** The first of some standing tokens is what the scanner takes, and the others stand behind it. */
  lemma FirstScanned(s: string, i: nat, ts: seq<Token>)
    requires ts != [] && i <= |s| && Dialect(ts, BeginsLine(s, i)) && Stand(s, i, ts)
    ensures i < |s| && Next(s, i).0 == ts[0]
    ensures var next := Next(s, i).1;
            && Dialect(ts[1..], ts[0] == Char('\n')) && Stand(s, next, ts[1..])
            && (ts[1..] != [] ==> BeginsLine(s, next) == (ts[0] == Char('\n')))
  {
    var t, tail, next := ts[0], ts[1..], i + |Source(ts[0])|;
    FirstStands(s, i, ts, BeginsLine(s, i));
    assert i < |s| && Next(s, i) == (t, next) && (next == |s| <==> tail == []) by {
      NextStands(s, i, t, tail, next);
    }
    NextBol(s, i, t, next);
  }

  /** The scanner takes these tokens one after the other, up to the end. */
  predicate Scanned(s: string, i: nat, ts: seq<Token>)
    decreases |ts|
  {
    if ts == [] then i == |s|
    else i < |s| && Next(s, i).0 == ts[0] && Scanned(s, Next(s, i).1, ts[1..])
  }

  lemma {:induction false} ScannedIsScan(s: string, i: nat, ts: seq<Token>)
    requires Scanned(s, i, ts)
    ensures i <= |s| && Scan(s, i) == ts
    decreases |ts|
  {
    if ts != [] {
      ScannedIsScan(s, Next(s, i).1, ts[1..]);
      assert ts == [ts[0]] + ts[1..];
    }
  }

  lemma {:induction false} StandingIsScanned(s: string, i: nat, ts: seq<Token>)
    requires i <= |s| && Stand(s, i, ts) && (ts != [] ==> Dialect(ts, BeginsLine(s, i)))
    ensures Scanned(s, i, ts)
    decreases |ts|
  {
    if ts != [] {
      FirstScanned(s, i, ts);
      StandingIsScanned(s, Next(s, i).1, ts[1..]);
    }
  }

  lemma ScanFinds(s: string, i: nat, ts: seq<Token>, bol: bool)
    requires i <= |s| && Stand(s, i, ts) && Dialect(ts, bol)
    requires ts != [] ==> bol == BeginsLine(s, i)
    ensures Scan(s, i) == ts
  {
    StandingIsScanned(s, i, ts);
    ScannedIsScan(s, i, ts);
  }

  /** A token list of the dialect is the scan of the text it prints to. */
  lemma ScanUnique(ts: seq<Token>)
    requires Dialect(ts, true)
    ensures Scan(SourceAll(ts), 0) == ts
  {
    SourceStands(SourceAll(ts), 0, ts);
    ScanFinds(SourceAll(ts), 0, ts, true);
  }
}
