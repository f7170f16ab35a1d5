/**
 When the output has a bare double underscore.

 The strict reader takes one for two delimiters of italics; full MarkdownV2 takes it for underlining.
 */
module Underscores {
  import opened Sequences
  import opened Wrappers
  import opened TextSearch
  import opened Markdown
  import opened MarkdownConverter

  /** From `i` on, two underscores stand side by side that are neither escaped nor inside code. */
  predicate Doubled(t: string, i: nat)
    requires i <= |t|
    decreases |t| - i
  {
    if i == |t| then false
    else if t[i] == '`' then
      match ReadSpan(t, i)
      case Some((_, next)) => Doubled(t, next)
      case None => false
    else if t[i] == '\\' then i + 1 < |t| && Doubled(t, i + 2)
    else (t[i] == '_' && At(t, i + 1, Rune('_'))) || Doubled(t, i + 1)
  }

  predicate Italics(t: Token) {
    t.Inline? && (t.kind.Star? || t.kind.Underscore?)
  }

  /** Closed italics with no text, or with other italics directly behind them. */
  predicate Touches(t: Token, tail: seq<Token>) {
    Italics(t) && t.closed && (t.text == "" || (tail != [] && Italics(tail[0])))
  }

  predicate SomeTouch(ts: seq<Token>) {
    exists k | 0 <= k < |ts| :: Touches(ts[k], ts[k + 1..])
  }

  lemma SomeTouchCons(ts: seq<Token>)
    requires ts != []
    ensures SomeTouch(ts) <==> Touches(ts[0], ts[1..]) || SomeTouch(ts[1..])
  {
    forall k | 0 <= k < |ts| - 1
      ensures ts[1..][k] == ts[k + 1] && ts[1..][k + 1..] == ts[k + 2..]
    {
    }
    if SomeTouch(ts) && !Touches(ts[0], ts[1..]) {
      var k :| 0 <= k < |ts| && Touches(ts[k], ts[k + 1..]);
      assert Touches(ts[1..][k - 1], ts[1..][k..]);
    }
    if SomeTouch(ts[1..]) {
      var k :| 0 <= k < |ts[1..]| && Touches(ts[1..][k], ts[1..][k + 1..]);
      assert Touches(ts[k + 1], ts[k + 2..]);
    }
  }

  // ---------- Walking over one token ----------

  lemma OverEscape(t: string, i: nat, c: char)
    requires Has(t, i, Escape(c))
    ensures var next := i + |Escape(c)|; i < next <= |t| && (Doubled(t, i) <==> Doubled(t, next))
  {
    EscapedAt(t, i, c);
  }

  lemma {:induction false} OverEscaped(t: string, i: nat, text: string, end: nat)
    requires EscapedStands(t, i, text, end) && end <= |t|
    ensures i <= end && (Doubled(t, i) <==> Doubled(t, end))
    decreases |text|
  {
    if text != "" {
      OverEscape(t, i, text[0]);
      OverEscaped(t, i + |Escape(text[0])|, text[1..], end);
    }
  }

  /** Escaped text does not begin with a bare underscore. */
  lemma EscapedHead(t: string, i: nat, text: string, end: nat)
    requires EscapedStands(t, i, text, end) && text != ""
    ensures i < |t| && t[i] != '_' && i < end
  {
    EscapedAt(t, i, text[0]);
    EscapedGrows(t, i + |Escape(text[0])|, text[1..], end);
  }

  lemma {:induction false} EscapedGrows(t: string, i: nat, text: string, end: nat)
    requires EscapedStands(t, i, text, end)
    ensures i <= end
    decreases |text|
  {
    if text != "" {
      EscapedGrows(t, i + |Escape(text[0])|, text[1..], end);
    }
  }

  lemma OverBold(t: string, i: nat, text: string, closed: bool)
    requires Has(t, i, Delimited("*", EscapeAll(text), closed))
    requires closed || i + 1 + |EscapeAll(text)| == |t|
    ensures var next := i + |Delimited("*", EscapeAll(text), closed)|;
            next <= |t| && (Doubled(t, i) <==> Doubled(t, next))
  {
    DelimitedAt(t, i, '*', EscapeAll(text), closed);
    EscapedLies(t, i + 1, text);
    OverEscaped(t, i + 1, text, i + 1 + |EscapeAll(text)|);
  }

  lemma OverItalics(t: string, i: nat, text: string, closed: bool)
    requires Has(t, i, Delimited("_", EscapeAll(text), closed))
    requires closed || i + 1 + |EscapeAll(text)| == |t|
    ensures var next := i + |Delimited("_", EscapeAll(text), closed)|;
            && next <= |t|
            && (Doubled(t, i) <==> (closed && (text == "" || At(t, next, Rune('_')))) || Doubled(t, next))
  {
    var end := i + 1 + |EscapeAll(text)|;
    DelimitedAt(t, i, '_', EscapeAll(text), closed);
    EscapedLies(t, i + 1, text);
    OverEscaped(t, i + 1, text, end);
    if text != "" {
      EscapedHead(t, i + 1, text, end);
    }
  }

  lemma OverCode(t: string, i: nat, token: Token, bol: bool, tail: seq<Token>)
    requires Ticked(token) && TokenOk(token, bol, tail) && Has(t, i, Emit(token))
    requires var next := i + |Emit(token)|;
             && (next == |t| <==> tail == [])
             && (next < |t| && t[next] == '`' ==> Ticked(tail[0]))
    ensures var next := i + |Emit(token)|; i < next <= |t| && (Doubled(t, i) <==> Doubled(t, next))
  {
    ReadToken(t, i, token, bol, tail);
    assert Emit(token)[0] == '`' && t[i + 0] == Emit(token)[0];
  }

  /** A token is followed by a bare underscore exactly when italics follow it. */
  lemma UnderscoreFollows(t: string, i: nat, ts: seq<Token>, bol: bool)
    requires Dialect(ts, bol) && Has(t, i, EmitAll(ts)) && i + |EmitAll(ts)| == |t|
    ensures At(t, i, Rune('_')) <==> ts != [] && Italics(ts[0])
  {
    if ts != [] {
      EmitHead(ts);
      assert t[i + 0] == EmitAll(ts)[0];
      EmitBegins(ts, bol);
    }
  }

  lemma EmitBegins(ts: seq<Token>, bol: bool)
    requires ts != [] && Dialect(ts, bol)
    ensures EmitAll(ts) != "" && (EmitAll(ts)[0] == '_' <==> Italics(ts[0]))
  {
    EmitHead(ts);
    assert Emit(ts[0]) != "" && EmitAll(ts)[0] == Emit(ts[0])[0];
  }

  lemma OverInline(t: string, i: nat, token: Token, tail: seq<Token>, next: nat)
    requires token.Inline? && !token.kind.Backtick? && Has(t, i, Emit(token)) && next == i + |Emit(token)|
    requires token.closed || (tail == [] && next == |t|)
    requires At(t, next, Rune('_')) <==> tail != [] && Italics(tail[0])
    ensures next <= |t| && (Doubled(t, i) <==> Touches(token, tail) || Doubled(t, next))
  {
    if token.kind.TwoStars? {
      OverBold(t, i, token.text, token.closed);
    } else {
      OverItalics(t, i, token.text, token.closed);
    }
  }

  lemma OverToken(t: string, i: nat, token: Token, bol: bool, tail: seq<Token>, next: nat)
    requires TokenOk(token, bol, tail) && Has(t, i, Emit(token)) && next == i + |Emit(token)|
    requires next == |t| <==> tail == []
    requires next < |t| && t[next] == '`' ==> Ticked(tail[0])
    requires At(t, next, Rune('_')) <==> tail != [] && Italics(tail[0])
    ensures next <= |t| && (Doubled(t, i) <==> Touches(token, tail) || Doubled(t, next))
  {
    if Ticked(token) {
      OverCode(t, i, token, bol, tail);
    } else if token.Char? {
      OverEscape(t, i, token.c);
    } else if token.Header? {
      OverBold(t, i, token.text, true);
    } else {
      OverInline(t, i, token, tail, next);
    }
  }

  lemma OverHead(t: string, i: nat, token: Token, bol: bool, tail: seq<Token>, next: nat)
    requires TokenOk(token, bol, tail) && Has(t, i, Emit(token)) && next == i + |Emit(token)|
    requires Dialect(tail, token == Char('\n')) && Has(t, next, EmitAll(tail)) && next + |EmitAll(tail)| == |t|
    ensures next <= |t| && (Doubled(t, i) <==> Touches(token, tail) || Doubled(t, next))
  {
    EmittedAhead(t, next, tail);
    UnderscoreFollows(t, next, tail, token == Char('\n'));
    OverToken(t, i, token, bol, tail, next);
  }

  lemma OverParts(t: string, i: nat, ts: seq<Token>, bol: bool, next: nat)
    requires ts != [] && Has(t, i, EmitAll(ts)) && i + |EmitAll(ts)| == |t| && Dialect(ts, bol)
    requires next == i + |Emit(ts[0])|
    ensures next <= |t| && (Doubled(t, i) <==> Touches(ts[0], ts[1..]) || Doubled(t, next))
  {
    EmittedParts(t, i, ts);
    OverHead(t, i, ts[0], bol, ts[1..], next);
  }

  lemma OverFirst(t: string, i: nat, ts: seq<Token>, bol: bool, next: nat)
    requires ts != [] && Has(t, i, EmitAll(ts)) && i + |EmitAll(ts)| == |t| && Dialect(ts, bol)
    requires next == i + |Emit(ts[0])| && (next <= |t| ==> (Doubled(t, next) <==> SomeTouch(ts[1..])))
    ensures Doubled(t, i) <==> SomeTouch(ts)
  {
    OverParts(t, i, ts, bol, next);
    assert SomeTouch(ts) <==> Touches(ts[0], ts[1..]) || SomeTouch(ts[1..]) by {
      SomeTouchCons(ts);
    }
  }

  lemma {:induction false} OverTail(t: string, i: nat, ts: seq<Token>, bol: bool)
    requires ts != [] && Dialect(ts, bol) && Has(t, i, EmitAll(ts)) && i + |EmitAll(ts)| == |t|
    ensures var next := i + |Emit(ts[0])|; next <= |t| && (Doubled(t, next) <==> SomeTouch(ts[1..]))
    decreases |ts|, 0
  {
    EmittedTail(t, i, ts, bol);
    OverTokens(t, i + |Emit(ts[0])|, ts[1..], ts[0] == Char('\n'));
  }

  lemma {:induction false} OverTokens(t: string, i: nat, ts: seq<Token>, bol: bool)
    requires i <= |t| && Has(t, i, EmitAll(ts)) && i + |EmitAll(ts)| == |t| && Dialect(ts, bol)
    ensures Doubled(t, i) <==> SomeTouch(ts)
    decreases |ts|, 1
  {
    if ts != [] {
      OverTail(t, i, ts, bol);
      OverFirst(t, i, ts, bol, i + |Emit(ts[0])|);
    }
  }

  /**
   The output of a text has a bare double underscore outside code if and only if the text has closed
   italics that are empty, or that have other italics directly behind them.
   */
  lemma DoubledIff(text: string)
    ensures Doubled(Converted(text), 0) <==> SomeTouch(Scan(text, 0))
  {
    ScanInDialect(text, 0);
    OverTokens(Converted(text), 0, Scan(text, 0), true);
  }
}
