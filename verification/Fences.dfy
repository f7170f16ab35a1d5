/**
 What becomes of a fenced block.

 The converter takes everything from the opening fence to the end of its line for a language hint,
 a closing fence on that line included.
 */
module Fences {
  import opened Wrappers
  import opened TextSearch
  import opened Markdown
  import opened MarkdownConverter

  /** A block ends at the first fence behind its own if and only if a line break comes before that. */
  lemma BlockClosesIff(s: string, i: nat)
    requires At(s, i, Ticks) && Until(s, i + 3, Ticks) < |s|
    ensures var close, h := Until(s, i + 3, Ticks), Until(s, i + 3, Rune('\n'));
            && (BlockAt(s, i).0.Block? && BlockAt(s, i).1 == close + 3 <==> h < close)
            && (h < close ==> BlockAt(s, i).0 == Block(s[i + 3..h], s[h + 1..close], true))
  {
    var close, h := Until(s, i + 3, Ticks), Until(s, i + 3, Rune('\n'));
    assert s[close] == s[close + 1] == s[close + 2] == '`';
    if h < close {
      var e := Until(s, h + 1, Ticks);
      assert e <= close;
      assert At(s, e, Ticks) ==> e >= close;
    }
  }

  /** A text's meaning is that of its first token, and of the tokens behind it. */
  lemma FirstMeaning(s: string, t: Token, next: nat)
    requires s != "" && Next(s, 0) == (t, next)
    ensures next <= |s| && Read(Converted(s), 0) == Some([Meaning(t)] + MeaningAll(Scan(s, next)))
  {
    ConversionKeepsMeaning(s);
    assert ([t] + Scan(s, next))[1..] == Scan(s, next);
  }

  /** A fence without any line break behind it is all language hint: none of its text is shown. */
  lemma OneLineFenceShowsNothing(rest: string)
    requires '\n' !in rest
    ensures Read(Converted("```" + rest), 0) == Some([Styled(Fence, "", false)])
  {
    var ts := [Dangling(rest)];
    assert SourceAll(ts) == "```" + rest;
    ScanUnique(ts);
    ConversionKeepsMeaning("```" + rest);
    assert MeaningAll(ts) == [Meaning(ts[0])];
  }

  lemma FirstBlock(s: string, h: nat, e: nat)
    requires At(s, 0, Ticks) && h < |s| && h == Until(s, 3, Rune('\n')) && e == Until(s, h + 1, Ticks)
    ensures Read(Converted(s), 0)
         == Some([Styled(Fence, s[h + 1..e], e < |s|)] + MeaningAll(Scan(s, if e < |s| then e + 3 else e)))
  {
    FirstMeaning(s, Block(s[3..h], s[h + 1..e], e < |s|), if e < |s| then e + 3 else e);
  }

  /**
   Whatever stands on the line of an opening fence is dropped, and what follows that line is shown
   as the block's text up to the next fence. So a fence that closes on its first line loses its
   text, and swallows the lines behind it.
   */
  lemma FirstLineIsHint(s: string)
    requires At(s, 0, Ticks)
    ensures var h := Until(s, 3, Rune('\n'));
            if h == |s| then Read(Converted(s), 0) == Some([Styled(Fence, "", false)])
            else var e := Until(s, h + 1, Ticks);
                 Read(Converted(s), 0)
                 == Some([Styled(Fence, s[h + 1..e], e < |s|)] + MeaningAll(Scan(s, if e < |s| then e + 3 else e)))
  {
    var h := Until(s, 3, Rune('\n'));
    if h < |s| {
      FirstBlock(s, h, Until(s, h + 1, Ticks));
    } else {
      UntilRune(s, 3, '\n');
      OpeningFence(s);
      OneLineFenceShowsNothing(s[3..]);
    }
  }

  lemma OpeningFence(s: string)
    requires At(s, 0, Ticks)
    ensures s == "```" + s[3..] && s[3..|s|] == s[3..]
  {
  }

  /** A fence that closes on its own line: its text is lost, and the next line is shown as fenced. */
  lemma SomeFenceSwallowsALine()
    ensures Read(Converted("```x```\nm"), 0) == Some([Styled(Fence, "m", false)])
  {
    var s := "```x```\nm";
    assert |s| == 9 && s[7] == '\n';
    assert Until(s, 3, Rune('\n')) == 7 && Until(s, 8, Ticks) == 9 && s[8..9] == "m";
    FirstBlock(s, 7, 9);
    assert Scan(s, 9) == [];
    assert [Styled(Fence, "m", false)] + [] == [Styled(Fence, "m", false)];
  }

  /** The part of a text behind its first line break, if there is one. */
  function AfterBreak(x: string): string {
    var h := Until(x, 0, Rune('\n'));
    if h < |x| then x[h + 1..] else ""
  }

  lemma UntilFinds(x: string, k: nat)
    requires k < |x| && x[k] == '\n'
    ensures Until(x, 0, Rune('\n')) <= k
  {
    assert At(x, k, Rune('\n'));
  }

  lemma SplitAround(x: string, h: nat)
    requires h < |x|
    ensures x == x[..h] + [x[h]] + x[h + 1..]
  {
  }

  lemma NoBreakBefore(x: string)
    ensures '\n' !in x[..Until(x, 0, Rune('\n'))]
  {
    UntilRune(x, 0, '\n');
    assert x[0..Until(x, 0, Rune('\n'))] == x[..Until(x, 0, Rune('\n'))];
  }

  lemma BreakSplits(x: string)
    requires '\n' in x
    ensures var h := Until(x, 0, Rune('\n'));
            h < |x| && x == x[..h] + ['\n'] + AfterBreak(x) && AfterBreak(x) == x[h + 1..] && '\n' !in x[..h]
  {
    var k :| 0 <= k < |x| && x[k] == '\n';
    UntilFinds(x, k);
    SplitAround(x, Until(x, 0, Rune('\n')));
    NoBreakBefore(x);
  }

  lemma BlockShown(hint: string, m: string)
    requires '\n' !in hint && Lacks(m, Ticks, true)
    ensures Read(Converted("```" + hint + ['\n'] + m + "```"), 0) == Some([Styled(Fence, m, true)])
  {
    var ts := [Block(hint, m, true)];
    var s := "```" + hint + ['\n'] + m + "```";
    assert SourceAll(ts) == s;
    ScanUnique(ts);
    ConversionKeepsMeaning(s);
    assert MeaningAll(ts) == [Meaning(ts[0])];
  }

  lemma SuffixLacks(x: string, k: nat)
    requires k <= |x| && Lacks(x, Ticks, true)
    ensures Lacks(x[k..], Ticks, true)
  {
    var closed := x + Closing(Ticks, true);
    forall j: nat | j < |x[k..]|
      ensures !At(x[k..] + Closing(Ticks, true), j, Ticks)
    {
      assert x[k..] + Closing(Ticks, true) == closed[k..];
      assert !At(closed, k + j, Ticks);
    }
  }

  lemma JoinFence(a: string, b: string, c: string)
    ensures "```" + (a + b + c) + "```" == "```" + a + b + c + "```"
  {
  }

  lemma FenceWithBreak(x: string)
    requires Lacks(x, Ticks, true) && '\n' in x
    ensures Read(Converted("```" + x + "```"), 0) == Some([Styled(Fence, AfterBreak(x), true)])
  {
    var h := Until(x, 0, Rune('\n'));
    BreakSplits(x);
    SuffixLacks(x, h + 1);
    BlockShown(x[..h], AfterBreak(x));
    JoinFence(x[..h], ['\n'], AfterBreak(x));
  }

  lemma FenceWithoutBreak(x: string)
    requires '\n' !in x
    ensures Read(Converted("```" + x + "```"), 0) == Some([Styled(Fence, "", false)])
  {
    OneLineFenceShowsNothing(x + "```");
    assert "```" + x + "```" == "```" + (x + "```");
  }

  /**
   A closed fence is shown as one, with the text behind its first line, if and only if there is a
   line break between its two fences.
   */
  lemma FenceShownIff(x: string)
    requires Lacks(x, Ticks, true)
    ensures Read(Converted("```" + x + "```"), 0) == Some([Styled(Fence, AfterBreak(x), true)]) <==> '\n' in x
  {
    if '\n' in x {
      FenceWithBreak(x);
    } else {
      FenceWithoutBreak(x);
    }
  }
}
