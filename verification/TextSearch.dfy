/** Searching a text by position, as the scanners and parsers of this project do. */
module TextSearch {
  import opened Sequences

  // ---------- Marks and searches ----------

  datatype Mark = Rune(c: char) | Stars | Ticks

  function Literal(mark: Mark): (lit: string)
    ensures lit != ""
  {
    match mark
    case Rune(c) => [c]
    case Stars => "**"
    case Ticks => "```"
  }

  predicate At(s: string, i: nat, mark: Mark) {
    match mark
    case Rune(c) => i < |s| && s[i] == c
    case Stars => i + 1 < |s| && s[i] == '*' && s[i + 1] == '*'
    case Ticks => i + 2 < |s| && s[i] == '`' && s[i + 1] == '`' && s[i + 2] == '`'
  }

  /** The first position from `i` on where `mark` stands, or the end of the text. */
  function Until(s: string, i: nat, mark: Mark): (n: nat)
    requires i <= |s|
    ensures i <= n <= |s|
    ensures n < |s| ==> At(s, n, mark)
    ensures forall j: nat | i <= j < n :: !At(s, j, mark)
    decreases |s| - i
  {
    if i == |s| || At(s, i, mark) then i else Until(s, i + 1, mark)
  }

  /** The first position from `i` on that does not hold `c`. */
  function While(s: string, i: nat, c: char): (n: nat)
    requires i <= |s|
    ensures i <= n <= |s|
    ensures n == |s| || s[n] != c
    ensures forall j | i <= j < n :: s[j] == c
    decreases |s| - i
  {
    if i == |s| || s[i] != c then i else While(s, i + 1, c)
  }

  function Repeat(c: char, n: nat): (s: string)
    ensures |s| == n && forall i | 0 <= i < n :: s[i] == c
  {
    seq(n, _ => c)
  }

  // ---------- Marks and the texts they stand for ----------

  lemma HasMark(s: string, i: nat, mark: Mark)
    ensures At(s, i, mark) <==> Has(s, i, Literal(mark))
  {
    var lit := Literal(mark);
    if Has(s, i, lit) {
      match mark
      case Rune(_) => assert s[i + 0] == lit[0];
      case Stars => assert s[i + 0] == lit[0] && s[i + 1] == lit[1];
      case Ticks => assert s[i + 0] == lit[0] && s[i + 1] == lit[1] && s[i + 2] == lit[2];
    }
  }

  // ---------- Searches and what they find ----------

  /** A mark inside a copied text is a mark in the original. */
  lemma AtCopy(s: string, a: nat, body: string, j: nat, mark: Mark)
    requires Has(s, a, body)
    ensures At(body, j, mark) ==> At(s, a + j, mark)
    ensures At(s, a + j, mark) && j + |Literal(mark)| <= |body| ==> At(body, j, mark)
  {
    assert j < |body| ==> s[a + j] == body[j];
    assert j + 1 < |body| ==> s[a + (j + 1)] == body[j + 1];
    assert j + 2 < |body| ==> s[a + (j + 2)] == body[j + 2];
  }

  lemma UntilRune(s: string, a: nat, c: char)
    requires a <= |s|
    ensures c !in s[a..Until(s, a, Rune(c))]
  {
    forall j: nat | a <= j < Until(s, a, Rune(c)) ensures s[j] != c {
      assert !At(s, j, Rune(c));
    }
  }

  lemma RuneUntil(s: string, a: nat, c: char, text: string)
    requires Has(s, a, text) && c !in text
    requires a + |text| == |s| || s[a + |text|] == c
    ensures Until(s, a, Rune(c)) == a + |text|
    ensures s[a..a + |text|] == text
  {
    var e := Until(s, a, Rune(c));
    forall j: nat | a <= j < a + |text| ensures !At(s, j, Rune(c)) {
      assert s[a + (j - a)] == text[j - a];
    }
    assert a + |text| < |s| ==> At(s, a + |text|, Rune(c));
  }

  lemma WhileIs(s: string, i: nat, c: char, n: nat)
    requires Has(s, i, Repeat(c, n))
    requires i + n == |s| || s[i + n] != c
    ensures While(s, i, c) == i + n
  {
    forall j | i <= j < i + n ensures s[j] == c {
      assert s[i + (j - i)] == Repeat(c, n)[j - i];
    }
  }
}
