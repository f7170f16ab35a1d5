/** White space and trimming, on texts as sequences of Unicode code points. */
module Space {
  import opened Sequences

  predicate IsSpace(c: char) {
    || c == '\t' || c == '\n' || c == '\U{0B}' || c == '\U{0C}' || c == '\r' || c == ' '
    || c == '\U{85}' || c == '\U{A0}' || c == '\U{1680}' || '\U{2000}' <= c <= '\U{200A}'
    || c == '\U{2028}' || c == '\U{2029}' || c == '\U{202F}' || c == '\U{205F}' || c == '\U{3000}'
  }

  function TrimLeft(s: string): string {
    if s != "" && IsSpace(s[0]) then TrimLeft(s[1..]) else s
  }

  function TrimRight(s: string): string {
    if s != "" && IsSpace(s[|s| - 1]) then TrimRight(s[..|s| - 1]) else s
  }

  function TrimSpace(s: string): string {
    TrimRight(TrimLeft(s))
  }

  predicate Tight(s: string) {
    s == "" || (!IsSpace(s[0]) && !IsSpace(s[|s| - 1]))
  }

  lemma {:induction false} TrimLeftHead(s: string)
    ensures TrimLeft(s) == "" || !IsSpace(TrimLeft(s)[0])
    decreases |s|
  {
    if s != "" && IsSpace(s[0]) {
      TrimLeftHead(s[1..]);
    }
  }

  lemma {:induction false} TrimRightEnds(s: string)
    ensures TrimRight(s) <= s
    ensures TrimRight(s) == "" || !IsSpace(TrimRight(s)[|TrimRight(s)| - 1])
    decreases |s|
  {
    if s != "" && IsSpace(s[|s| - 1]) {
      TrimRightEnds(s[..|s| - 1]);
    }
  }

  /** Trimming leaves no white space at either end, and changes nothing where there is none. */
  lemma TrimIsTight(s: string)
    ensures Tight(TrimSpace(s))
    ensures Tight(s) <==> TrimSpace(s) == s
  {
    TrimLeftHead(s);
    TrimRightEnds(TrimLeft(s));
  }

  /** The white space of Unicode, one by one. */
  const SPACES := {
    '\t', '\n', '\U{0B}', '\U{0C}', '\r', ' ', '\U{85}', '\U{A0}', '\U{1680}',
    '\U{2000}', '\U{2001}', '\U{2002}', '\U{2003}', '\U{2004}', '\U{2005}', '\U{2006}', '\U{2007}',
    '\U{2008}', '\U{2009}', '\U{200A}', '\U{2028}', '\U{2029}', '\U{202F}', '\U{205F}', '\U{3000}' }

  lemma SpacesAreListed(c: char)
    ensures IsSpace(c) <==> c in SPACES
  {
  }

  predicate AllBlank(s: string) {
    forall c | c in s :: IsSpace(c)
  }

  lemma {:induction false} TrimLeftDrops(a: string, s: string)
    requires AllBlank(a)
    ensures TrimLeft(a + s) == TrimLeft(s)
    decreases |a|
  {
    if a == "" {
      assert a + s == s;
    } else {
      assert a[0] in a && (a + s)[0] == a[0] && (a + s)[1..] == a[1..] + s;
      TrimLeftDrops(a[1..], s);
    }
  }

  lemma {:induction false} TrimRightDrops(s: string, b: string)
    requires AllBlank(b)
    ensures TrimRight(s + b) == TrimRight(s)
    decreases |b|
  {
    if b == "" {
      assert s + b == s;
    } else {
      var n := |b| - 1;
      assert b[n] in b && (s + b)[|s + b| - 1] == b[n] && (s + b)[..|s + b| - 1] == s + b[..n];
      TrimRightDrops(s, b[..n]);
    }
  }

  lemma {:induction false} TrimLeftSplits(s: string) returns (a: string)
    ensures AllBlank(a) && s == a + TrimLeft(s)
    decreases |s|
  {
    if s != "" && IsSpace(s[0]) {
      var c, tail := s[0], s[1..];
      var rest := TrimLeftSplits(tail);
      a := [c] + rest;
      assert s == [c] + tail;
      Regroup([c], rest, TrimLeft(tail));
    } else {
      a := "";
    }
  }

  lemma {:induction false} TrimRightSplits(s: string) returns (b: string)
    ensures AllBlank(b) && s == TrimRight(s) + b
    decreases |s|
  {
    if s != "" && IsSpace(s[|s| - 1]) {
      var c, head := s[|s| - 1], s[..|s| - 1];
      var rest := TrimRightSplits(head);
      b := rest + [c];
      assert s == head + [c];
      Regroup(TrimRight(head), rest, [c]);
    } else {
      b := "";
    }
  }

  lemma TrimBetween(a: string, t: string, b: string)
    requires AllBlank(a) && AllBlank(b) && Tight(t)
    ensures TrimSpace(a + t + b) == t
  {
    TrimIsTight(t);
    assert a + t + b == a + (t + b);
    TrimLeftDrops(a, t + b);
    if t == "" {
      assert t + b == b + "";
      TrimLeftDrops(b, "");
    } else {
      assert TrimLeft(t + b) == t + b;
      TrimRightDrops(t, b);
    }
  }

  /** Trimming a text gives the text without white space at its ends that it has between white space. */
  lemma TrimIff(s: string, t: string)
    ensures TrimSpace(s) == t <==> Tight(t) && exists a, b :: AllBlank(a) && AllBlank(b) && s == a + t + b
  {
    if TrimSpace(s) == t {
      TrimIsTight(s);
      var a := TrimLeftSplits(s);
      var b := TrimRightSplits(TrimLeft(s));
      assert AllBlank(a) && AllBlank(b) && s == a + t + b;
    }
    if a, b :| Tight(t) && AllBlank(a) && AllBlank(b) && s == a + t + b {
      TrimBetween(a, t, b);
    }
  }
}
