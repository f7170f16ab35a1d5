/** Cutting a text into messages. */
module Chunks {
  import opened Arithmetic
  import opened Wrappers

  // ---------- The loop, for any size ----------

  /** One round: the chunk taken off a text, and the rest. A negative bound of a slice is a panic. */
  function Round(runes: string, size: int): Option<(string, string)> {
    var end := if size > |runes| then |runes| else size;
    if end < 0 then None else Some((runes[..end], runes[end..]))
  }

  /** What is left of a text after so many rounds of a loop that ends with nothing left. */
  function After(runes: string, size: int, rounds: nat): Option<string> {
    if rounds == 0 || runes == "" then Some(runes)
    else match Round(runes, size)
      case None => None
      case Some((_, rest)) => After(rest, size, rounds - 1)
  }

  // ---------- Pieces ----------

  /** The text cut into pieces of `size`, the last one shorter where the text ends. */
  function Cut(text: string, size: nat): seq<string>
    requires size > 0
  {
    if text == "" then []
    else if |text| <= size then [text]
    else [text[..size]] + Cut(text[size..], size)
  }

  function Concat(pieces: seq<string>): string {
    if pieces == [] then "" else pieces[0] + Concat(pieces[1..])
  }

  lemma {:induction false} PiecesConcat(text: string, size: nat)
    requires size > 0
    ensures Concat(Cut(text, size)) == text
    decreases |text|
  {
    if |text| > size {
      PiecesConcat(text[size..], size);
      assert text == text[..size] + text[size..];
    }
  }

  lemma {:induction false} PieceSizes(text: string, size: nat)
    requires size > 0
    ensures forall p | p in Cut(text, size) :: 1 <= |p| <= size
    decreases |text|
  {
    if |text| > size {
      PieceSizes(text[size..], size);
    }
  }

  lemma {:induction false} PieceCount(text: string, size: nat)
    requires size > 0
    ensures (|Cut(text, size)| - 1) * size < |text| + (if text == "" then 1 else 0)
    ensures |text| <= |Cut(text, size)| * size
    decreases |text|
  {
    if |text| > size {
      PieceCount(text[size..], size);
      var n := |Cut(text[size..], size)|;
      assert n * size == (n - 1) * size + size;
      assert (n + 1) * size == n * size + size;
    }
  }

  lemma QuotientIs(a: nat, d: nat, q: nat)
    requires d > 0 && q * d <= a < (q + 1) * d
    ensures a / d == q
  {
    TimesKeepsOrder(a / d + 1, q, d);
    TimesKeepsOrder(q + 1, a / d, d);
    assert (a / d) * d <= a < (a / d + 1) * d;
  }

  /**
   The pieces make up the text, none is empty or longer than `size`, and there are exactly as
   many as the text's length divided by `size`, rounded up.
   */
  lemma CutIsExact(text: string, size: nat)
    requires size > 0
    ensures Concat(Cut(text, size)) == text
    ensures forall p | p in Cut(text, size) :: 1 <= |p| <= size
    ensures |Cut(text, size)| == (|text| + size - 1) / size
  {
    PiecesConcat(text, size);
    PieceSizes(text, size);
    PieceCount(text, size);
    var n := |Cut(text, size)|;
    assert (n + 1) * size == n * size + size && n * size == (n - 1) * size + size;
    QuotientIs(|text| + size - 1, size, n);
  }

  lemma SliceOfSlice(text: string, from: nat, a: nat, b: nat)
    requires from + a <= from + b <= |text|
    ensures text[from..][a..b] == text[from + a..from + b]
  {
  }

  /** Each piece is the stretch of the text where it belongs: all full, but the last that ends with the text. */
  lemma {:induction false} PieceIs(text: string, size: nat, k: nat)
    requires size > 0 && k < |Cut(text, size)|
    ensures var from := k * size; var end := if from + size > |text| then |text| else from + size;
            from < |text| && Cut(text, size)[k] == text[from..end]
    decreases k
  {
    if k > 0 {
      PieceIs(text[size..], size, k - 1);
      assert k * size == (k - 1) * size + size;
      var from := (k - 1) * size;
      var end := if from + size > |text| - size then |text| - size else from + size;
      SliceOfSlice(text, size, from, end);
    }
  }

  // ---------- When the loop ends ----------

  /** With a positive size, a round takes off the first piece. */
  lemma RoundTakesPiece(runes: string, size: nat)
    requires size > 0 && runes != ""
    ensures var pieces := Cut(runes, size);
            && pieces != [] && Round(runes, size).Some?
            && Round(runes, size).value.0 == pieces[0]
            && Cut(Round(runes, size).value.1, size) == pieces[1..]
            && |Round(runes, size).value.1| < |runes|
  {
  }

  /** So it takes exactly as many rounds as there are pieces. */
  lemma {:induction false} RoundsArePieces(text: string, size: nat, rounds: nat)
    requires size > 0
    ensures After(text, size, rounds).Some?
    ensures After(text, size, rounds) == Some("") <==> rounds >= |Cut(text, size)|
    decreases rounds
  {
    if text != "" {
      RoundTakesPiece(text, size);
      if rounds > 0 {
        RoundsArePieces(Round(text, size).value.1, size, rounds - 1);
      }
    }
  }

  lemma {:induction false} ZeroTakesNothing(text: string, rounds: nat)
    ensures After(text, 0, rounds) == Some(text)
    decreases rounds
  {
    if rounds > 0 && text != "" {
      assert text[0..] == text;
      ZeroTakesNothing(text, rounds - 1);
    }
  }

  /** The loop comes to its end if and only if the size is positive or there is nothing to cut. */
  lemma LoopEndsIff(text: string, size: int)
    ensures (exists rounds :: After(text, size, rounds) == Some("")) <==> size > 0 || text == ""
  {
    if size > 0 {
      RoundsArePieces(text, size, |Cut(text, size)|);
    } else if text == "" {
      assert After(text, size, 0) == Some("");
    } else {
      forall rounds: nat
        ensures After(text, size, rounds) != Some("")
      {
        if size == 0 {
          ZeroTakesNothing(text, rounds);
        }
      }
    }
  }

  /** It panics if and only if the size is negative and there is something to cut; then at once. */
  lemma {:induction false} LoopPanicsIff(text: string, size: int, rounds: nat)
    ensures After(text, size, rounds) == None <==> size < 0 && text != "" && rounds > 0
  {
    if size > 0 {
      RoundsArePieces(text, size, rounds);
    } else if size == 0 {
      ZeroTakesNothing(text, rounds);
    }
  }
}
