/** 64-bit integers in decimal, as the subscriber file holds them. */
module Decimal {
  import opened Wrappers
  import opened Space

  const MIN_INT64 := -0x8000_0000_0000_0000
  const MAX_INT64 := 0x7FFF_FFFF_FFFF_FFFF

  type int64 = x: int | MIN_INT64 <= x <= MAX_INT64

  predicate IsDigit(c: char) {
    '0' <= c <= '9'
  }

  function DigitOf(d: nat): (c: char)
    requires d < 10
    ensures IsDigit(c) && ValueOf(c) == d
  {
    ('0' as int + d) as char
  }

  function ValueOf(c: char): nat
    requires IsDigit(c)
  {
    c as int - '0' as int
  }

  function FormatNat(n: nat): string {
    if n < 10 then [DigitOf(n)] else FormatNat(n / 10) + [DigitOf(n % 10)]
  }

  function FormatInt(x: int64): string {
    if x < 0 then "-" + FormatNat(-(x as int)) else FormatNat(x)
  }

  /** The value of a non-empty text of digits, or nothing. */
  function ParseNat(s: string): Option<nat> {
    if s == "" || !IsDigit(s[|s| - 1]) then None
    else if |s| == 1 then Some(ValueOf(s[0]))
    else match ParseNat(s[..|s| - 1])
      case None => None
      case Some(high) => Some(10 * high + ValueOf(s[|s| - 1]))
  }

  /** An optional sign, then digits, within 64 bits. */
  function ParseInt(s: string): Option<int64> {
    var signed := s != "" && (s[0] == '-' || s[0] == '+');
    match ParseNat(if signed then s[1..] else s)
    case None => None
    case Some(n) =>
      var x: int := if signed && s[0] == '-' then -(n as int) else n;
      if MIN_INT64 <= x <= MAX_INT64 then Some(x) else None
  }

  lemma {:induction false} FormatNatReads(n: nat)
    ensures ParseNat(FormatNat(n)) == Some(n)
    ensures FormatNat(n) != "" && forall c | c in FormatNat(n) :: IsDigit(c)
  {
    if n >= 10 {
      FormatNatReads(n / 10);
      var s := FormatNat(n);
      assert s[..|s| - 1] == FormatNat(n / 10);
    }
  }

  lemma SignedText(text: string)
    requires forall c | c in text :: IsDigit(c)
    ensures ("-" + text)[0] == '-' && ("-" + text)[1..] == text
    ensures forall c | c in "-" + text :: !IsSpace(c)
  {
    forall c | c in "-" + text
      ensures !IsSpace(c)
    {
      var k :| 0 <= k < |"-" + text| && ("-" + text)[k] == c;
      assert k > 0 ==> text[k - 1] == c;
    }
  }

  lemma NegativeReads(x: int64)
    requires x < 0
    ensures ParseInt(FormatInt(x)) == Some(x)
    ensures FormatInt(x) != "" && forall c | c in FormatInt(x) :: !IsSpace(c)
  {
    var text := FormatNat(-(x as int));
    FormatNatReads(-(x as int));
    SignedText(text);
  }

  lemma NaturalReads(x: int64)
    requires x >= 0
    ensures ParseInt(FormatInt(x)) == Some(x)
    ensures FormatInt(x) != "" && forall c | c in FormatInt(x) :: !IsSpace(c)
  {
    FormatNatReads(x);
    assert FormatNat(x)[0] in FormatNat(x);
  }

  /** Every 64-bit integer, the least one included, is read back from its decimal text. */
  lemma FormatIntReads(x: int64)
    ensures ParseInt(FormatInt(x)) == Some(x)
    ensures FormatInt(x) != "" && forall c | c in FormatInt(x) :: !IsSpace(c)
  {
    if x < 0 {
      NegativeReads(x);
    } else {
      NaturalReads(x);
    }
  }

  // ---------- Which texts are read as numbers ----------

  lemma DigitsAre(d: nat)
    requires d < 10
    ensures DigitOf(d) == "0123456789"[d]
  {
  }

  lemma LastDigit(n: nat)
    ensures FormatNat(n) == (if n < 10 then "" else FormatNat(n / 10)) + ["0123456789"[n % 10]]
  {
    DigitsAre(n % 10);
  }

  function Zeros(n: nat): string {
    if n == 0 then "" else Zeros(n - 1) + "0"
  }

  lemma {:induction false} ZerosRead(n: nat)
    requires n > 0
    ensures ParseNat(Zeros(n)) == Some(0)
  {
    if n > 1 {
      ZerosRead(n - 1);
      assert Zeros(n)[..n - 1] == Zeros(n - 1) by { ZerosLength(n); ZerosLength(n - 1); }
    }
  }

  lemma {:induction false} ZerosLength(n: nat)
    ensures |Zeros(n)| == n
  {
    if n > 0 {
      ZerosLength(n - 1);
    }
  }

  lemma ParseSnoc(high: string, c: char)
    requires IsDigit(c)
    ensures ParseNat(high + [c]) == if high == "" then Some(ValueOf(c)) else match ParseNat(high)
              case None => None
              case Some(h) => Some(10 * h + ValueOf(c))
  {
    assert (high + [c])[..|high|] == high;
  }

  /** Leading zeros change nothing. */
  lemma {:induction false} LeadingZeros(z: nat, t: string)
    requires t != "" && forall c | c in t :: IsDigit(c)
    ensures ParseNat(Zeros(z) + t) == ParseNat(t)
    decreases |t|
  {
    var high, c := t[..|t| - 1], t[|t| - 1];
    assert t == high + [c] && c in t;
    assert Zeros(z) + t == (Zeros(z) + high) + [c];
    ParseSnoc(high, c);
    ParseSnoc(Zeros(z) + high, c);
    if high != "" {
      LeadingZeros(z, high);
    } else if z > 0 {
      assert Zeros(z) + high == Zeros(z);
      ZerosRead(z);
      ZerosLength(z);
    }
  }

  lemma {:induction false} DigitsSplit(s: string, n: nat) returns (z: nat)
    requires ParseNat(s) == Some(n)
    ensures s == Zeros(z) + FormatNat(n)
    decreases |s|
  {
    var high, c := s[..|s| - 1], s[|s| - 1];
    assert s == high + [c];
    ParseSnoc(high, c);
    if high == "" {
      z := 0;
    } else {
      var h := ParseNat(high).value;
      var before := DigitsSplit(high, h);
      if h == 0 {
        z := before + 1;
      } else {
        z := before;
        assert Zeros(z) + FormatNat(h) + [c] == Zeros(z) + (FormatNat(h) + [c]);
      }
    }
  }

  /** A text of digits is read as a number exactly when it is its decimal text behind some zeros. */
  lemma ParseNatIff(s: string, n: nat)
    ensures ParseNat(s) == Some(n) <==> exists z :: s == Zeros(z) + FormatNat(n)
  {
    if ParseNat(s) == Some(n) {
      var z := DigitsSplit(s, n);
    }
    if z :| s == Zeros(z) + FormatNat(n) {
      FormatNatReads(n);
      LeadingZeros(z, FormatNat(n));
    }
  }

  /** The sign that may stand before a number. */
  predicate SignOk(sign: string, x: int64) {
    || (sign == "" && x >= 0)
    || (sign == "+" && x >= 0)
    || (sign == "-" && x <= 0)
  }

  function Magnitude(x: int64): nat {
    if x < 0 then -(x as int) else x
  }

  lemma SignedReads(sign: string, z: nat, x: int64)
    requires SignOk(sign, x)
    ensures ParseInt(sign + (Zeros(z) + FormatNat(Magnitude(x)))) == Some(x)
  {
    var digits := Zeros(z) + FormatNat(Magnitude(x));
    ParseNatIff(digits, Magnitude(x));
    assert digits[0] != '-' && digits[0] != '+' by { DigitsBegin(z, Magnitude(x)); }
    if sign == "" {
      assert sign + digits == digits;
    } else {
      assert (sign + digits)[0] == sign[0] && (sign + digits)[1..] == digits;
    }
  }

  lemma DigitsBegin(z: nat, n: nat)
    ensures var digits := Zeros(z) + FormatNat(n); digits != "" && IsDigit(digits[0])
  {
    FormatNatReads(n);
    if z > 0 {
      ZerosBegin(z);
    } else {
      assert Zeros(z) + FormatNat(n) == FormatNat(n);
      assert FormatNat(n)[0] in FormatNat(n);
    }
  }

  lemma {:induction false} ZerosBegin(z: nat)
    requires z > 0
    ensures Zeros(z) != "" && Zeros(z)[0] == '0'
  {
    if z > 1 {
      ZerosBegin(z - 1);
    }
  }

  /**
   A text is read as a 64-bit number exactly when it is the decimal text of its magnitude, behind
   any zeros and a sign that suits it; so nothing is read of a text with anything else in it, or
   of a number out of range.
   */
  lemma ParseIntIff(s: string, x: int64)
    ensures ParseInt(s) == Some(x)
       <==> exists sign, z :: SignOk(sign, x) && s == sign + (Zeros(z) + FormatNat(Magnitude(x)))
  {
    if ParseInt(s) == Some(x) {
      var signed := s != "" && (s[0] == '-' || s[0] == '+');
      var sign, digits := if signed then s[..1] else "", if signed then s[1..] else s;
      ParseNatIff(digits, Magnitude(x));
      var z :| digits == Zeros(z) + FormatNat(Magnitude(x));
      assert SignOk(sign, x) && s == sign + digits;
    }
    if sign, z :| SignOk(sign, x) && s == sign + (Zeros(z) + FormatNat(Magnitude(x))) {
      SignedReads(sign, z, x);
    }
  }
}
