/** Frames on a byte stream: a length in four bytes, the highest first, then the payload. */
module Frames {
  import opened Sequences

  type byte = x: int | 0 <= x < 256

  const MAX_FRAME_SIZE := 4 * 1024 * 1024

  function LengthBytes(n: nat): (bytes: seq<byte>)
    requires n < 0x1_0000_0000
    ensures |bytes| == 4
  {
    [n / 256 / 256 / 256, n / 256 / 256 % 256, n / 256 % 256, n % 256]
  }

  function LengthOf(a: byte, b: byte, c: byte, d: byte): (n: nat)
    ensures n < 0x1_0000_0000
  {
    ((a * 256 + b) * 256 + c) * 256 + d
  }

  lemma BytesOfLength(a: byte, b: byte, c: byte, d: byte)
    ensures LengthBytes(LengthOf(a, b, c, d)) == [a, b, c, d]
  {
    var n := LengthOf(a, b, c, d);
    assert n / 256 == (a * 256 + b) * 256 + c;
    assert n / 256 / 256 == a * 256 + b;
  }

  lemma LengthOfBytes(n: nat)
    requires n < 0x1_0000_0000
    ensures var bytes := LengthBytes(n); LengthOf(bytes[0], bytes[1], bytes[2], bytes[3]) == n
  {
    var h := n / 256;
    var g := h / 256;
    assert n == h * 256 + n % 256 && h == g * 256 + h % 256 && g == g / 256 * 256 + g % 256;
  }

  /** The highest byte comes first. */
  lemma HighestFirst(n: nat)
    requires n < 0x1_0000_0000
    ensures var bytes := LengthBytes(n);
            n == 0x100_0000 * bytes[0] as int + 0x1_0000 * bytes[1] as int + 0x100 * bytes[2] as int + bytes[3] as int
  {
    LengthOfBytes(n);
  }

  function Encode(payload: seq<byte>): seq<byte>
    requires |payload| <= MAX_FRAME_SIZE
  {
    LengthBytes(|payload|) + payload
  }

  predicate Fit(payloads: seq<seq<byte>>) {
    forall p | p in payloads :: |p| <= MAX_FRAME_SIZE
  }

  function EncodeAll(payloads: seq<seq<byte>>): seq<byte>
    requires Fit(payloads)
  {
    if payloads == [] then [] else Encode(payloads[0]) + EncodeAll(payloads[1..])
  }

  // ---------- Reading ----------

  /** One frame with the position behind it, the end of the stream between frames, or an error. */
  datatype Frame = Payload(bytes: seq<byte>, next: nat) | End | ProtocolError

  function ReadAt(data: seq<byte>, i: nat): (f: Frame)
    requires i <= |data|
    ensures f.Payload? ==> i < f.next <= |data|
  {
    if i == |data| then End
    else if |data| - i < 4 then ProtocolError
    else
      var n := LengthOf(data[i], data[i + 1], data[i + 2], data[i + 3]);
      if n > MAX_FRAME_SIZE || |data| - i - 4 < n then ProtocolError
      else Payload(data[i + 4..i + 4 + n], i + 4 + n)
  }

  /** All that is read from a stream: payloads, up to its end between frames or to an error. */
  datatype Reading = Read(payload: seq<byte>, rest: Reading) | Clean | Broken

  function ReadAll(data: seq<byte>, i: nat): Reading
    requires i <= |data|
    decreases |data| - i
  {
    match ReadAt(data, i)
    case Payload(bytes, next) => Read(bytes, ReadAll(data, next))
    case End => Clean
    case ProtocolError => Broken
  }

  /** Some payloads, and then what follows. */
  function Then(payloads: seq<seq<byte>>, rest: Reading): Reading {
    if payloads == [] then rest else Read(payloads[0], Then(payloads[1..], rest))
  }

  lemma LengthHeld(data: seq<byte>, i: nat, n: nat)
    requires n < 0x1_0000_0000 && Has(data, i, LengthBytes(n))
    ensures LengthOf(data[i], data[i + 1], data[i + 2], data[i + 3]) == n
  {
    var bytes := LengthBytes(n);
    assert data[i + 0] == bytes[0] && data[i + 1] == bytes[1] && data[i + 2] == bytes[2] && data[i + 3] == bytes[3];
    LengthOfBytes(n);
  }

  lemma FrameReads(data: seq<byte>, i: nat, payload: seq<byte>)
    requires |payload| <= MAX_FRAME_SIZE && Has(data, i, Encode(payload))
    ensures ReadAt(data, i) == Payload(payload, i + 4 + |payload|)
  {
    HasCat(data, i, LengthBytes(|payload|), payload);
    LengthHeld(data, i, |payload|);
    SliceHas(data, i + 4, payload);
  }

  lemma FirstHeld(data: seq<byte>, i: nat, payloads: seq<seq<byte>>)
    requires payloads != [] && Fit(payloads) && Has(data, i, EncodeAll(payloads))
    ensures Fit(payloads[1..]) && ReadAt(data, i) == Payload(payloads[0], i + |Encode(payloads[0])|)
    ensures Has(data, i + |Encode(payloads[0])|, EncodeAll(payloads[1..]))
  {
    HasCat(data, i, Encode(payloads[0]), EncodeAll(payloads[1..]));
    FrameReads(data, i, payloads[0]);
  }

  /** Frames are read as their payloads, and then comes what the stream holds behind them. */
  lemma {:induction false} FramesRead(data: seq<byte>, i: nat, payloads: seq<seq<byte>>)
    requires Fit(payloads) && Has(data, i, EncodeAll(payloads))
    ensures ReadAll(data, i) == Then(payloads, ReadAll(data, i + |EncodeAll(payloads)|))
    decreases |payloads|
  {
    if payloads != [] {
      var next := i + |Encode(payloads[0])|;
      assert ReadAt(data, i) == Payload(payloads[0], next) && Has(data, next, EncodeAll(payloads[1..])) by {
        FirstHeld(data, i, payloads);
      }
      assert next + |EncodeAll(payloads[1..])| == i + |EncodeAll(payloads)|;
      FramesRead(data, next, payloads[1..]);
    }
  }

  // ---------- Exactly the encoded streams ----------

  lemma ReadIsEncoded(data: seq<byte>, i: nat)
    requires i <= |data| && ReadAt(data, i).Payload?
    ensures var f := ReadAt(data, i);
            |f.bytes| <= MAX_FRAME_SIZE && Has(data, i, Encode(f.bytes)) && f.next == i + |Encode(f.bytes)|
  {
    BytesOfLength(data[i], data[i + 1], data[i + 2], data[i + 3]);
  }

  lemma {:induction false} OnlyFramesRead(data: seq<byte>, i: nat, payloads: seq<seq<byte>>)
    requires i <= |data| && ReadAll(data, i) == Then(payloads, Clean)
    ensures Fit(payloads) && Has(data, i, EncodeAll(payloads)) && i + |EncodeAll(payloads)| == |data|
    decreases |payloads|
  {
    if payloads != [] {
      var f := ReadAt(data, i);
      OnlyFramesRead(data, f.next, payloads[1..]);
      assert |f.bytes| <= MAX_FRAME_SIZE && Has(data, i, Encode(f.bytes)) && f.next == i + |Encode(f.bytes)| by {
        ReadIsEncoded(data, i);
      }
      FitCons(payloads);
      assert Has(data, i, Encode(f.bytes) + EncodeAll(payloads[1..])) by {
        HasCat(data, i, Encode(f.bytes), EncodeAll(payloads[1..]));
      }
    }
  }

  lemma FitCons(payloads: seq<seq<byte>>)
    requires payloads != []
    ensures Fit(payloads) <==> |payloads[0]| <= MAX_FRAME_SIZE && Fit(payloads[1..])
  {
    assert payloads == [payloads[0]] + payloads[1..];
  }

  lemma HasWhole(data: seq<byte>)
    ensures Has(data, 0, data)
    ensures forall other: seq<byte> | Has(data, 0, other) && |other| == |data| :: data == other
  {
  }

  /**
   A stream is read as some payloads and then ends between frames exactly when it is what
   writing those payloads gives, none of them too large.
   */
  lemma ReadsExactlyWhatWasWritten(data: seq<byte>, payloads: seq<seq<byte>>)
    ensures ReadAll(data, 0) == Then(payloads, Clean) <==> Fit(payloads) && data == EncodeAll(payloads)
  {
    HasWhole(data);
    if ReadAll(data, 0) == Then(payloads, Clean) {
      OnlyFramesRead(data, 0, payloads);
    }
    if Fit(payloads) && data == EncodeAll(payloads) {
      FramesRead(data, 0, payloads);
    }
  }

  // ---------- A stream that is cut ----------

  /** How many of the frames lie wholly within the first `k` bytes. */
  function Whole(payloads: seq<seq<byte>>, k: nat): (m: nat)
    requires Fit(payloads)
    ensures m <= |payloads|
  {
    if payloads == [] || |Encode(payloads[0])| > k then 0
    else Whole(payloads[1..], k - |Encode(payloads[0])|) + 1
  }

  lemma CutBehind(data: seq<byte>, i: nat, k: nat)
    requires k <= |data| && i <= k
    ensures ReadAt(data[..k], i) == if ReadAt(data, i).Payload? && ReadAt(data, i).next <= k then ReadAt(data, i)
                                    else if i == k then End else ProtocolError
  {
    var f := ReadAt(data, i);
    if f.Payload? && f.next <= k {
      assert data[..k][i + 4..f.next] == data[i + 4..f.next];
    }
  }

  /** The whole frames within the first `k` bytes, and how a stream cut there ends. */
  function CutReading(payloads: seq<seq<byte>>, k: nat): Reading
    requires Fit(payloads)
  {
    var whole := payloads[..Whole(payloads, k)];
    Then(whole, if k == |EncodeAll(whole)| then Clean else Broken)
  }

  lemma CutReadingCons(payloads: seq<seq<byte>>, k: nat)
    requires payloads != [] && Fit(payloads) && |Encode(payloads[0])| <= k
    ensures CutReading(payloads, k) == Read(payloads[0], CutReading(payloads[1..], k - |Encode(payloads[0])|))
  {
    var m := Whole(payloads, k);
    assert payloads[..m][0] == payloads[0] && payloads[..m][1..] == payloads[1..][..m - 1];
  }

  lemma CutReadingNone(payloads: seq<seq<byte>>, k: nat)
    requires Fit(payloads) && (payloads == [] || k < |Encode(payloads[0])|)
    ensures CutReading(payloads, k) == if k == 0 then Clean else Broken
  {
    assert payloads[..0] == [];
  }

  lemma CutReadsOne(data: seq<byte>, i: nat, k: nat)
    requires i <= k <= |data| && ReadAt(data, i).Payload? && ReadAt(data, i).next <= k
    ensures ReadAll(data[..k], i) == Read(ReadAt(data, i).bytes, ReadAll(data[..k], ReadAt(data, i).next))
  {
    CutBehind(data, i, k);
  }

  lemma CutWithin(data: seq<byte>, i: nat, payloads: seq<seq<byte>>, k: nat)
    requires Fit(payloads) && Has(data, i, EncodeAll(payloads)) && i + |EncodeAll(payloads)| == |data|
    requires i <= k <= |data| && (payloads == [] || k - i < |Encode(payloads[0])|)
    ensures ReadAll(data[..k], i) == CutReading(payloads, k - i)
  {
    if payloads != [] {
      FirstHeld(data, i, payloads);
    }
    CutBehind(data, i, k);
    CutReadingNone(payloads, k - i);
  }

  /**
   Cutting a stream of frames anywhere leaves exactly the frames that lie wholly before the cut;
   then the stream ends well if the cut falls between frames, and with a protocol error if not.
   */
  lemma {:induction false} CutReadsWholeFrames(data: seq<byte>, i: nat, payloads: seq<seq<byte>>, k: nat)
    requires Fit(payloads) && Has(data, i, EncodeAll(payloads)) && i + |EncodeAll(payloads)| == |data|
    requires i <= k <= |data|
    ensures ReadAll(data[..k], i) == CutReading(payloads, k - i)
    decreases |payloads|
  {
    if payloads == [] || k - i < |Encode(payloads[0])| {
      CutWithin(data, i, payloads, k);
    } else {
      FirstHeld(data, i, payloads);
      CutReadsOne(data, i, k);
      CutReadsWholeFrames(data, i + |Encode(payloads[0])|, payloads[1..], k);
      CutReadingCons(payloads, k - i);
    }
  }

  /** `Whole` is the greatest number of frames that fit. */
  lemma {:induction false} WholeIsGreatest(payloads: seq<seq<byte>>, k: nat, n: nat)
    requires Fit(payloads) && n <= |payloads|
    ensures Fit(payloads[..n]) && (|EncodeAll(payloads[..n])| <= k <==> n <= Whole(payloads, k))
    decreases |payloads|
  {
    if n == 0 {
      assert payloads[..0] == [];
    } else {
      assert payloads[..n][0] == payloads[0] && payloads[..n][1..] == payloads[1..][..n - 1];
      var head := |Encode(payloads[0])|;
      if head <= k {
        WholeIsGreatest(payloads[1..], k - head, n - 1);
      } else {
        assert Fit(payloads[..n]);
      }
    }
  }
}
