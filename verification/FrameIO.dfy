/** Writing a frame to a sink and reading one from a source, byte by byte as they allow it. */
module FrameIO {
  import opened Wrappers
  import opened Frames

  // ---------- Writing ----------

  datatype WriteError = TooLarge | SinkFailed

  /** A sink that takes so many bytes and fails from then on; one without a limit never fails. */
  class Sink {
    const limit: Option<nat>
    var written: seq<byte>

    constructor (limit: Option<nat>)
      ensures this.limit == limit && written == []
    {
      this.limit, written := limit, [];
    }

    /** How much of a number of bytes there is still room for. */
    function Room(n: nat): (k: nat)
      reads this
      ensures k <= n
    {
      if limit.None? || |written| + n <= limit.value then n
      else if |written| <= limit.value then limit.value - |written|
      else 0
    }

    method Write(bytes: seq<byte>) returns (ok: bool)
      modifies this
      ensures written == old(written) + bytes[..old(Room(|bytes|))]
      ensures ok <==> old(Room(|bytes|)) == |bytes|
    {
      var n := Room(|bytes|);
      written := written + bytes[..n];
      ok := n == |bytes|;
    }
  }

  lemma TwoWrites(before: seq<byte>, a: seq<byte>, b: seq<byte>, n: nat)
    requires n <= |b|
    ensures before + a + b[..n] == before + (a + b)[..|a| + n]
    ensures forall k: nat | k <= |a| :: a[..k] == (a + b)[..k]
    ensures a[..|a|] == a
  {
  }

  /**
   Writes a frame. One that is too large leaves nothing behind; of any other, the sink gets all
   of it or, when it fails, the beginning that it had room for.
   */
  method WriteFrame(w: Sink, buf: seq<byte>) returns (err: Option<WriteError>)
    modifies w
    ensures |buf| > 4194304 ==> err == Some(TooLarge) && w.written == old(w.written)
    ensures |buf| <= 4194304 ==>
      && var room := old(w.Room(|Encode(buf)|));
      && w.written == old(w.written) + Encode(buf)[..room]
      && err == if room == |Encode(buf)| then None else Some(SinkFailed)
  {
    if |buf| > MAX_FRAME_SIZE {
      return Some(TooLarge);
    }
    var lenBuf := new byte[4];
    PutUint32(lenBuf, |buf|);
    ghost var before := w.written;
    var ok := w.Write(lenBuf[..]);
    if !ok {
      TwoWrites(before, LengthBytes(|buf|), buf, 0);
      return Some(SinkFailed);
    }
    ghost var middle := w.Room(|buf|);
    TwoWrites(before, LengthBytes(|buf|), buf, middle);
    ok := w.Write(buf);
    err := if ok then None else Some(SinkFailed);
  }

  method PutUint32(b: array<byte>, n: nat)
    requires b.Length == 4 && n < 0x1_0000_0000
    modifies b
    ensures b[..] == LengthBytes(n)
  {
    b[0] := n / 0x100_0000;
    b[1] := n / 0x1_0000 % 256;
    b[2] := n / 0x100 % 256;
    b[3] := n % 256;
    assert n / 0x1_0000 == n / 256 / 256 && n / 0x100_0000 == n / 256 / 256 / 256;
  }

  // ---------- Reading ----------

  lemma SliceIs(a: seq<byte>, from: nat, data: seq<byte>, pos: nat, n: nat)
    requires from + n <= |a| && pos + n <= |data|
    requires forall j | from <= j < from + n :: a[j] == data[pos + j - from]
    ensures a[from..from + n] == data[pos..pos + n]
  {
    var left, right := a[from..from + n], data[pos..pos + n];
    forall k | 0 <= k < n
      ensures left[k] == right[k]
    {
      assert a[from + k] == data[pos + (from + k) - from];
    }
  }

  datatype Status = Full | EndOfFile | Failure

  datatype ReadError = EOF | Protocol

  /**
   A source of bytes. A read gives as many as it likes, but at least one while there are any;
   behind the last one it reports the end of the file, or another error when it is `failing`.
   */
  class Source {
    const data: seq<byte>
    const failing: bool
    const generosity: nat -> nat
    var pos: nat

    constructor (data: seq<byte>, failing: bool, generosity: nat -> nat)
      ensures this.data == data && this.failing == failing && pos == 0
    {
      this.data, this.failing, this.generosity, pos := data, failing, generosity, 0;
    }

    ghost predicate Valid()
      reads this
    {
      pos <= |data|
    }

    /** Bytes as the data has them from a position on. */
    ghost predicate Filled(bytes: seq<byte>, start: nat) {
      start + |bytes| <= |data| && bytes == data[start..start + |bytes|]
    }

    /** Reads into a buffer from `from` on; returns the number of bytes. */
    method Read(buf: array<byte>, from: nat) returns (n: nat, status: Status)
      requires Valid() && from < buf.Length
      modifies this`pos, buf
      ensures Valid() && pos == old(pos) + n && from + n <= buf.Length
      ensures buf[..from] == old(buf[..from])
      ensures Filled(buf[from..from + n], old(pos))
      ensures if old(pos) < |data| then n > 0 && status.Full?
              else n == 0 && status == if failing then Failure else EndOfFile
    {
      if pos == |data| {
        return 0, if failing then Failure else EndOfFile;
      }
      n := 1 + generosity(pos);
      if n > buf.Length - from {
        n := buf.Length - from;
      }
      if n > |data| - pos {
        n := |data| - pos;
      }
      for k := 0 to n
        invariant pos == old(pos) && buf[..from] == old(buf[..from])
        invariant forall j | from <= j < from + k :: buf[j] == data[pos + j - from]
      {
        buf[from + k] := data[pos + k];
      }
      SliceIs(buf[..], from, data, pos, n);
      pos := pos + n;
      status := Full;
    }

    /** Fills a buffer. Only when there is not a single byte is the end of the file reported as such. */
    method ReadFull(buf: array<byte>) returns (status: Status)
      requires Valid()
      modifies this`pos, buf
      ensures Valid() && old(pos) <= pos
      ensures status.Full? <==> buf.Length <= |data| - old(pos)
      ensures status.Full? ==> pos == old(pos) + buf.Length && buf[..] == data[old(pos)..pos]
      ensures status.EndOfFile? <==> buf.Length > 0 && old(pos) == |data| && !failing
    {
      var n := 0;
      while n < buf.Length
        invariant Valid() && n <= buf.Length && pos == old(pos) + n
        invariant Filled(buf[..n], old(pos))
        decreases buf.Length - n
      {
        ghost var filled := buf[..n];
        var more;
        more, status := Read(buf, n);
        assert buf[..n + more] == filled + buf[n..n + more];
        assert data[old(pos)..pos] == data[old(pos)..old(pos) + n] + data[old(pos) + n..pos];
        if !status.Full? {
          return if n > 0 then Failure else status;
        }
        n := n + more;
      }
      status := Full;
    }

    /** Reads one frame, as the specification reads it at the source's position. */
    method ReadFrame() returns (r: Result<seq<byte>, ReadError>)
      requires Valid()
      modifies this`pos
      ensures Valid()
      ensures match ReadAt(data, old(pos))
              case Payload(bytes, next) => r == Ok(bytes) && pos == next
              case End => r == Err(if failing then Protocol else EOF)
              case ProtocolError => r == Err(Protocol)
    {
      var lenBuf := new byte[4];
      var status := ReadFull(lenBuf);
      if !status.Full? {
        return Err(if status.EndOfFile? then EOF else Protocol);
      }
      ghost var start := pos - 4;
      assert forall k | 0 <= k < 4 :: lenBuf[..][k] == data[start..pos][k];
      var frameLen := LengthOf(lenBuf[0], lenBuf[1], lenBuf[2], lenBuf[3]);
      if frameLen > MAX_FRAME_SIZE {
        return Err(Protocol);
      }
      var buf := new byte[frameLen];
      status := ReadFull(buf);
      if !status.Full? {
        return Err(Protocol);
      }
      r := Ok(buf[..]);
    }
  }
}
