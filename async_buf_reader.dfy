/**
 * `AsyncBufReader`: a fixed buffer with a filled length and a read position
 * over an inner reader. The inner reader is a parameter of each poll: what it
 * would answer if polled now. `filled_ptr` always points at the start of the
 * buffer, so the model keeps no pointer and reads the filled part from index 0.
 */
module BufReader {
  import opened Wrappers

  /** The inner reader's answer to `poll_read`: bytes put at the start of the buffer, an error, or not ready. */
  datatype InnerPoll = InnerReady(bytes: seq<byte>) | InnerError(error: string) | InnerPending

  /** `Poll<io::Result<&[u8]>>` of `poll_fill_buf`. */
  datatype FillPoll = FillReady(data: seq<byte>) | FillError(error: string) | FillPending

  /** `Poll<io::Result<()>>` of `poll_read`, with the bytes put into the caller's `ReadBuf`. */
  datatype ReadPoll = ReadReady(copied: seq<byte>) | ReadError(error: string) | ReadPending

  class AsyncBufReader {
    const buffer: array<byte>
    var filledLen: nat
    var pos: nat

    /** The cursor invariant: `pos <= filled_len <= capacity`. */
    ghost predicate Valid()
      reads this
    {
      pos <= filledLen <= buffer.Length
    }

    /** `new`: a zeroed buffer of `capacity` bytes, nothing filled, nothing read. */
    constructor (capacity: nat)
      ensures Valid() && fresh(buffer)
      ensures buffer.Length == capacity && forall i :: 0 <= i < capacity ==> buffer[i] == 0
      ensures filledLen == 0 && pos == 0
    {
      buffer := new byte[capacity](_ => 0);
      filledLen := 0;
      pos := 0;
    }

    /** `filled`: the first `filled_len` bytes of the buffer. */
    function Filled(): (r: seq<byte>)
      requires Valid()
      reads this, buffer
      ensures |r| == filledLen
      ensures forall i :: 0 <= i < filledLen ==> r[i] == buffer[i]
    {
      buffer[..filledLen]
    }

    /** `available`: the filled bytes not yet consumed. */
    function Available(): (r: seq<byte>)
      requires Valid()
      reads this, buffer
      ensures |r| == filledLen - pos
      ensures forall i :: 0 <= i < |r| ==> r[i] == buffer[pos + i]
    {
      Filled()[pos..]
    }

    /** `consume`: advance the position, clamped at the filled length. */
    method Consume(amt: nat)
      requires Valid()
      modifies this
      ensures Valid()
      ensures pos == Min(old(pos) + amt, filledLen)
      ensures filledLen == old(filledLen)
    {
      pos := Min(pos + amt, filledLen);
    }

    /**
     * `poll_fill_buf`. Unread bytes are returned without polling the inner
     * reader. Otherwise `pos` is reset to 0 and the inner reader is polled; on
     * success its bytes become the filled part, and on an error or `Pending`
     * the old filled length stays, so the consumed bytes are available again.
     */
    method PollFillBuf(inner: InnerPoll) returns (r: FillPoll)
      requires Valid()
      requires inner.InnerReady? ==> |inner.bytes| <= buffer.Length
      modifies this, buffer
      ensures Valid()
      ensures old(pos) < old(filledLen) ==>
        r == FillReady(old(Available())) && pos == old(pos) && filledLen == old(filledLen) &&
        buffer[..] == old(buffer[..])
      ensures old(pos) >= old(filledLen) ==> pos == 0
      ensures old(pos) >= old(filledLen) && inner.InnerReady? ==>
        r == FillReady(inner.bytes) && filledLen == |inner.bytes| && Filled() == inner.bytes &&
        buffer[|inner.bytes|..] == old(buffer[|inner.bytes|..])
      ensures old(pos) >= old(filledLen) && !inner.InnerReady? ==>
        filledLen == old(filledLen) && buffer[..] == old(buffer[..]) &&
        r == (if inner.InnerError? then FillError(inner.error) else FillPending)
    {
      if pos < filledLen {
        return FillReady(buffer[pos..filledLen]);
      }
      pos := 0;
      match inner {
        case InnerReady(bytes) =>
          forall i | 0 <= i < |bytes| {
            buffer[i] := bytes[i];
          }
          filledLen := |bytes|;
          r := FillReady(buffer[..filledLen]);
        case InnerError(e) =>
          r := FillError(e);
        case InnerPending =>
          r := FillPending;
      }
    }

    /**
     * `poll_fill_buf` with the position reset only once new bytes have been
     * read: an error or `Pending` leaves the consumed bytes consumed.
     */
    method PollFillBufIntended(inner: InnerPoll) returns (r: FillPoll)
      requires Valid()
      requires inner.InnerReady? ==> |inner.bytes| <= buffer.Length
      modifies this, buffer
      ensures Valid()
      ensures old(pos) < old(filledLen) ==>
        r == FillReady(old(Available())) && pos == old(pos) && filledLen == old(filledLen) &&
        buffer[..] == old(buffer[..])
      ensures old(pos) >= old(filledLen) && inner.InnerReady? ==>
        r == FillReady(inner.bytes) && pos == 0 && filledLen == |inner.bytes| && Filled() == inner.bytes
      ensures old(pos) >= old(filledLen) && !inner.InnerReady? ==>
        pos == old(pos) && filledLen == old(filledLen) && buffer[..] == old(buffer[..]) && Available() == []
    {
      if pos < filledLen {
        return FillReady(buffer[pos..filledLen]);
      }
      match inner {
        case InnerReady(bytes) =>
          forall i | 0 <= i < |bytes| {
            buffer[i] := bytes[i];
          }
          pos := 0;
          filledLen := |bytes|;
          r := FillReady(buffer[..filledLen]);
        case InnerError(e) =>
          r := FillError(e);
        case InnerPending =>
          r := FillPending;
      }
    }

    /**
     * `poll_read`: fill if needed, copy as many available bytes as the
     * caller's buffer has room for, and consume exactly those.
     */
    method PollRead(inner: InnerPoll, remaining: nat) returns (r: ReadPoll)
      requires Valid()
      requires inner.InnerReady? ==> |inner.bytes| <= buffer.Length
      modifies this, buffer
      ensures Valid()
      ensures old(pos) < old(filledLen) ==>
        var avail := old(Available());
        var n := Min(|avail|, remaining);
        r == ReadReady(avail[..n]) && Available() == avail[n..] &&
        filledLen == old(filledLen) && buffer[..] == old(buffer[..])
      ensures old(pos) >= old(filledLen) && inner.InnerReady? ==>
        var n := Min(|inner.bytes|, remaining);
        r == ReadReady(inner.bytes[..n]) && Filled() == inner.bytes && pos == n
      ensures old(pos) >= old(filledLen) && !inner.InnerReady? ==>
        pos == 0 && filledLen == old(filledLen) && buffer[..] == old(buffer[..]) &&
        r == (if inner.InnerError? then ReadError(inner.error) else ReadPending)
    {
      var fill := PollFillBuf(inner);
      match fill {
        case FillReady(available) =>
          var toRead := Min(|available|, remaining);
          Consume(toRead);
          r := ReadReady(available[..toRead]);
        case FillError(e) =>
          r := ReadError(e);
        case FillPending =>
          r := ReadPending;
      }
    }
  }

  /**
   * `test_filled_buffer`: the first fill returns every ready byte. The test
   * uses the 20 bytes of "Test data for buffer"; any input that fits the
   * 1024-byte buffer does the same.
   */
  method FillReturnsAllBytes(data: seq<byte>) returns (filled: FillPoll)
    requires |data| <= 1024
    ensures filled == FillReady(data)
  {
    var reader := new AsyncBufReader(1024);
    filled := reader.PollFillBuf(InnerReady(data));
  }

  /** `test_consume`: after filling "0123456789", reading 5 gives "01234" and leaves "56789". */
  method ConsumeScenario() returns (read: ReadPoll, available: seq<byte>)
    ensures read == ReadReady([48, 49, 50, 51, 52])
    ensures available == [53, 54, 55, 56, 57]
  {
    var digits := [48, 49, 50, 51, 52, 53, 54, 55, 56, 57];
    var reader := new AsyncBufReader(1024);
    var _ := reader.PollFillBuf(InnerReady(digits));
    read := reader.PollRead(InnerPending, 5);
    available := reader.Available();
  }

  /**
   * As written: once two bytes are read and the inner reader is `Pending`,
   * the same two bytes are available, and read, a second time.
   */
  method ReplayAfterPending() returns (first: ReadPoll, replay: ReadPoll)
    ensures first == ReadReady([1, 2])
    ensures replay == ReadReady([1, 2])
  {
    var reader := new AsyncBufReader(4);
    first := reader.PollRead(InnerReady([1, 2]), 2);
    var pending := reader.PollRead(InnerPending, 2);
    replay := reader.PollRead(InnerPending, 2);
  }

  /** With the intended fill, `Pending` after a full read leaves nothing available. */
  method NoReplayWhenIntended() returns (first: ReadPoll, available: seq<byte>)
    ensures first == ReadReady([1, 2])
    ensures available == []
  {
    var reader := new AsyncBufReader(4);
    first := reader.PollRead(InnerReady([1, 2]), 2);
    var pending := reader.PollFillBufIntended(InnerPending);
    available := reader.Available();
  }
}
