/**
 * The buffers that keep indices instead of a pointer into themselves:
 * `IndexBased` (a filled range), `Buffer` with its `Reader` (a filled length
 * and a read position), `LazyBuffer` (a filled length), and the two small
 * buffers of the tests, which do not clamp their input.
 */
module AlternativeBuffers {
  import opened Wrappers

  /**
   * `data` after `fill_with(bytes)`: the first `min(|bytes|, |data|)` bytes
   * copied over, the rest of `data` as it was.
   */
  function FillPrefix(data: seq<byte>, bytes: seq<byte>): (r: seq<byte>)
  {
    var n := Min(|bytes|, |data|);
    bytes[..n] + data[n..]
  }

  /**
   * Input longer than the buffer is truncated, never rejected: the filled
   * part is the clamped prefix of the input, and the bytes past it are kept.
   */
  lemma FillPrefixTruncates(data: seq<byte>, bytes: seq<byte>)
    ensures |FillPrefix(data, bytes)| == |data|
    ensures FillPrefix(data, bytes)[..Min(|bytes|, |data|)] == bytes[..Min(|bytes|, |data|)]
    ensures FillPrefix(data, bytes)[Min(|bytes|, |data|)..] == data[Min(|bytes|, |data|)..]
    ensures |bytes| <= |data| ==> FillPrefix(data, bytes)[..|bytes|] == bytes
  {
  }

  /** Strategy 1: a buffer of 1024 bytes and the range that is filled. */
  class IndexBased {
    const data: array<byte>
    var rangeStart: nat
    var rangeEnd: nat

    ghost predicate Valid()
      reads this
    {
      rangeStart <= rangeEnd <= data.Length
    }

    constructor ()
      ensures Valid() && fresh(data) && data.Length == 1024
      ensures rangeStart == 0 && rangeEnd == 0
    {
      data := new byte[1024](_ => 0);
      rangeStart, rangeEnd := 0, 0;
    }

    /** `fill_with`: copy the clamped prefix and make the filled range start at 0. */
    method FillWith(bytes: seq<byte>)
      requires Valid()
      modifies this, data
      ensures Valid()
      ensures data[..] == FillPrefix(old(data[..]), bytes)
      ensures rangeStart == 0 && rangeEnd == Min(|bytes|, data.Length)
      ensures GetFilled() == bytes[..Min(|bytes|, data.Length)]
    {
      var len := Min(|bytes|, data.Length);
      forall i | 0 <= i < len {
        data[i] := bytes[i];
      }
      rangeStart, rangeEnd := 0, len;
    }

    /** `get_filled`: the bytes of the filled range. */
    function GetFilled(): (r: seq<byte>)
      requires Valid()
      reads this, data
      ensures |r| == rangeEnd - rangeStart
      ensures forall i :: 0 <= i < |r| ==> r[i] == data[rangeStart + i]
    {
      data[rangeStart..rangeEnd]
    }
  }

  /** Strategy 2: a buffer of a chosen size and its filled length. */
  class Buffer {
    const data: array<byte>
    var filledLen: nat

    ghost predicate Valid()
      reads this
    {
      filledLen <= data.Length
    }

    constructor (size: nat)
      ensures Valid() && fresh(data) && data.Length == size && filledLen == 0
    {
      data := new byte[size](_ => 0);
      filledLen := 0;
    }

    /** `fill_with`: copy the clamped prefix and set the filled length. */
    method FillWith(bytes: seq<byte>)
      requires Valid()
      modifies this, data
      ensures Valid()
      ensures data[..] == FillPrefix(old(data[..]), bytes)
      ensures filledLen == Min(|bytes|, data.Length)
      ensures GetFilled() == bytes[..Min(|bytes|, data.Length)]
    {
      var len := Min(|bytes|, data.Length);
      forall i | 0 <= i < len {
        data[i] := bytes[i];
      }
      filledLen := len;
    }

    /** `get_filled`: the first `filled_len` bytes. */
    function GetFilled(): (r: seq<byte>)
      requires Valid()
      reads this, data
      ensures |r| == filledLen
      ensures forall i :: 0 <= i < |r| ==> r[i] == data[i]
    {
      data[..filledLen]
    }
  }

  /** A `Buffer` of 1024 bytes and a read position into its filled part. */
  class Reader {
    const buffer: Buffer
    var pos: nat

    constructor ()
      ensures fresh(buffer) && fresh(buffer.data) && buffer.Valid()
      ensures buffer.data.Length == 1024 && buffer.filledLen == 0 && pos == 0
    {
      buffer := new Buffer(1024);
      pos := 0;
    }

    /** `available`: the filled bytes from `pos` on; slicing needs `pos <= filled_len`. */
    function Available(): (r: seq<byte>)
      requires buffer.Valid() && pos <= buffer.filledLen
      reads this, buffer, buffer.data
      ensures |r| == buffer.filledLen - pos
      ensures buffer.GetFilled() == buffer.GetFilled()[..pos] + r
    {
      buffer.GetFilled()[pos..]
    }
  }

  /** Strategy 3: a buffer of 1024 bytes and its filled length. */
  class LazyBuffer {
    const data: array<byte>
    var filledLen: nat

    ghost predicate Valid()
      reads this
    {
      filledLen <= data.Length
    }

    constructor ()
      ensures Valid() && fresh(data) && data.Length == 1024 && filledLen == 0
    {
      data := new byte[1024](_ => 0);
      filledLen := 0;
    }

    /** `fill_with`: copy the clamped prefix and set the filled length. */
    method FillWith(bytes: seq<byte>)
      requires Valid()
      modifies this, data
      ensures Valid()
      ensures data[..] == FillPrefix(old(data[..]), bytes)
      ensures filledLen == Min(|bytes|, data.Length)
      ensures Filled() == bytes[..Min(|bytes|, data.Length)]
    {
      var len := Min(|bytes|, data.Length);
      forall i | 0 <= i < len {
        data[i] := bytes[i];
      }
      filledLen := len;
    }

    /** `filled`: the first `filled_len` bytes. */
    function Filled(): (r: seq<byte>)
      requires Valid()
      reads this, data
      ensures |r| == filledLen
      ensures forall i :: 0 <= i < |r| ==> r[i] == data[i]
    {
      data[..filledLen]
    }
  }

  /** The test's `IndexBased`: 100 bytes holding `bytes`; more than 100 would panic. */
  class TestIndexBased {
    const data: array<byte>
    var rangeStart: nat
    var rangeEnd: nat

    constructor (bytes: seq<byte>)
      requires |bytes| <= 100
      ensures fresh(data) && data.Length == 100
      ensures rangeStart == 0 && rangeEnd == |bytes|
      ensures Get() == bytes
    {
      var d := new byte[100](_ => 0);
      forall i | 0 <= i < |bytes| {
        d[i] := bytes[i];
      }
      data := d;
      rangeStart, rangeEnd := 0, |bytes|;
    }

    /** `get`: the bytes of the range. */
    function Get(): (r: seq<byte>)
      requires rangeStart <= rangeEnd <= data.Length
      reads this, data
      ensures |r| == rangeEnd - rangeStart
      ensures forall i :: 0 <= i < |r| ==> r[i] == data[rangeStart + i]
    {
      data[rangeStart..rangeEnd]
    }
  }

  /** The test's `Buffer`: 100 bytes and a length; `write` does not clamp. */
  class TestBuffer {
    const data: array<byte>
    var len: nat

    ghost predicate Valid()
      reads this
    {
      len <= data.Length
    }

    constructor ()
      ensures Valid() && fresh(data) && data.Length == 100 && len == 0
    {
      data := new byte[100](_ => 0);
      len := 0;
    }

    /** `write`: copies all of `bytes`, so more than the 100 bytes would panic. */
    method Write(bytes: seq<byte>)
      requires Valid() && |bytes| <= data.Length
      modifies this, data
      ensures Valid()
      ensures data[..] == bytes + old(data[|bytes|..])
      ensures Read() == bytes
    {
      forall i | 0 <= i < |bytes| {
        data[i] := bytes[i];
      }
      len := |bytes|;
    }

    /** `read`: the first `len` bytes. */
    function Read(): (r: seq<byte>)
      requires Valid()
      reads this, data
      ensures |r| == len
      ensures forall i :: 0 <= i < |r| ==> r[i] == data[i]
    {
      data[..len]
    }
  }

  /** `test_index_based_is_movable`: `IndexBased::new(b"test").get()` is "test". */
  method IndexBasedKeepsBytes() returns (got: seq<byte>)
    ensures got == [116, 101, 115, 116]
  {
    var buf := new TestIndexBased([116, 101, 115, 116]);
    got := buf.Get();
  }

  /** `test_separated_ownership`: after `write(b"hello")`, `read()` is "hello". */
  method BufferReadsWhatWasWritten() returns (got: seq<byte>)
    ensures got == [104, 101, 108, 108, 111]
  {
    var buf := new TestBuffer();
    buf.Write([104, 101, 108, 108, 111]);
    got := buf.Read();
  }

  /**
   * Filling twice keeps only the second fill visible, whatever the first
   * filled, and input beyond 1024 bytes is cut off.
   */
  method RefillResetsRange(first: seq<byte>, second: seq<byte>) returns (got: seq<byte>)
    ensures got == second[..Min(|second|, 1024)]
  {
    var buf := new IndexBased();
    buf.FillWith(first);
    buf.FillWith(second);
    got := buf.GetFilled();
  }
}
