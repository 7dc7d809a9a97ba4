/**
 * `CachingOutputStream`: a tee that forwards every write to the underlying
 * stream and keeps a copy of everything written in a growable byte array.
 */
module CachingOutputStreams {
  import opened Wrappers
  import opened JavaLang
  import opened Streams

  /** The initial buffer size, and also the amount a full buffer grows by. */
  const CHUNK: nat := 1024

  /** `(byte) b`: the low eight bits of an `int`, as an unsigned byte. */
  function LowByte(b: int): (r: byte)
    ensures (r as int - b) % 256 == 0
  {
    (b % 256) as byte
  }

  /** `System.arraycopy` from a byte sequence: `src` lands at `destPos`, the rest of `dest` stays. */
  method CopyInto(src: seq<byte>, dest: array<byte>, destPos: nat)
    requires destPos + |src| <= dest.Length
    modifies dest
    ensures dest[..destPos] == old(dest[..destPos])
    ensures dest[destPos..destPos + |src|] == src
    ensures dest[destPos + |src|..] == old(dest[destPos + |src|..])
    ensures dest[..destPos + |src|] == old(dest[..destPos]) + src
  {
    var i := 0;
    while i < |src|
      invariant 0 <= i <= |src|
      invariant dest[..destPos] == old(dest[..destPos])
      invariant dest[destPos..destPos + i] == src[..i]
      invariant dest[destPos + |src|..] == old(dest[destPos + |src|..])
    {
      dest[destPos + i] := src[i];
      i := i + 1;
    }
    assert dest[..destPos + |src|] == dest[..destPos] + dest[destPos..destPos + |src|];
  }

  class CachingOutputStream {
    var buffer: array<byte>
    var length: nat
    const out: ByteSink
    /** What the underlying stream had received before this stream was made. */
    ghost const before: seq<byte>

    ghost predicate Valid()
      reads this, buffer, out
    {
      length < buffer.Length && out.bytes == before + buffer[..length]
    }

    /** The bytes written so far, in order. */
    ghost function Content(): seq<byte>
      reads this, buffer
      requires length <= buffer.Length
    {
      buffer[..length]
    }

    constructor (out: ByteSink)
      ensures Valid() && fresh(buffer) && buffer.Length == CHUNK && Content() == []
      ensures this.out == out && before == out.bytes
    {
      this.out := out;
      before := out.bytes;
      buffer := new byte[CHUNK];
      length := 0;
    }

    /** Copies the whole of `buffer` into a fresh array of `size` bytes. */
    method Grow(size: nat)
      requires length < buffer.Length < size
      modifies this`buffer
      ensures fresh(buffer) && buffer.Length == size
      ensures Content() == old(Content())
    {
      var next := new byte[size];
      forall i | 0 <= i < buffer.Length {
        next[i] := buffer[i];
      }
      assert next[..length] == buffer[..length];
      buffer := next;
    }

    /** `write(int)`: forwards the byte, grows the buffer when it would become full, then buffers the byte. */
    method WriteByte(b: int)
      requires Valid()
      modifies this, buffer, out
      ensures Valid()
      ensures out.bytes == old(out.bytes) + [LowByte(b)]
      ensures Content() == old(Content()) + [LowByte(b)]
      ensures buffer.Length == if old(length) + 1 == old(buffer.Length) then old(buffer.Length) + CHUNK else old(buffer.Length)
    {
      out.Write([LowByte(b)]);
      if length + 1 == buffer.Length {
        Grow(buffer.Length + CHUNK);
      }
      buffer[length] := LowByte(b);
      length := length + 1;
    }

    /**
     * `write(byte[], off, len)`: an offset or length outside the array
     * makes the underlying stream throw before anything happens; otherwise
     * the slice is forwarded, the buffer grows to `length + len + 1024`
     * when the slice would fill it, and the slice is buffered.
     */
    method Write(b: seq<byte>, off: int, len: int) returns (outcome: Outcome)
      requires Valid()
      modifies this, buffer, out
      ensures Valid()
      ensures !(0 <= off && 0 <= len && off + len <= |b|) ==>
        outcome == Fail(IndexOutOfBounds) && out.bytes == old(out.bytes) && Content() == old(Content())
      ensures 0 <= off && 0 <= len && off + len <= |b| ==>
        outcome == Pass && out.bytes == old(out.bytes) + b[off..off + len] && Content() == old(Content()) + b[off..off + len]
    {
      if !(0 <= off && 0 <= len && off + len <= |b|) {
        return Fail(IndexOutOfBounds);
      }
      WriteSlice(b[off..off + len]);
      return Pass;
    }

    /** The rest of `write(byte[], off, len)` once the slice is known to be inside the array. */
    method WriteSlice(data: seq<byte>)
      requires Valid()
      modifies this, buffer, out
      ensures Valid()
      ensures out.bytes == old(out.bytes) + data && Content() == old(Content()) + data
    {
      ghost var was := Content();
      out.Write(data);
      if length + |data| >= buffer.Length {
        Grow(length + |data| + CHUNK);
      }
      assert Content() == was;
      CopyInto(data, buffer, length);
      assert buffer[..length + |data|] == was + data;
      assert before + was + data == before + (was + data);
      length := length + |data|;
    }

    /** `getContent`: a fresh copy of the buffered bytes; the buffer itself is left alone. */
    method GetContent() returns (result: array<byte>)
      requires Valid()
      ensures fresh(result) && result[..] == Content()
    {
      result := new byte[length];
      forall i | 0 <= i < length {
        result[i] := buffer[i];
      }
    }

    /** `flush` delegates to the underlying stream. */
    method Flush()
      requires Valid()
      modifies out
      ensures Valid() && out.bytes == old(out.bytes) && out.flushes == old(out.flushes) + 1 && out.closed == old(out.closed)
    {
      out.Flush();
    }

    /** `close` delegates to the underlying stream. */
    method Close()
      requires Valid()
      modifies out
      ensures Valid() && out.bytes == old(out.bytes) && out.closed
    {
      out.Close();
    }
  }
}
