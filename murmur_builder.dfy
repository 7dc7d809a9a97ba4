/**
 * `MurmurHashCodeBuilder`: the bytes a hash code is computed from. Every
 * `append` replaces the byte array by a fresh one holding the old bytes
 * followed by the new ones; `int` and `long` values go in big-endian
 * order, strings in UTF-8. The hash function itself is not part of this
 * model. A Java `byte` is modelled by its unsigned bit pattern.
 */
module MurmurBuilder {
  import opened Wrappers
  import opened JavaLang

  /** The bytes `append(String)` adds: nothing for `null`, the UTF-8 encoding otherwise. */
  function StringBytes(value: Option<string>): (r: seq<byte>)
    ensures value.None? ==> r == []
    ensures value.Some? ==> Utf8Decode(r) == Some(CodePoints(value.value))
  {
    if value.None? then [] else Utf8RoundTrip(value.value); Utf8(value.value)
  }

  /** One argument of an `append` overload. */
  datatype Appended =
    | Bytes(bytes: Option<seq<byte>>)
    | IntValue(i: int)
    | LongValue(l: int)
    | StringValue(s: Option<string>)

  predicate WellTyped(a: Appended) {
    match a
    case IntValue(i) => IsInt(i)
    case LongValue(l) => IsLong(l)
    case _ => true
  }

  /** An append a Java caller can make: an `int` within 32 bits, a `long` within 64. */
  type Append = a: Appended | WellTyped(a) witness Bytes(None)

  /** The bytes one `append` adds. */
  function Encoding(a: Append): (r: seq<byte>)
    ensures a.IntValue? ==> |r| == 4
    ensures a.LongValue? ==> |r| == 8
  {
    match a
    case Bytes(bytes) => if bytes.None? then [] else bytes.value
    case IntValue(i) => IntBytes(i)
    case LongValue(l) => LongBytes(l)
    case StringValue(s) => StringBytes(s)
  }

  /** The bytes of a builder after a sequence of appends. */
  function Accumulated(appends: seq<Append>): seq<byte>
    decreases |appends|
  {
    if appends == [] then [] else Accumulated(appends[..|appends| - 1]) + Encoding(appends[|appends| - 1])
  }

  /** One more append adds its encoding after the bytes accumulated so far. */
  lemma AccumulatedAppend(appends: seq<Append>, a: Append)
    ensures Accumulated(appends + [a]) == Accumulated(appends) + Encoding(a)
  {
    hide Encoding;
    assert (appends + [a])[..|appends|] == appends;
  }

  /**
   * The accumulated bytes split at any append: what came before, then
   * what came after, so a prefix of appends fixes a prefix of the bytes.
   */
  lemma {:induction false} AccumulatedSplit(a: seq<Append>, b: seq<Append>)
    ensures Accumulated(a + b) == Accumulated(a) + Accumulated(b)
    decreases |b|
  {
    hide Encoding;
    if b == [] {
      assert a + b == a;
    } else {
      var b', x := b[..|b| - 1], b[|b| - 1];
      assert b == b' + [x];
      assert a + b == (a + b') + [x];
      AccumulatedSplit(a, b');
      AccumulatedAppend(a + b', x);
      AccumulatedAppend(b', x);
    }
  }

  /** The four bytes an `int` adds read back, as a two's-complement `int`, to that `int`. */
  lemma IntAppendReadsBack(appends: seq<Append>, i: int)
    requires IsInt(i)
    ensures var r := Accumulated(appends + [IntValue(i)]);
      |r| == |Accumulated(appends)| + 4 &&
      var u := FromBigEndian(r[|r| - 4..]); (if u > INT_MAX then u - TWO_32 else u) == i
  {
    AccumulatedSplit(appends, [IntValue(i)]);
    var r := Accumulated(appends + [IntValue(i)]);
    assert Accumulated([IntValue(i)]) == [] + IntBytes(i);
    assert r[|r| - 4..] == IntBytes(i);
    IntBytesRoundTrip(i);
  }

  /** The eight bytes a `long` adds read back, as a two's-complement `long`, to that `long`. */
  lemma LongAppendReadsBack(appends: seq<Append>, l: int)
    requires IsLong(l)
    ensures var r := Accumulated(appends + [LongValue(l)]);
      |r| == |Accumulated(appends)| + 8 &&
      var u := FromBigEndian(r[|r| - 8..]); (if u > LONG_MAX then u - TWO_64 else u) == l
  {
    AccumulatedSplit(appends, [LongValue(l)]);
    var r := Accumulated(appends + [LongValue(l)]);
    assert Accumulated([LongValue(l)]) == [] + LongBytes(l);
    assert r[|r| - 8..] == LongBytes(l);
    LongBytesRoundTrip(l);
  }

  /** `System.arraycopy` between two distinct arrays: `length` bytes from `srcPos` land at `destPos`, the rest of `dest` stays. */
  method ArrayCopy(src: array<byte>, srcPos: nat, dest: array<byte>, destPos: nat, length: nat)
    requires src != dest && srcPos + length <= src.Length && destPos + length <= dest.Length
    modifies dest
    ensures dest[..destPos] == old(dest[..destPos])
    ensures dest[destPos..destPos + length] == src[srcPos..srcPos + length]
    ensures dest[destPos + length..] == old(dest[destPos + length..])
  {
    var i := 0;
    while i < length
      invariant 0 <= i <= length
      invariant dest[..destPos] == old(dest[..destPos])
      invariant dest[destPos..destPos + i] == src[srcPos..srcPos + i]
      invariant dest[destPos + length..] == old(dest[destPos + length..])
    {
      dest[destPos + i] := src[srcPos + i];
      i := i + 1;
    }
  }

  /** The `joinedArray` of `append(byte[])`: a fresh array with `a`'s bytes, then `b`'s, filled by two `arraycopy` calls. */
  method Joined(a: array<byte>, b: array<byte>) returns (joined: array<byte>)
    ensures fresh(joined) && joined[..] == a[..] + b[..]
  {
    joined := new byte[a.Length + b.Length];
    ArrayCopy(a, 0, joined, 0, a.Length);
    ArrayCopy(b, 0, joined, a.Length, b.Length);
    assert joined[..] == joined[..a.Length] + joined[a.Length..];
  }

  class MurmurHashCodeBuilder {
    var bytes: array<byte>
    /** The appends made so far, in order. */
    ghost var appends: seq<Append>

    ghost predicate Valid()
      reads this, bytes
    {
      bytes[..] == Accumulated(appends)
    }

    /** A new builder holds no bytes. */
    constructor ()
      ensures Valid() && appends == [] && bytes[..] == []
    {
      bytes := new byte[0];
      appends := [];
    }

    /** `append(byte[])`: `null` changes nothing, any other array is copied after the bytes held. */
    method AppendBytes(byteArray: Option<array<byte>>) returns (r: MurmurHashCodeBuilder)
      requires Valid()
      modifies this
      ensures r == this && Valid()
      ensures byteArray.None? ==> bytes == old(bytes) && appends == old(appends) + [Bytes(None)]
      ensures byteArray.Some? ==> fresh(bytes) && bytes[..] == old(bytes[..]) + byteArray.value[..]
                                  && appends == old(appends) + [Bytes(Some(byteArray.value[..]))]
    {
      if byteArray.None? {
        AccumulatedAppend(appends, Bytes(None));
        appends := appends + [Bytes(None)];
        return this;
      }
      var extra := byteArray.value;
      var joined := Joined(bytes, extra);
      AccumulatedAppend(appends, Bytes(Some(extra[..])));
      bytes := joined;
      appends := appends + [Bytes(Some(extra[..]))];
      return this;
    }

    /** Appends a fresh array holding `content`, as the overloads below do with the array they build. */
    method AppendContent(content: seq<byte>, a: Append) returns (r: MurmurHashCodeBuilder)
      requires Valid() && Encoding(a) == content
      modifies this
      ensures r == this && Valid()
      ensures fresh(bytes) && bytes[..] == old(bytes[..]) + content && appends == old(appends) + [a]
    {
      var joined := new byte[|content|](k requires 0 <= k < |content| => content[k]);
      assert joined[..] == content;
      r := AppendBytes(Some(joined));
      appends := old(appends) + [a];
      assert Accumulated(appends) == Accumulated(old(appends)) + Encoding(a);
    }

    /** `append(int)`: the four bytes of the value, most significant first. */
    method AppendInt(value: int) returns (r: MurmurHashCodeBuilder)
      requires Valid() && IsInt(value)
      modifies this
      ensures r == this && Valid()
      ensures fresh(bytes) && bytes[..] == old(bytes[..]) + IntBytes(value) && appends == old(appends) + [IntValue(value)]
    {
      r := AppendContent(IntBytes(value), IntValue(value));
    }

    /** `append(long)`: the eight bytes of the value, most significant first. */
    method AppendLong(v: int) returns (r: MurmurHashCodeBuilder)
      requires Valid() && IsLong(v)
      modifies this
      ensures r == this && Valid()
      ensures fresh(bytes) && bytes[..] == old(bytes[..]) + LongBytes(v) && appends == old(appends) + [LongValue(v)]
    {
      r := AppendContent(LongBytes(v), LongValue(v));
    }

    /** `append(String)`: `null` changes nothing, any other string adds its UTF-8 bytes. */
    method AppendString(value: Option<string>) returns (r: MurmurHashCodeBuilder)
      requires Valid()
      modifies this
      ensures r == this && Valid()
      ensures value.None? ==> bytes == old(bytes) && appends == old(appends) + [StringValue(None)]
      ensures value.Some? ==> fresh(bytes) && bytes[..] == old(bytes[..]) + Utf8(value.value)
                              && appends == old(appends) + [StringValue(value)]
    {
      if value.None? {
        AccumulatedAppend(appends, StringValue(None));
        assert Encoding(StringValue(None)) == [];
        appends := appends + [StringValue(None)];
        return this;
      }
      assert Encoding(StringValue(value)) == Utf8(value.value);
      r := AppendContent(Utf8(value.value), StringValue(value));
    }

    /** `getBytes`: the array itself, holding every byte appended so far. */
    method GetBytes() returns (r: array<byte>)
      requires Valid()
      ensures r == bytes && r[..] == Accumulated(appends)
    {
      return bytes;
    }
  }
}
