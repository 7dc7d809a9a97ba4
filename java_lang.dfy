/**
 * The pieces of the Java platform that the modelled code leans on, written
 * out: bytes, the wrap-around of `int` and `long`, big-endian byte
 * extraction with `>>>`, UTF-8 encoding of a string, `Character.isWhitespace`,
 * `String.trim`, `String.split(" ")`, `Integer.toString`/`Long.toString`
 * and `Long.parseLong`.
 */
module JavaLang {
  import opened Wrappers

  /** A Java `byte`, kept as its unsigned bit pattern 0..255. */
  newtype byte = b: int | 0 <= b < 256

  const TWO_32: int := 0x1_0000_0000
  const TWO_64: int := 0x1_0000_0000_0000_0000
  const INT_MIN: int := -0x8000_0000
  const INT_MAX: int := 0x7FFF_FFFF
  const LONG_MIN: int := -0x8000_0000_0000_0000
  const LONG_MAX: int := 0x7FFF_FFFF_FFFF_FFFF

  predicate IsInt(x: int) { INT_MIN <= x <= INT_MAX }
  predicate IsLong(x: int) { LONG_MIN <= x <= LONG_MAX }

  /** Two's-complement wrap-around of a mathematical integer into a `long`. */
  function ToLong(x: int): (r: int)
    ensures IsLong(r)
    ensures (r - x) % TWO_64 == 0
    ensures IsLong(x) ==> r == x
  {
    var m := (x - LONG_MIN) % TWO_64;
    assert (m + LONG_MIN - x) == ((x - LONG_MIN) % TWO_64) - (x - LONG_MIN);
    assert IsLong(x) ==> (x - LONG_MIN) % TWO_64 == x - LONG_MIN;
    m + LONG_MIN
  }

  /** Two's-complement wrap-around of a mathematical integer into an `int`. */
  function ToInt(x: int): (r: int)
    ensures IsInt(r)
    ensures (r - x) % TWO_32 == 0
    ensures IsInt(x) ==> r == x
  {
    var m := (x - INT_MIN) % TWO_32;
    assert (m + INT_MIN - x) == ((x - INT_MIN) % TWO_32) - (x - INT_MIN);
    assert IsInt(x) ==> (x - INT_MIN) % TWO_32 == x - INT_MIN;
    m + INT_MIN
  }

  /** `String.hashCode`: `h = 31 * h + c` over the characters, in `int` arithmetic. */
  function StringHash(s: string): (r: int)
    ensures IsInt(r)
    ensures s == [] ==> r == 0
  {
    if s == [] then 0 else ToInt(31 * StringHash(s[..|s| - 1]) + s[|s| - 1] as int)
  }

  // ---------------------------------------------------------------------
  // Big-endian bytes

  /** `256^n`. */
  function Pow256(n: nat): (r: nat)
    ensures r > 0
  {
    if n == 0 then 1 else 256 * Pow256(n - 1)
  }

  /** The `n` low-order bytes of `u`, most significant first. */
  function BigEndian(u: nat, n: nat): (r: seq<byte>)
    ensures |r| == n
  {
    if n == 0 then [] else BigEndian(u / 256, n - 1) + [(u % 256) as byte]
  }

  /** The unsigned number whose big-endian bytes are `bs`. */
  function FromBigEndian(bs: seq<byte>): (r: nat)
    ensures r < Pow256(|bs|)
  {
    if bs == [] then 0
    else
      var hi := FromBigEndian(bs[..|bs| - 1]);
      assert hi <= Pow256(|bs| - 1) - 1;
      assert hi * 256 <= (Pow256(|bs| - 1) - 1) * 256;
      hi * 256 + bs[|bs| - 1] as int
  }

  lemma MulNonNeg(a: int, b: int)
    requires a >= 0 && b >= 0
    ensures a * b >= 0
  {
  }

  /** Euclidean division is unique: `k * d + x` with `x < d` has quotient `k` and remainder `x`. */
  lemma ModUnique(u: nat, d: nat, k: nat, x: nat)
    requires d > 0 && x < d && u == k * d + x
    ensures u % d == x && u / d == k
  {
    var q, r := u / d, u % d;
    assert u == q * d + r;
    assert (k - q) * d == r - x;
    MulAtLeast(k - q, d);
  }

  lemma MulAtLeast(m: int, d: int)
    requires d > 0
    ensures m >= 1 ==> m * d >= d
    ensures m <= -1 ==> m * d <= -d
  {
    if m >= 1 {
      MulNonNeg(m - 1, d);
      assert m * d == (m - 1) * d + d;
    }
    if m <= -1 {
      MulNonNeg(-m - 1, d);
      assert m * d == -((-m - 1) * d) - d;
    }
  }

  lemma DivDiv(u: nat, a: nat, b: nat)
    requires a > 0 && b > 0
    ensures u / a / b == u / (a * b)
  {
    var q := u / a;
    var k, x := q / b, q % b;
    assert q == k * b + x;
    assert u == q * a + u % a;
    assert x * a + u % a < a * b by {
      MulNonNeg(b - 1 - x, a);
      assert (b - 1 - x) * a == (b - 1) * a - x * a;
      assert (b - 1) * a == a * b - a;
    }
    assert u == k * (a * b) + (x * a + u % a) by {
      assert q * a == (k * b + x) * a;
      assert (k * b + x) * a == k * (a * b) + x * a;
    }
    ModUnique(u, a * b, k, x * a + u % a);
  }

  lemma Recombine(u: nat, m: nat)
    requires m > 0
    ensures (u / 256 % m) * 256 + u % 256 == u % (256 * m)
  {
    var q, r := u / 256, u % 256;
    var a, b := q / m, q % m;
    assert u == 256 * q + r;
    assert q == a * m + b;
    assert u == a * (256 * m) + (b * 256 + r) by {
      assert 256 * q == 256 * (a * m + b);
      assert 256 * (a * m + b) == a * (256 * m) + b * 256;
    }
    assert b * 256 + r < 256 * m by {
      MulNonNeg(m - 1 - b, 256);
      assert (m - 1 - b) * 256 == 256 * m - 256 - b * 256;
    }
    ModUnique(u, 256 * m, a, b * 256 + r);
  }

  lemma {:induction false} BigEndianRoundTrip(u: nat, n: nat)
    ensures FromBigEndian(BigEndian(u, n)) == u % Pow256(n)
  {
    if n > 0 {
      var bs := BigEndian(u, n);
      assert bs[..n - 1] == BigEndian(u / 256, n - 1);
      BigEndianRoundTrip(u / 256, n - 1);
      assert FromBigEndian(bs) == (u / 256 % Pow256(n - 1)) * 256 + u % 256;
      Recombine(u, Pow256(n - 1));
    }
  }

  /** `v` viewed as unsigned `width`-bit pattern, as `>>>` sees it. */
  function Unsigned(v: int, modulus: nat): (r: nat)
    requires modulus > 0
    ensures r < modulus
  {
    v % modulus
  }

  /** The four bytes `(byte)(v >>> 24), (byte)(v >>> 16), (byte)(v >>> 8), (byte)v` of an `int`. */
  function IntBytes(v: int): (r: seq<byte>)
    requires IsInt(v)
    ensures |r| == 4
  {
    var u := Unsigned(v, TWO_32);
    [(u / 0x100_0000 % 256) as byte, (u / 0x1_0000 % 256) as byte, (u / 0x100 % 256) as byte, (u % 256) as byte]
  }

  /** The eight bytes `(byte)(v >>> 56) … (byte)(v >>> 0)` of a `long`. */
  function LongBytes(v: int): (r: seq<byte>)
    requires IsLong(v)
    ensures |r| == 8
  {
    var u := Unsigned(v, TWO_64);
    [(u / 0x100_0000_0000_0000 % 256) as byte, (u / 0x1_0000_0000_0000 % 256) as byte,
     (u / 0x100_0000_0000 % 256) as byte, (u / 0x1_0000_0000 % 256) as byte,
     (u / 0x100_0000 % 256) as byte, (u / 0x1_0000 % 256) as byte,
     (u / 0x100 % 256) as byte, (u % 256) as byte]
  }

  lemma BigEndianAt(u: nat, n: nat, k: nat)
    requires k < n
    ensures BigEndian(u, n)[k] as int == u / Pow256(n - 1 - k) % 256
  {
    if k < n - 1 {
      BigEndianAt(u / 256, n - 1, k);
      DivDiv(u, 256, Pow256(n - 2 - k));
    }
  }

  lemma Pow256Values()
    ensures Pow256(0) == 1 && Pow256(1) == 0x100 && Pow256(2) == 0x1_0000 && Pow256(3) == 0x100_0000
    ensures Pow256(4) == 0x1_0000_0000 && Pow256(5) == 0x100_0000_0000 && Pow256(6) == 0x1_0000_0000_0000
    ensures Pow256(7) == 0x100_0000_0000_0000 && Pow256(8) == 0x1_0000_0000_0000_0000
  {
    assert Pow256(1) == 256 * Pow256(0);
    assert Pow256(2) == 256 * Pow256(1);
    assert Pow256(3) == 256 * Pow256(2);
    assert Pow256(4) == 256 * Pow256(3);
    assert Pow256(5) == 256 * Pow256(4);
    assert Pow256(6) == 256 * Pow256(5);
    assert Pow256(7) == 256 * Pow256(6);
    assert Pow256(8) == 256 * Pow256(7);
  }

  /** The Java shift expressions give the big-endian encoding of the unsigned pattern. */
  lemma IntBytesAreBigEndian(v: int)
    requires IsInt(v)
    ensures IntBytes(v) == BigEndian(Unsigned(v, TWO_32), 4)
  {
    var u := Unsigned(v, TWO_32);
    Pow256Values();
    forall k | 0 <= k < 4 ensures IntBytes(v)[k] == BigEndian(u, 4)[k] {
      BigEndianAt(u, 4, k);
    }
  }

  lemma LongBytesAreBigEndian(v: int)
    requires IsLong(v)
    ensures LongBytes(v) == BigEndian(Unsigned(v, TWO_64), 8)
  {
    var u := Unsigned(v, TWO_64);
    Pow256Values();
    forall k | 0 <= k < 8 ensures LongBytes(v)[k] == BigEndian(u, 8)[k] {
      BigEndianAt(u, 8, k);
    }
  }

  /** An `int` read back from its unsigned 32-bit pattern. */
  lemma SignedOfUnsignedInt(v: int)
    requires IsInt(v)
    ensures var u := Unsigned(v, TWO_32); (if u > INT_MAX then u - TWO_32 else u) == v
  {
    if v < 0 {
      ModUnique(v + TWO_32, TWO_32, 0, v + TWO_32);
    } else {
      ModUnique(v, TWO_32, 0, v);
    }
  }

  /** A `long` read back from its unsigned 64-bit pattern. */
  lemma SignedOfUnsignedLong(v: int)
    requires IsLong(v)
    ensures var u := Unsigned(v, TWO_64); (if u > LONG_MAX then u - TWO_64 else u) == v
  {
    if v < 0 {
      ModUnique(v + TWO_64, TWO_64, 0, v + TWO_64);
    } else {
      ModUnique(v, TWO_64, 0, v);
    }
  }

  /** Reading the four bytes back as a two's-complement `int` gives the value appended. */
  lemma IntBytesRoundTrip(v: int)
    requires IsInt(v)
    ensures |IntBytes(v)| == 4
    ensures var u := FromBigEndian(IntBytes(v)); (if u > INT_MAX then u - TWO_32 else u) == v
  {
    var u := Unsigned(v, TWO_32);
    IntBytesAreBigEndian(v);
    BigEndianRoundTrip(u, 4);
    Pow256Values();
    hide *;
    ModUnique(u, TWO_32, 0, u);
    SignedOfUnsignedInt(v);
  }

  /** Reading the eight bytes back as a two's-complement `long` gives the value appended. */
  lemma LongBytesRoundTrip(v: int)
    requires IsLong(v)
    ensures |LongBytes(v)| == 8
    ensures var u := FromBigEndian(LongBytes(v)); (if u > LONG_MAX then u - TWO_64 else u) == v
  {
    var u := Unsigned(v, TWO_64);
    LongBytesAreBigEndian(v);
    BigEndianRoundTrip(u, 8);
    Pow256Values();
    hide *;
    ModUnique(u, TWO_64, 0, u);
    SignedOfUnsignedLong(v);
  }

  // ---------------------------------------------------------------------
  // UTF-8 (`String.getBytes(UTF_8)`)

  /** The UTF-8 bytes of one Unicode scalar value. */
  function Utf8Char(c: char): (r: seq<byte>)
    ensures 1 <= |r| <= 4
  {
    var n := c as int;
    if n < 0x80 then [n as byte]
    else if n < 0x800 then [(0xC0 + n / 64) as byte, (0x80 + n % 64) as byte]
    else if n < 0x1_0000 then [(0xE0 + n / 4096) as byte, (0x80 + n / 64 % 64) as byte, (0x80 + n % 64) as byte]
    else [(0xF0 + n / 262144) as byte, (0x80 + n / 4096 % 64) as byte, (0x80 + n / 64 % 64) as byte, (0x80 + n % 64) as byte]
  }

  /** The UTF-8 encoding of a string. */
  function Utf8(s: string): (r: seq<byte>)
    ensures |s| <= |r| <= 4 * |s|
  {
    if s == [] then [] else Utf8Char(s[0]) + Utf8(s[1..])
  }

  /** How many bytes the sequence that starts with lead byte `b` has, 0 when `b` cannot start one. */
  function Utf8Length(b: byte): nat {
    if b < 0x80 then 1
    else if b < 0xC0 then 0
    else if b < 0xE0 then 2
    else if b < 0xF0 then 3
    else if b < 0xF8 then 4
    else 0
  }

  /** Decodes the code point of one well-formed sequence of `Utf8Length(bs[0])` bytes. */
  function Utf8DecodePoint(bs: seq<byte>): int
    requires |bs| >= 1 && Utf8Length(bs[0]) >= 1 && |bs| >= Utf8Length(bs[0])
  {
    var n := Utf8Length(bs[0]);
    if n == 1 then bs[0] as int
    else if n == 2 then (bs[0] as int - 0xC0) * 64 + (bs[1] as int - 0x80)
    else if n == 3 then (bs[0] as int - 0xE0) * 4096 + (bs[1] as int - 0x80) * 64 + (bs[2] as int - 0x80)
    else (bs[0] as int - 0xF0) * 262144 + (bs[1] as int - 0x80) * 4096 + (bs[2] as int - 0x80) * 64 + (bs[3] as int - 0x80)
  }

  /** Decodes UTF-8 bytes back into code points, `None` on a malformed lead byte or a cut-off sequence. */
  function Utf8Decode(bs: seq<byte>): (r: Option<seq<int>>)
    decreases |bs|
  {
    if bs == [] then Some([])
    else
      var n := Utf8Length(bs[0]);
      if n == 0 || |bs| < n then None
      else
        match Utf8Decode(bs[n..])
        case None => None
        case Some(rest) => Some([Utf8DecodePoint(bs[..n])] + rest)
  }

  lemma Utf8CharDecodes(c: char)
    ensures var bs := Utf8Char(c); Utf8Length(bs[0]) == |bs| && Utf8DecodePoint(bs) == c as int
  {
    var n := c as int;
    if n < 0x80 {
    } else if n < 0x800 {
      assert n == n / 64 * 64 + n % 64;
    } else if n < 0x1_0000 {
      assert n / 64 == n / 4096 * 64 + n / 64 % 64 by { DivDiv(n, 64, 64); }
      assert n == n / 64 * 64 + n % 64;
    } else {
      assert n / 64 == n / 4096 * 64 + n / 64 % 64 by { DivDiv(n, 64, 64); }
      assert n / 4096 == n / 262144 * 64 + n / 4096 % 64 by { DivDiv(n, 4096, 64); }
      assert n == n / 64 * 64 + n % 64;
    }
  }

  /** The code points of a string. */
  function CodePoints(s: string): seq<int> {
    if s == [] then [] else [s[0] as int] + CodePoints(s[1..])
  }

  /** Encoding a string as UTF-8 loses nothing: decoding gives back its code points. */
  lemma {:induction false} Utf8RoundTrip(s: string)
    ensures Utf8Decode(Utf8(s)) == Some(CodePoints(s))
  {
    if s != [] {
      var head := Utf8Char(s[0]);
      Utf8CharDecodes(s[0]);
      var bs := Utf8(s);
      assert bs == head + Utf8(s[1..]);
      assert bs[..|head|] == head;
      assert bs[|head|..] == Utf8(s[1..]);
      Utf8RoundTrip(s[1..]);
    }
  }

  lemma {:induction false} Utf8Append(s: string, t: string)
    ensures Utf8(s + t) == Utf8(s) + Utf8(t)
  {
    if s != [] {
      assert (s + t)[1..] == s[1..] + t;
      Utf8Append(s[1..], t);
    } else {
      assert s + t == t;
    }
  }

  // ---------------------------------------------------------------------
  // Characters and strings

  /** `Character.isWhitespace`: the separators except the no-break spaces, and the ASCII controls 9-13 and 28-31. */
  predicate IsWhitespace(c: char) {
    var n := c as int;
    (0x09 <= n <= 0x0D) || (0x1C <= n <= 0x20) || n == 0x1680
    || (0x2000 <= n <= 0x2006) || (0x2008 <= n <= 0x200A)
    || n == 0x2028 || n == 0x2029 || n == 0x205F || n == 0x3000
  }

  /** `String.trim`: drop every leading and trailing character up to U+0020. */
  function Trim(s: string): (r: string)
    ensures |r| <= |s|
    ensures r != [] ==> r[0] > ' ' && r[|r| - 1] > ' '
    ensures exists i, j ::
      0 <= i <= j <= |s| && r == s[i..j] && (forall k :: 0 <= k < i ==> s[k] <= ' ') && (forall k :: j <= k < |s| ==> s[k] <= ' ')
  {
    var st := TrimFrom(s, 0);
    var len := TrimTo(s, st, |s|);
    s[st..len]
  }

  /** The first index from `st` on whose character is above U+0020, or the length. */
  function TrimFrom(s: string, st: nat): (r: nat)
    requires st <= |s|
    ensures st <= r <= |s| && (r < |s| ==> s[r] > ' ')
    ensures forall k :: st <= k < r ==> s[k] <= ' '
    decreases |s| - st
  {
    if st < |s| && s[st] <= ' ' then TrimFrom(s, st + 1) else st
  }

  /** The end, between `st` and `len`, just past the last character above U+0020. */
  function TrimTo(s: string, st: nat, len: nat): (r: nat)
    requires st <= len <= |s|
    ensures st <= r <= len && (st < r ==> s[r - 1] > ' ')
    ensures forall k :: r <= k < len ==> s[k] <= ' '
  {
    if st < len && s[len - 1] <= ' ' then TrimTo(s, st, len - 1) else len
  }

  /** Splits `s` at every `sep`, keeping empty pieces: always at least one piece. */
  function SplitAll(s: string, sep: char): (r: seq<string>)
    ensures |r| >= 1
  {
    if s == [] then [""]
    else
      var rest := SplitAll(s[1..], sep);
      if s[0] == sep then [""] + rest
      else [[s[0]] + rest[0]] + rest[1..]
  }

  /** Joins pieces with `sep` between them. */
  function Join(pieces: seq<string>, sep: char): string {
    if pieces == [] then ""
    else if |pieces| == 1 then pieces[0]
    else pieces[0] + [sep] + Join(pieces[1..], sep)
  }

  lemma SplitAllUnrolled(s: string, sep: char)
    requires s != []
    ensures var rest := SplitAll(s[1..], sep);
      SplitAll(s, sep) == if s[0] == sep then [""] + rest else [[s[0]] + rest[0]] + rest[1..]
  {
  }

  lemma JoinUnrolled(pieces: seq<string>, sep: char)
    ensures |pieces| == 1 ==> Join(pieces, sep) == pieces[0]
    ensures |pieces| >= 2 ==> Join(pieces, sep) == pieces[0] + [sep] + Join(pieces[1..], sep)
  {
  }

  /** Joining the pieces of `SplitAll` gives back the string, and no piece contains the separator. */
  lemma SplitAllJoin(s: string, sep: char)
    ensures Join(SplitAll(s, sep), sep) == s
    ensures forall i :: 0 <= i < |SplitAll(s, sep)| ==> sep !in SplitAll(s, sep)[i]
  {
    SplitAllJoins(s, sep);
    SplitAllPieces(s, sep);
  }

  lemma {:induction false} SplitAllJoins(s: string, sep: char)
    ensures Join(SplitAll(s, sep), sep) == s
  {
    if s != [] {
      hide *;
      var rest := SplitAll(s[1..], sep);
      var r := SplitAll(s, sep);
      SplitAllJoins(s[1..], sep);
      SplitAllUnrolled(s, sep);
      JoinUnrolled(r, sep);
      JoinUnrolled(rest, sep);
      assert s == [s[0]] + s[1..];
      if s[0] == sep {
        assert r[0] == "" && r[1..] == rest;
      } else {
        assert r[0] == [s[0]] + rest[0] && r[1..] == rest[1..];
        if |rest| >= 2 {
          var t := Join(rest[1..], sep);
          assert ([s[0]] + rest[0]) + [sep] + t == [s[0]] + (rest[0] + [sep] + t);
        }
      }
    }
  }

  lemma {:induction false} SplitAllPieces(s: string, sep: char)
    ensures forall i :: 0 <= i < |SplitAll(s, sep)| ==> sep !in SplitAll(s, sep)[i]
  {
    if s != [] {
      hide *;
      var rest := SplitAll(s[1..], sep);
      var r := SplitAll(s, sep);
      SplitAllPieces(s[1..], sep);
      SplitAllUnrolled(s, sep);
      if s[0] == sep {
        assert forall i :: 1 <= i < |r| ==> r[i] == rest[i - 1];
      } else {
        assert r[0] == [s[0]] + rest[0];
        assert forall i :: 1 <= i < |r| ==> r[i] == rest[i];
      }
    }
  }

  /** Removes trailing empty strings. */
  function DropTrailingEmpty(pieces: seq<string>): (r: seq<string>)
    ensures |r| <= |pieces| && r == pieces[..|r|]
    ensures r != [] ==> r[|r| - 1] != ""
    ensures forall i :: |r| <= i < |pieces| ==> pieces[i] == ""
  {
    if pieces != [] && pieces[|pieces| - 1] == "" then DropTrailingEmpty(pieces[..|pieces| - 1]) else pieces
  }

  /** `s.split(" ")` with Java's rules: the whole string when there is no separator, otherwise the pieces without the trailing empty ones. */
  function SplitOnSpace(s: string): (r: seq<string>)
  {
    if ' ' !in s then [s] else DropTrailingEmpty(SplitAll(s, ' '))
  }

  /** The Java split is a prefix of the complete split, dropping only empty pieces, and its pieces hold no space. */
  lemma SplitOnSpaceProperties(s: string)
    ensures var r := SplitOnSpace(s);
      var all := SplitAll(s, ' ');
      |r| <= |all| && r == all[..|r|] && (forall i :: |r| <= i < |all| ==> all[i] == "")
      && (forall i :: 0 <= i < |r| ==> ' ' !in r[i])
  {
    SplitAllJoin(s, ' ');
    if ' ' !in s {
      assert SplitAll(s, ' ') == [s] by { SplitNoSep(s, ' '); }
    }
  }

  lemma {:induction false} SplitNoSep(s: string, sep: char)
    requires sep !in s
    ensures SplitAll(s, sep) == [s]
  {
    if s != [] {
      SplitNoSep(s[1..], sep);
      assert [s[0]] + s[1..] == s;
    }
  }

  lemma {:induction false} SplitAllSeparated(a: string, b: string, sep: char)
    requires sep !in a
    ensures SplitAll(a + [sep] + b, sep) == [a] + SplitAll(b, sep)
  {
    var s := a + [sep] + b;
    if a == [] {
      assert s[1..] == b;
    } else {
      assert s[1..] == a[1..] + [sep] + b;
      SplitAllSeparated(a[1..], b, sep);
      assert [s[0]] + a[1..] == a;
    }
  }

  /** Splitting words joined by the separator gives the words back. */
  lemma {:induction false} SplitAllJoinInverse(ws: seq<string>, sep: char)
    requires |ws| >= 1 && forall i :: 0 <= i < |ws| ==> sep !in ws[i]
    ensures SplitAll(Join(ws, sep), sep) == ws
  {
    if |ws| == 1 {
      SplitNoSep(ws[0], sep);
    } else {
      SplitAllSeparated(ws[0], Join(ws[1..], sep), sep);
      SplitAllJoinInverse(ws[1..], sep);
      assert [ws[0]] + ws[1..] == ws;
    }
  }

  /** `split(" ")` of two or more space-free words, the last non-empty, joined by single spaces gives the words. */
  lemma SplitOnSpaceJoin(ws: seq<string>)
    requires |ws| >= 2 && ws[|ws| - 1] != "" && forall i :: 0 <= i < |ws| ==> ' ' !in ws[i]
    ensures SplitOnSpace(Join(ws, ' ')) == ws
  {
    SplitAllJoinInverse(ws, ' ');
    assert Join(ws, ' ') == ws[0] + [' '] + Join(ws[1..], ' ');
    assert Join(ws, ' ')[|ws[0]|] == ' ';
  }

  /** `" ".split(" ")` has no pieces at all, while `"".split(" ")` has one empty piece. */
  lemma SplitOnSpaceEdgeCases()
    ensures SplitOnSpace(" ") == []
    ensures SplitOnSpace("") == [""]
  {
    SplitAllSeparated("", "", ' ');
    assert "" + [' '] + "" == " ";
    assert SplitAll(" ", ' ') == ["", ""];
    assert DropTrailingEmpty(["", ""]) == DropTrailingEmpty([""]);
  }

  // ---------------------------------------------------------------------
  // Decimal numbers

  function DigitChar(d: nat): (c: char)
    requires d < 10
    ensures '0' <= c <= '9'
  {
    ('0' as int + d) as char
  }

  predicate IsDigit(c: char) { '0' <= c <= '9' }

  /** The decimal digits of `n`, without leading zeros. */
  function NatToDigits(n: nat): (r: string)
    ensures r != [] && forall i :: 0 <= i < |r| ==> IsDigit(r[i])
  {
    if n < 10 then [DigitChar(n)] else NatToDigits(n / 10) + [DigitChar(n % 10)]
  }

  /** The value of a string of decimal digits. */
  function DigitsValue(s: string): nat
    requires forall i :: 0 <= i < |s| ==> IsDigit(s[i])
  {
    if s == [] then 0
    else
      assert IsDigit(s[|s| - 1]);
      DigitsValue(s[..|s| - 1]) * 10 + (s[|s| - 1] as int - '0' as int)
  }

  lemma {:induction false} DigitsRoundTrip(n: nat)
    ensures DigitsValue(NatToDigits(n)) == n
  {
    if n >= 10 {
      var s := NatToDigits(n);
      assert s[..|s| - 1] == NatToDigits(n / 10);
      DigitsRoundTrip(n / 10);
    }
  }

  /** `Integer.toString` / `Long.toString` / `String.valueOf` of an integer. */
  function IntToString(i: int): (r: string)
    ensures r != []
  {
    if i < 0 then "-" + NatToDigits(-i) else NatToDigits(i)
  }

  /** `Boolean.toString`. */
  function BoolToString(b: bool): string {
    if b then "true" else "false"
  }

  /** `Long.parseLong` on ASCII digits: an optional sign, at least one digit, and the value in range; otherwise `NumberFormatException`. */
  function ParseLong(s: string): (r: Result<int>)
    ensures r.Ok? ==> IsLong(r.value)
  {
    var negative := s != [] && s[0] == '-';
    var digits := if s != [] && (s[0] == '-' || s[0] == '+') then s[1..] else s;
    if digits == [] || !(forall i :: 0 <= i < |digits| ==> IsDigit(digits[i])) then Err(NumberFormat)
    else
      var d: int := DigitsValue(digits);
      var v := if negative then -d else d;
      if IsLong(v) then Ok(v) else Err(NumberFormat)
  }

  /** Parsing the decimal form of a `long` gives the `long` back. */
  lemma ParseLongRoundTrip(i: int)
    requires IsLong(i)
    ensures ParseLong(IntToString(i)) == Ok(i)
  {
    var n: nat := if i < 0 then -i else i;
    var digits := NatToDigits(n);
    DigitsRoundTrip(n);
    var s := IntToString(i);
    hide NatToDigits, DigitsValue;
    if i < 0 {
      assert s == "-" + digits && s[1..] == digits;
    } else {
      assert s == digits && IsDigit(s[0]);
    }
  }
}
