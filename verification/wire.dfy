/** The wire codec's primitives: fixed-width integers, opaque floats and
    length-prefixed strings, appended to or written into a growable byte
    buffer in network (big-endian) order, and read back at an advancing
    offset.

    A buffer is a `seq<byte>`. The source's `std::vector<uint8_t>&` parameter
    becomes an argument and a result; the source's `size_t& offset` becomes
    an argument and the `next` field of a `Read` result. */
module Wire {

  type byte = x: int | 0 <= x < 0x100
  type u8 = byte
  type u16 = x: int | 0 <= x < 0x1_0000
  type u32 = x: int | 0 <= x < 0x1_0000_0000
  type i8 = x: int | -0x80 <= x < 0x80
  type i16 = x: int | -0x8000 <= x < 0x8000
  type i32 = x: int | -0x8000_0000 <= x < 0x8000_0000

  /** A single-precision float as the 32-bit pattern that travels on the
      wire; the model never interprets it as a number. */
  type f32 = u32

  type Bytes = seq<byte>

  /** A value decoded from a buffer and the offset just past it. */
  datatype Read<T> = Read(value: T, next: nat)

  // ---------------------------------------------------------------------
  // Network-order layouts of the unsigned widths

  /** The two bytes of `v`, most significant first. */
  function EncU16(v: u16): (r: Bytes)
    ensures |r| == 2
  {
    [v / 0x100, v % 0x100]
  }

  /** The four bytes of `v`, most significant first. */
  function EncU32(v: u32): (r: Bytes)
    ensures |r| == 4
  {
    [v / 0x100_0000, v / 0x1_0000 % 0x100, v / 0x100 % 0x100, v % 0x100]
  }

  /** The number whose network-order layout is `b`. */
  function DecU16(b: Bytes): (v: u16)
    requires |b| == 2
    ensures EncU16(v) == b
  {
    b[0] as int * 0x100 + b[1]
  }

  function DecU32(b: Bytes): (v: u32)
    requires |b| == 4
    ensures EncU32(v) == b
  {
    var v := b[0] as int * 0x100_0000 + b[1] as int * 0x1_0000 + b[2] as int * 0x100 + b[3];
    assert v / 0x100 == b[0] as int * 0x1_0000 + b[1] as int * 0x100 + b[2];
    assert v / 0x1_0000 == b[0] as int * 0x100 + b[1];
    v
  }

  /** Decoding inverts encoding, so the layouts are injective. */
  lemma DecEncU16(v: u16)
    ensures DecU16(EncU16(v)) == v
  {
  }

  lemma DecEncU32(v: u32)
    ensures DecU32(EncU32(v)) == v
  {
    var b := EncU32(v);
    assert v / 0x1_0000 == b[0] as int * 0x100 + b[1];
    assert v / 0x100 == (b[0] as int * 0x100 + b[1]) * 0x100 + b[2];
  }

  // ---------------------------------------------------------------------
  // Two's-complement casts between the signed and unsigned widths

  /** `static_cast<uint8_t>` of a signed byte: reduction modulo 2^8. */
  function I8ToU8(x: i8): (r: u8)
    ensures r % 0x100 == x % 0x100
  {
    x % 0x100
  }

  /** `static_cast<int8_t>` of an unsigned byte: the upper half wraps to
      negative values. */
  function U8ToI8(x: u8): (r: i8)
    ensures r % 0x100 == x
    ensures I8ToU8(r) == x
  {
    if x < 0x80 then x else x - 0x100
  }

  function I16ToU16(x: i16): (r: u16)
    ensures r % 0x1_0000 == x % 0x1_0000
  {
    x % 0x1_0000
  }

  function U16ToI16(x: u16): (r: i16)
    ensures r % 0x1_0000 == x
    ensures I16ToU16(r) == x
  {
    if x < 0x8000 then x else x - 0x1_0000
  }

  function I32ToU32(x: i32): (r: u32)
    ensures r % 0x1_0000_0000 == x % 0x1_0000_0000
  {
    x % 0x1_0000_0000
  }

  function U32ToI32(x: u32): (r: i32)
    ensures r % 0x1_0000_0000 == x
    ensures I32ToU32(r) == x
  {
    if x < 0x8000_0000 then x else x - 0x1_0000_0000
  }

  /** Each signed width survives the round trip through its unsigned cast. */
  lemma SignedCastsRoundTrip(a: i8, b: i16, c: i32)
    ensures U8ToI8(I8ToU8(a)) == a
    ensures U16ToI16(I16ToU16(b)) == b
    ensures U32ToI32(I32ToU32(c)) == c
  {
  }

  // ---------------------------------------------------------------------
  // Buffer operations underlying every serializer

  /** `std::vector::resize` growing by `n`: new elements are value-initialised. */
  function Grow(buf: Bytes, n: nat): (r: Bytes)
    ensures |r| == |buf| + n
    ensures r[..|buf|] == buf
    ensures forall i | |buf| <= i < |r| :: r[i] == 0
  {
    buf + seq(n, _ => 0)
  }

  /** `memcpy` of `data` into `buf` at `offset`. */
  function Overwrite(buf: Bytes, offset: nat, data: Bytes): (r: Bytes)
    requires offset + |data| <= |buf|
    ensures |r| == |buf|
    ensures r[offset..offset + |data|] == data
    ensures forall i | 0 <= i < |buf| && !(offset <= i < offset + |data|) :: r[i] == buf[i]
  {
    buf[..offset] + data + buf[offset + |data|..]
  }

  // ---------------------------------------------------------------------
  // Writers at an explicit offset (the source asserts the bounds)

  function SerializeU8At(buf: Bytes, offset: nat, v: u8): (r: Bytes)
    requires offset < |buf|
    ensures |r| == |buf| && r[offset] == v
    ensures forall i | 0 <= i < |buf| && i != offset :: r[i] == buf[i]
  {
    buf[offset := v]
  }

  function SerializeU16At(buf: Bytes, offset: nat, v: u16): (r: Bytes)
    requires offset + 2 <= |buf|
    ensures |r| == |buf|
    ensures ReadU16(r, offset) == Read(v, offset + 2)
    ensures forall i | 0 <= i < |buf| && !(offset <= i < offset + 2) :: r[i] == buf[i]
  {
    var r := Overwrite(buf, offset, EncU16(v));
    DecEncU16(v);
    r
  }

  function SerializeU32At(buf: Bytes, offset: nat, v: u32): (r: Bytes)
    requires offset + 4 <= |buf|
    ensures |r| == |buf|
    ensures ReadU32(r, offset) == Read(v, offset + 4)
    ensures forall i | 0 <= i < |buf| && !(offset <= i < offset + 4) :: r[i] == buf[i]
  {
    var r := Overwrite(buf, offset, EncU32(v));
    DecEncU32(v);
    r
  }

  /** The float's bit pattern goes out like a `u32` (the server's `htonf`). */
  function SerializeF32At(buf: Bytes, offset: nat, v: f32): (r: Bytes)
    requires offset + 4 <= |buf|
    ensures |r| == |buf|
    ensures ReadF32(r, offset) == Read(v, offset + 4)
    ensures forall i | 0 <= i < |buf| && !(offset <= i < offset + 4) :: r[i] == buf[i]
  {
    SerializeU32At(buf, offset, v)
  }

  function SerializeI8At(buf: Bytes, offset: nat, v: i8): (r: Bytes)
    requires offset < |buf|
    ensures |r| == |buf|
    ensures ReadI8(r, offset) == Read(v, offset + 1)
    ensures forall i | 0 <= i < |buf| && i != offset :: r[i] == buf[i]
  {
    SerializeU8At(buf, offset, I8ToU8(v))
  }

  function SerializeI16At(buf: Bytes, offset: nat, v: i16): (r: Bytes)
    requires offset + 2 <= |buf|
    ensures |r| == |buf|
    ensures ReadI16(r, offset) == Read(v, offset + 2)
    ensures forall i | 0 <= i < |buf| && !(offset <= i < offset + 2) :: r[i] == buf[i]
  {
    SerializeU16At(buf, offset, I16ToU16(v))
  }

  function SerializeI32At(buf: Bytes, offset: nat, v: i32): (r: Bytes)
    requires offset + 4 <= |buf|
    ensures |r| == |buf|
    ensures ReadI32(r, offset) == Read(v, offset + 4)
    ensures forall i | 0 <= i < |buf| && !(offset <= i < offset + 4) :: r[i] == buf[i]
  {
    SerializeU32At(buf, offset, I32ToU32(v))
  }

  /** The length `static_cast<uint32_t>(value.size())` (reduced modulo 2^32)
      and then the raw bytes; the bytes are copied only when non-empty. */
  function SerializeStrAt(buf: Bytes, offset: nat, s: Bytes): (r: Bytes)
    requires offset + 4 + |s| <= |buf|
    ensures |r| == |buf|
    ensures r[offset..offset + 4] == EncU32(|s| % 0x1_0000_0000)
    ensures r[offset + 4..offset + 4 + |s|] == s
    ensures forall i | 0 <= i < |buf| && !(offset <= i < offset + 4 + |s|) :: r[i] == buf[i]
  {
    var b := SerializeU32At(buf, offset, |s| % 0x1_0000_0000);
    if |s| == 0 then b else Overwrite(b, offset + 4, s)
  }

  // ---------------------------------------------------------------------
  // Appending writers: grow the buffer, then write at the old end

  function SerializeU8(buf: Bytes, v: u8): (r: Bytes)
    ensures r == buf + [v]
  {
    SerializeU8At(Grow(buf, 1), |buf|, v)
  }

  function SerializeU16(buf: Bytes, v: u16): (r: Bytes)
    ensures r == buf + EncU16(v)
  {
    SerializeU16At(Grow(buf, 2), |buf|, v)
  }

  function SerializeU32(buf: Bytes, v: u32): (r: Bytes)
    ensures r == buf + EncU32(v)
  {
    SerializeU32At(Grow(buf, 4), |buf|, v)
  }

  function SerializeF32(buf: Bytes, v: f32): (r: Bytes)
    ensures r == buf + EncU32(v)
  {
    SerializeF32At(Grow(buf, 4), |buf|, v)
  }

  function SerializeI8(buf: Bytes, v: i8): (r: Bytes)
    ensures |r| == |buf| + 1 && r[..|buf|] == buf
    ensures ReadI8(r, |buf|) == Read(v, |buf| + 1)
  {
    SerializeU8(buf, I8ToU8(v))
  }

  function SerializeI16(buf: Bytes, v: i16): (r: Bytes)
    ensures |r| == |buf| + 2 && r[..|buf|] == buf
    ensures ReadI16(r, |buf|) == Read(v, |buf| + 2)
  {
    SerializeU16(buf, I16ToU16(v))
  }

  function SerializeI32(buf: Bytes, v: i32): (r: Bytes)
    ensures |r| == |buf| + 4 && r[..|buf|] == buf
    ensures ReadI32(r, |buf|) == Read(v, |buf| + 4)
  {
    SerializeU32(buf, I32ToU32(v))
  }

  function SerializeStr(buf: Bytes, s: Bytes): (r: Bytes)
    ensures r == buf + EncU32(|s| % 0x1_0000_0000) + s
  {
    var r := SerializeStrAt(Grow(buf, 4 + |s|), |buf|, s);
    assert r[..|buf|] == buf;
    assert r[|buf| + 4 + |s|..] == [];
    assert r == r[..|buf|] + r[|buf|..|buf| + 4] + r[|buf| + 4..|buf| + 4 + |s|] + r[|buf| + 4 + |s|..];
    r
  }

  // ---------------------------------------------------------------------
  // Readers (the source does no bounds checks, so reading past the end is
  // excluded by the preconditions)

  function ReadU8(buf: Bytes, offset: nat): (r: Read<u8>)
    requires offset < |buf|
    ensures r.next == offset + 1
  {
    Read(buf[offset], offset + 1)
  }

  function ReadU16(buf: Bytes, offset: nat): (r: Read<u16>)
    requires offset + 2 <= |buf|
    ensures r.next == offset + 2
  {
    Read(buf[offset] as int * 0x100 + buf[offset + 1], offset + 2)
  }

  function ReadU32(buf: Bytes, offset: nat): (r: Read<u32>)
    requires offset + 4 <= |buf|
    ensures r.next == offset + 4
  {
    Read(buf[offset] as int * 0x100_0000 + buf[offset + 1] as int * 0x1_0000
         + buf[offset + 2] as int * 0x100 + buf[offset + 3], offset + 4)
  }

  /** The readers combine the bytes exactly as `DecU16` and `DecU32` do:
      `memcpy` of the window followed by `ntohs`/`ntohl`. */
  lemma ReadU16Decodes(buf: Bytes, offset: nat)
    requires offset + 2 <= |buf|
    ensures ReadU16(buf, offset).value == DecU16(buf[offset..offset + 2])
  {
  }

  lemma ReadU32Decodes(buf: Bytes, offset: nat)
    requires offset + 4 <= |buf|
    ensures ReadU32(buf, offset).value == DecU32(buf[offset..offset + 4])
  {
  }

  function ReadF32(buf: Bytes, offset: nat): (r: Read<f32>)
    requires offset + 4 <= |buf|
    ensures r == ReadU32(buf, offset)
  {
    ReadU32(buf, offset)
  }

  function ReadI8(buf: Bytes, offset: nat): (r: Read<i8>)
    requires offset < |buf|
    ensures r.next == offset + 1 && I8ToU8(r.value) == ReadU8(buf, offset).value
  {
    var u := ReadU8(buf, offset);
    Read(U8ToI8(u.value), u.next)
  }

  function ReadI16(buf: Bytes, offset: nat): (r: Read<i16>)
    requires offset + 2 <= |buf|
    ensures r.next == offset + 2 && I16ToU16(r.value) == ReadU16(buf, offset).value
  {
    var u := ReadU16(buf, offset);
    Read(U16ToI16(u.value), u.next)
  }

  function ReadI32(buf: Bytes, offset: nat): (r: Read<i32>)
    requires offset + 4 <= |buf|
    ensures r.next == offset + 4 && I32ToU32(r.value) == ReadU32(buf, offset).value
  {
    var u := ReadU32(buf, offset);
    Read(U32ToI32(u.value), u.next)
  }

  /** A string's length prefix and its bytes both lie inside the buffer. */
  predicate StrFits(buf: Bytes, offset: nat)
  {
    offset + 4 <= |buf| && offset + 4 + ReadU32(buf, offset).value <= |buf|
  }

  function ReadStr(buf: Bytes, offset: nat): (r: Read<Bytes>)
    requires StrFits(buf, offset)
    ensures |r.value| == ReadU32(buf, offset).value
    ensures r.next == offset + 4 + |r.value|
    ensures r.value == buf[offset + 4..r.next]
  {
    var len := ReadU32(buf, offset);
    Read(buf[len.next..len.next + len.value], len.next + len.value)
  }

  // ---------------------------------------------------------------------
  // Locating an encoded field inside a buffer

  /** `buf` holds the bytes `e` starting at `offset`. */
  predicate At(buf: Bytes, offset: nat, e: Bytes)
  {
    offset + |e| <= |buf| && forall i | 0 <= i < |e| :: buf[offset + i] == e[i]
  }

  /** What was appended after `pre` sits at offset `|pre|`. */
  lemma AtAppended(pre: Bytes, x: Bytes, post: Bytes)
    ensures At(pre + x + post, |pre|, x)
  {
    var buf := pre + x + post;
    forall i | 0 <= i < |x| ensures buf[|pre| + i] == x[i] {
    }
  }

  /** A field made of two consecutive parts holds each part. */
  lemma AtSplit(buf: Bytes, offset: nat, a: Bytes, b: Bytes)
    requires At(buf, offset, a + b)
    ensures At(buf, offset, a) && At(buf, offset + |a|, b)
  {
    forall i | 0 <= i < |a| ensures buf[offset + i] == a[i] {
      assert (a + b)[i] == a[i];
    }
    forall i | 0 <= i < |b| ensures buf[offset + |a| + i] == b[i] {
      assert (a + b)[|a| + i] == b[i];
    }
  }

  /** The bytes of a field, as a slice of the buffer. */
  lemma AtSlice(buf: Bytes, offset: nat, e: Bytes)
    requires At(buf, offset, e)
    ensures buf[offset..offset + |e|] == e
  {
  }

  // ---------------------------------------------------------------------
  // Readers applied to bytes known to hold a given layout

  lemma ReadU8Exact(buf: Bytes, offset: nat, v: u8)
    requires At(buf, offset, [v])
    ensures ReadU8(buf, offset) == Read(v, offset + 1)
  {
    assert buf[offset + 0] == [v][0];
  }

  lemma ReadU16Exact(buf: Bytes, offset: nat, v: u16)
    requires At(buf, offset, EncU16(v))
    ensures ReadU16(buf, offset) == Read(v, offset + 2)
  {
    var e := EncU16(v);
    assert buf[offset + 0] == e[0] && buf[offset + 1] == e[1];
    DecEncU16(v);
  }

  lemma ReadU32Exact(buf: Bytes, offset: nat, v: u32)
    requires At(buf, offset, EncU32(v))
    ensures ReadU32(buf, offset) == Read(v, offset + 4)
  {
    var e := EncU32(v);
    assert buf[offset + 0] == e[0] && buf[offset + 1] == e[1];
    assert buf[offset + 2] == e[2] && buf[offset + 3] == e[3];
    DecEncU32(v);
  }

  lemma ReadStrExact(buf: Bytes, offset: nat, s: Bytes)
    requires |s| < 0x1_0000_0000
    requires At(buf, offset, EncU32(|s|) + s)
    ensures StrFits(buf, offset)
    ensures ReadStr(buf, offset) == Read(s, offset + 4 + |s|)
  {
    AtSplit(buf, offset, EncU32(|s|), s);
    ReadU32Exact(buf, offset, |s|);
    AtSlice(buf, offset + 4, s);
  }

  // ---------------------------------------------------------------------
  // Round trips: what a writer appended, the matching reader returns,
  // whatever precedes or follows it

  lemma U8RoundTrip(pre: Bytes, v: u8, post: Bytes)
    ensures ReadU8(SerializeU8(pre, v) + post, |pre|) == Read(v, |pre| + 1)
  {
    AtAppended(pre, [v], post);
    ReadU8Exact(pre + [v] + post, |pre|, v);
  }

  lemma U16RoundTrip(pre: Bytes, v: u16, post: Bytes)
    ensures ReadU16(SerializeU16(pre, v) + post, |pre|) == Read(v, |pre| + 2)
  {
    AtAppended(pre, EncU16(v), post);
    ReadU16Exact(pre + EncU16(v) + post, |pre|, v);
  }

  lemma U32RoundTrip(pre: Bytes, v: u32, post: Bytes)
    ensures ReadU32(SerializeU32(pre, v) + post, |pre|) == Read(v, |pre| + 4)
  {
    AtAppended(pre, EncU32(v), post);
    ReadU32Exact(pre + EncU32(v) + post, |pre|, v);
  }

  lemma F32RoundTrip(pre: Bytes, v: f32, post: Bytes)
    ensures ReadF32(SerializeF32(pre, v) + post, |pre|) == Read(v, |pre| + 4)
  {
    U32RoundTrip(pre, v, post);
  }

  lemma SignedRoundTrip(pre: Bytes, a: i8, b: i16, c: i32, post: Bytes)
    ensures ReadI8(SerializeI8(pre, a) + post, |pre|) == Read(a, |pre| + 1)
    ensures ReadI16(SerializeI16(pre, b) + post, |pre|) == Read(b, |pre| + 2)
    ensures ReadI32(SerializeI32(pre, c) + post, |pre|) == Read(c, |pre| + 4)
  {
    U8RoundTrip(pre, I8ToU8(a), post);
    U16RoundTrip(pre, I16ToU16(b), post);
    U32RoundTrip(pre, I32ToU32(c), post);
  }

  /** A string shorter than 2^32 bytes comes back whole; its length prefix
      and bytes occupy exactly `4 + |s|` bytes. */
  lemma StrRoundTrip(pre: Bytes, s: Bytes, post: Bytes)
    requires |s| < 0x1_0000_0000
    ensures StrFits(SerializeStr(pre, s) + post, |pre|)
    ensures ReadStr(SerializeStr(pre, s) + post, |pre|) == Read(s, |pre| + 4 + |s|)
  {
    var e := EncU32(|s|) + s;
    assert |s| % 0x1_0000_0000 == |s|;
    assert SerializeStr(pre, s) == pre + e by {
      AppendAssoc(pre, EncU32(|s|), s);
    }
    var buf := pre + e + post;
    AtAppended(pre, e, post);
    ReadStrExact(buf, |pre|, s);
  }

  /** Concatenation regrouped, for proofs that build a buffer field by
      field. */
  lemma AppendAssoc<T>(a: seq<T>, b: seq<T>, c: seq<T>)
    ensures a + (b + c) == a + b + c
  {
  }
}
