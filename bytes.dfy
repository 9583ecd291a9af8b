/** Bytes and the 32-bit little-endian words of the frame header, as a JavaScript
    DataView writes them with setInt32(offset, value, true) and reads them back with
    getInt32(offset, true). */
module Bytes {

  /** One octet of an ArrayBuffer. */
  type byte = x: int | 0 <= x < 256

  const TWO_32: int := 0x1_0000_0000
  const TWO_31: int := 0x8000_0000

  /** The integers a signed 32-bit word can hold. */
  predicate IsInt32(v: int) {
    -TWO_31 <= v < TWO_31
  }

  /** ECMAScript ToUint32 restricted to integral numbers: the value modulo 2^32. */
  function ToUint32(v: int): (u: int)
    ensures 0 <= u < TWO_32
    ensures (u - v) % TWO_32 == 0
    ensures 0 <= v < TWO_32 ==> u == v
  {
    v % TWO_32
  }

  /** ECMAScript ToInt32 restricted to integral numbers: the value wrapped into
      [-2^31, 2^31). */
  function ToInt32(v: int): (w: int)
    ensures IsInt32(w)
    ensures (w - v) % TWO_32 == 0
    ensures IsInt32(v) ==> w == v
  {
    var u := ToUint32(v);
    if u >= TWO_31 then u - TWO_32 else u
  }

  /** The four bytes, least significant first, of an unsigned 32-bit value. */
  function LittleEndian32(u: int): (bs: seq<byte>)
    requires 0 <= u < TWO_32
    ensures |bs| == 4
  {
    [u % 256, (u / 256) % 256, (u / 65536) % 256, u / 16777216]
  }

  /** The unsigned value of four bytes read least significant first. */
  function ReadUint32(bs: seq<byte>, off: nat): (u: int)
    requires off + 4 <= |bs|
    ensures 0 <= u < TWO_32
  {
    bs[off] as int + 256 * (bs[off + 1] as int) + 65536 * (bs[off + 2] as int)
      + 16777216 * (bs[off + 3] as int)
  }

  /** DataView.getInt32(off, true): the four bytes at off as a two's-complement word. */
  function ReadInt32(bs: seq<byte>, off: nat): (w: int)
    requires off + 4 <= |bs|
    ensures IsInt32(w)
  {
    ToInt32(ReadUint32(bs, off))
  }

  /** Reading back the bytes of a word gives the word. */
  lemma ReadWritten(u: int)
    requires 0 <= u < TWO_32
    ensures ReadUint32(LittleEndian32(u), 0) == u
  {
    var bs := LittleEndian32(u);
    assert u == u % 256 + 256 * (u / 256);
    assert u / 256 == (u / 256) % 256 + 256 * (u / 65536);
    assert u / 65536 == (u / 65536) % 256 + 256 * (u / 16777216);
  }

  /** Writing the value with setInt32 and reading it with getInt32 gives the
      value wrapped to 32 bits: exactly the value when it is an int32. */
  lemma Int32RoundTrip(v: int)
    ensures ReadInt32(LittleEndian32(ToUint32(v)), 0) == ToInt32(v)
    ensures IsInt32(v) ==> ReadInt32(LittleEndian32(ToUint32(v)), 0) == v
  {
    ReadWritten(ToUint32(v));
  }

  /** Distinct unsigned words have distinct byte encodings. */
  lemma LittleEndianInjective(u: int, v: int)
    requires 0 <= u < TWO_32 && 0 <= v < TWO_32
    requires LittleEndian32(u) == LittleEndian32(v)
    ensures u == v
  {
    ReadWritten(u);
    ReadWritten(v);
  }
}
