/** UTF-8 as the browser's TextEncoder and TextDecoder use it.

    Encoding follows section 3 of RFC 3629: one to four bytes per Unicode scalar value.
    Decoding follows the UTF-8 decoder of the WHATWG Encoding Standard, which is what
    `new TextDecoder().decode(bytes)` runs with its default options: a leading byte
    order mark EF BB BF is dropped, and every maximal ill-formed subsequence becomes
    one U+FFFD instead of an error. A Dafny `char` is a Unicode scalar value, so a
    `string` here is always a well-formed text. */
module Utf8 {
  import opened Bytes

  const REPLACEMENT: char := '\U{FFFD}'
  const BYTE_ORDER_MARK: char := '\U{FEFF}'

  /** Section 3 of RFC 3629: the bytes of one scalar value. */
  function EncodeScalar(c: char): (bs: seq<byte>)
    ensures 1 <= |bs| <= 4
    ensures (|bs| == 1) == (c as int < 0x80)
    ensures bs[0] !in {0xC0, 0xC1} && bs[0] < 0xF5
  {
    var n := c as int;
    if n < 0x80 then [n]
    else if n < 0x800 then [0xC0 + n / 64, 0x80 + n % 64]
    else if n < 0x10000 then [0xE0 + n / 4096, 0x80 + (n / 64) % 64, 0x80 + n % 64]
    else [0xF0 + n / 262144, 0x80 + (n / 4096) % 64, 0x80 + (n / 64) % 64, 0x80 + n % 64]
  }

  /** TextEncoder.encode: the concatenated encodings of the scalar values. */
  function Encode(s: string): (bs: seq<byte>)
    ensures |s| <= |bs| <= 4 * |s|
  {
    if s == [] then [] else EncodeScalar(s[0]) + Encode(s[1..])
  }

  /** The number of continuation bytes a leading byte announces; 0 for a byte that
      cannot start a multi-byte sequence. */
  function Needed(lead: byte): nat
  {
    if 0xC2 <= lead <= 0xDF then 1
    else if 0xE0 <= lead <= 0xEF then 2
    else if 0xF0 <= lead <= 0xF4 then 3
    else 0
  }

  /** Whether the byte at position k (1 to Needed) after the leading byte is one the
      decoder accepts there. The first continuation byte has a narrower range after
      E0, ED, F0 and F4: that rules out overlong forms, surrogates and values above
      U+10FFFF. */
  predicate AcceptsAt(bs: seq<byte>, k: nat)
    requires 1 <= k < |bs|
  {
    if k == 1 then
      (if bs[0] == 0xE0 then 0xA0 else if bs[0] == 0xF0 then 0x90 else 0x80) <= bs[1]
      <= (if bs[0] == 0xED then 0x9F else if bs[0] == 0xF4 then 0x8F else 0xBF)
    else 0x80 <= bs[k] <= 0xBF
  }

  /** How many of the announced continuation bytes, from position k on, the decoder
      accepts before it meets a rejected byte or the end of the input. */
  function Accepted(bs: seq<byte>, k: nat): (r: nat)
    requires 1 <= k && 1 <= |bs|
    ensures k - 1 <= r <= Needed(bs[0]) || (r == k - 1 && k - 1 > Needed(bs[0]))
    ensures r < |bs| || r == k - 1
    ensures forall j :: k <= j <= r ==> j < |bs| && AcceptsAt(bs, j)
    ensures r < Needed(bs[0]) && r + 1 < |bs| && k <= r + 1 ==> !AcceptsAt(bs, r + 1)
    decreases Needed(bs[0]) + 1 - k
  {
    if k > Needed(bs[0]) || k >= |bs| || !AcceptsAt(bs, k) then k - 1
    else Accepted(bs, k + 1)
  }

  /** The scalar value a well-formed sequence of 2, 3 or 4 bytes stands for. */
  function MultiByteValue(bs: seq<byte>, need: nat): (n: int)
    requires 1 <= need <= 3 && need < |bs| && Needed(bs[0]) == need
    requires forall j :: 1 <= j <= need ==> AcceptsAt(bs, j)
    ensures 0x80 <= n < 0xD800 || 0xE000 <= n < 0x110000
  {
    assert AcceptsAt(bs, 1);
    if need == 1 then
      (bs[0] as int - 0xC0) * 64 + (bs[1] as int - 0x80)
    else if need == 2 then
      assert AcceptsAt(bs, 2);
      (bs[0] as int - 0xE0) * 4096 + (bs[1] as int - 0x80) * 64 + (bs[2] as int - 0x80)
    else
      assert AcceptsAt(bs, 2) && AcceptsAt(bs, 3);
      (bs[0] as int - 0xF0) * 262144 + (bs[1] as int - 0x80) * 4096
        + (bs[2] as int - 0x80) * 64 + (bs[3] as int - 0x80)
  }

  /** The UTF-8 decoder of the WHATWG Encoding Standard, without the byte order mark
      step. An ASCII byte is itself; a well-formed multi-byte sequence is its scalar
      value; otherwise one U+FFFD replaces the leading byte and the continuation bytes
      accepted after it, and decoding resumes at the first byte not accepted. */
  function DecodeRaw(bs: seq<byte>): (s: string)
    ensures |s| <= |bs|
    decreases |bs|
  {
    if bs == [] then []
    else if bs[0] < 0x80 then [bs[0] as char] + DecodeRaw(bs[1..])
    else
      var need := Needed(bs[0]);
      var m := if need == 0 then 0 else Accepted(bs, 1);
      if need > 0 && m == need then [MultiByteValue(bs, need) as char] + DecodeRaw(bs[1 + need..])
      else [REPLACEMENT] + DecodeRaw(bs[1 + m..])
  }

  /** The encoding of the byte order mark. */
  const BOM_BYTES: seq<byte> := [0xEF, 0xBB, 0xBF]

  /** TextDecoder.decode with the default options: a leading byte order mark is
      consumed, then the bytes are decoded. */
  function Decode(bs: seq<byte>): (s: string)
    ensures |s| <= |bs|
  {
    if |bs| >= 3 && bs[..3] == BOM_BYTES then DecodeRaw(bs[3..]) else DecodeRaw(bs)
  }

  /** Decoding the encoding of one scalar value gives that value back and leaves
      whatever follows to be decoded on its own. */
  lemma DecodeScalar(c: char, rest: seq<byte>)
    ensures DecodeRaw(EncodeScalar(c) + rest) == [c] + DecodeRaw(rest)
  {
    var n := c as int;
    if n < 0x80 {
      assert (EncodeScalar(c) + rest)[1..] == rest;
    } else if n < 0x800 {
      DecodeTwo(c, rest);
    } else if n < 0x10000 {
      DecodeThree(c, rest);
    } else {
      DecodeFour(c, rest);
    }
  }

  lemma DecodeTwo(c: char, rest: seq<byte>)
    requires 0x80 <= c as int < 0x800
    ensures DecodeRaw(EncodeScalar(c) + rest) == [c] + DecodeRaw(rest)
  {
    var n := c as int;
    var b0, b1 := n / 64, n % 64;
    assert n == b0 * 64 + b1;
    var bs := EncodeScalar(c) + rest;
    assert bs[0] == 0xC0 + b0 && bs[1] == 0x80 + b1;
    assert Needed(bs[0]) == 1;
    assert AcceptsAt(bs, 1);
    assert Accepted(bs, 2) == 1;
    assert Accepted(bs, 1) == 1;
    assert MultiByteValue(bs, 1) == n;
    assert bs[2..] == rest;
  }

  lemma DecodeThree(c: char, rest: seq<byte>)
    requires 0x800 <= c as int < 0x10000
    ensures DecodeRaw(EncodeScalar(c) + rest) == [c] + DecodeRaw(rest)
  {
    var n := c as int;
    var b0, b1, b2 := n / 4096, (n / 64) % 64, n % 64;
    assert n == b0 * 4096 + b1 * 64 + b2 by {
      assert n == (n / 64) * 64 + b2;
      assert n / 64 == b0 * 64 + b1;
    }
    var bs := EncodeScalar(c) + rest;
    assert bs[0] == 0xE0 + b0 && bs[1] == 0x80 + b1 && bs[2] == 0x80 + b2;
    assert Needed(bs[0]) == 2;
    assert AcceptsAt(bs, 1);
    assert AcceptsAt(bs, 2);
    assert Accepted(bs, 3) == 2;
    assert Accepted(bs, 2) == 2;
    assert Accepted(bs, 1) == 2;
    assert MultiByteValue(bs, 2) == n;
    assert bs[3..] == rest;
  }

  lemma DecodeFour(c: char, rest: seq<byte>)
    requires 0x10000 <= c as int
    ensures DecodeRaw(EncodeScalar(c) + rest) == [c] + DecodeRaw(rest)
  {
    var n := c as int;
    var b0, b1, b2, b3 := n / 262144, (n / 4096) % 64, (n / 64) % 64, n % 64;
    assert n == b0 * 262144 + b1 * 4096 + b2 * 64 + b3 by {
      assert n == (n / 64) * 64 + b3;
      assert n / 64 == (n / 4096) * 64 + b2;
      assert n / 4096 == b0 * 64 + b1;
    }
    var bs := EncodeScalar(c) + rest;
    assert bs[0] == 0xF0 + b0 && bs[1] == 0x80 + b1 && bs[2] == 0x80 + b2 && bs[3] == 0x80 + b3;
    assert Needed(bs[0]) == 3;
    assert AcceptsAt(bs, 1);
    assert AcceptsAt(bs, 2);
    assert AcceptsAt(bs, 3);
    assert Accepted(bs, 4) == 3;
    assert Accepted(bs, 3) == 3;
    assert Accepted(bs, 2) == 3;
    assert Accepted(bs, 1) == 3;
    assert MultiByteValue(bs, 3) == n;
    assert bs[4..] == rest;
  }

  /** Without the byte order mark step, decoding undoes encoding on every text. */
  lemma {:induction false} DecodeRawEncode(s: string)
    ensures DecodeRaw(Encode(s)) == s
  {
    if s != [] {
      DecodeScalar(s[0], Encode(s[1..]));
      DecodeRawEncode(s[1..]);
    }
  }

  /** The only scalar value whose encoding is EF BB BF is U+FEFF. */
  lemma BomBytesOnlyFromBom(c: char)
    ensures (EncodeScalar(c) == BOM_BYTES) == (c == BYTE_ORDER_MARK)
  {
    if EncodeScalar(c) == BOM_BYTES {
      DecodeScalar(c, []);
      DecodeScalar(BYTE_ORDER_MARK, []);
    }
  }

  /** An encoded text starts with the byte order mark bytes exactly when the text
      starts with U+FEFF. */
  lemma EncodeStartsWithBom(s: string)
    ensures (|Encode(s)| >= 3 && Encode(s)[..3] == BOM_BYTES) == (s != [] && s[0] == BYTE_ORDER_MARK)
  {
    if s != [] {
      var e := EncodeScalar(s[0]);
      var bs := Encode(s);
      assert bs == e + Encode(s[1..]);
      BomBytesOnlyFromBom(s[0]);
      if |bs| >= 3 && bs[..3] == BOM_BYTES {
        assert bs[0] == 0xEF;
        assert |e| == 3;
        assert e == bs[..3];
      }
      if s[0] == BYTE_ORDER_MARK {
        assert bs[..3] == e;
      }
    }
  }

  /** What TextDecoder gives back for what TextEncoder produced: the text itself,
      except that a leading U+FEFF is taken for a byte order mark and dropped. */
  lemma DecodeEncode(s: string)
    ensures Decode(Encode(s)) == if s != [] && s[0] == BYTE_ORDER_MARK then s[1..] else s
  {
    EncodeStartsWithBom(s);
    if s != [] && s[0] == BYTE_ORDER_MARK {
      assert Encode(s)[3..] == Encode(s[1..]);
      DecodeRawEncode(s[1..]);
    } else {
      DecodeRawEncode(s);
    }
  }

  /** A text that does not start with U+FEFF survives TextEncoder then TextDecoder. */
  lemma RoundTrip(s: string)
    requires s == [] || s[0] != BYTE_ORDER_MARK
    ensures Decode(Encode(s)) == s
  {
    DecodeEncode(s);
  }

  /** TextEncoder is injective: different texts have different encodings. */
  lemma EncodeInjective(s: string, t: string)
    requires Encode(s) == Encode(t)
    ensures s == t
  {
    DecodeRawEncode(s);
    DecodeRawEncode(t);
  }
}
