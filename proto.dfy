/** The client's binary frame codec (robot/client/js/proto.js).

    Every message has one layout: bytes 0 to 3 hold a type or status code as a
    little-endian signed 32-bit word, bytes 4 to 7 the payload length the same way,
    and the payload from byte 8 on is the UTF-8 encoding of a text. The encoders
    allocate a zero-filled buffer and fill it in place; the decoders only read. */
module Proto {
  import opened Bytes
  import Utf8

  /** Why a decoder throws a RangeError. */
  datatype RangeError =
    | HeaderPastEnd    // getInt32 at offset 0 or 4 reads past the end: fewer than 8 bytes
    | NegativeLength   // new Uint8Array(buffer, 8, length) with a negative length
    | PayloadPastEnd   // the declared payload runs past the end of the buffer

  datatype Result<T> = Ok(value: T) | Err(error: RangeError)

  /** The two header words and the declared payload slice of a buffer. */
  datatype Frame = Frame(code: int, payload: seq<byte>)

  /** What decodeMessage and decodeRobotPos return: {type, message}. */
  datatype Message = Message(msgType: int, message: string)

  /** What decodeSprotoAuthResponse returns: {code, message}. */
  datatype AuthResponse = AuthResponse(code: int, message: string)

  /** The type under which encodeNormalPos always sends. */
  const NORMAL_POS_TYPE: int := 1

  /** The bytes every encoder produces for its code and payload: the code and the
      payload length as setInt32 writes them, then the payload. */
  function FrameBytes(code: int, payload: seq<byte>): seq<byte>
  {
    LittleEndian32(ToUint32(code)) + LittleEndian32(ToUint32(|payload|)) + payload
  }

  // ---------------------------------------------------------------------------
  // Encoders: allocate, then write in place.

  /** DataView.setInt32(off, v, true) on the buffer. */
  method SetInt32(buf: array<byte>, off: nat, v: int)
    requires off + 4 <= buf.Length
    modifies buf
    ensures buf[..] == old(buf[..off]) + LittleEndian32(ToUint32(v)) + old(buf[off + 4..])
  {
    var u := ToUint32(v);
    buf[off] := u % 256;
    buf[off + 1] := (u / 256) % 256;
    buf[off + 2] := (u / 65536) % 256;
    buf[off + 3] := u / 16777216;
  }

  /** new Uint8Array(buffer, off).set(src): copy src into the buffer from off on. */
  method SetBytes(buf: array<byte>, off: nat, src: seq<byte>)
    requires off + |src| <= buf.Length
    modifies buf
    ensures buf[..] == old(buf[..off]) + src + old(buf[off + |src|..])
  {
    var i := 0;
    while i < |src|
      invariant 0 <= i <= |src|
      invariant buf[..off] == old(buf[..off])
      invariant buf[off..off + i] == src[..i]
      invariant buf[off + |src|..] == old(buf[off + |src|..])
      invariant forall k :: off + i <= k < off + |src| ==> buf[k] == old(buf[k])
    {
      buf[off + i] := src[i];
      i := i + 1;
      assert buf[off..off + i] == buf[off..off + i - 1] + [src[i - 1]];
    }
    assert buf[..] == buf[..off] + buf[off..off + |src|] + buf[off + |src|..];
  }

  /** The shared body of the three encoders: an ArrayBuffer of 8 + |payload| zero
      bytes, setInt32 at offsets 0 and 4, the payload copied in at offset 8. */
  method WriteFrame(code: int, payload: seq<byte>) returns (buf: array<byte>)
    ensures fresh(buf)
    ensures buf[..] == FrameBytes(code, payload)
  {
    buf := new byte[8 + |payload|](_ => 0);
    SetInt32(buf, 0, code);
    SetInt32(buf, 4, |payload|);
    SetBytes(buf, 8, payload);
    assert buf[..8] == LittleEndian32(ToUint32(code)) + LittleEndian32(ToUint32(|payload|));
  }

  /** The text encodeSprotoAuth sends: user name and password joined by '|'. */
  function AuthText(username: string, password: string): string {
    username + "|" + password
  }

  /** encodeSprotoAuth(type, username, password). */
  method EncodeSprotoAuth(authType: int, username: string, password: string) returns (buf: array<byte>)
    ensures fresh(buf)
    ensures buf[..] == FrameBytes(authType, Utf8.Encode(AuthText(username, password)))
  {
    var messageBytes := Utf8.Encode(AuthText(username, password));
    buf := WriteFrame(authType, messageBytes);
  }

  /** encodeMessage(type, message). */
  method EncodeMessage(msgType: int, message: string) returns (buf: array<byte>)
    ensures fresh(buf)
    ensures buf[..] == FrameBytes(msgType, Utf8.Encode(message))
  {
    var messageBytes := Utf8.Encode(message);
    buf := WriteFrame(msgType, messageBytes);
  }

  /** encodeNormalPos(normalPos), given the text JSON.stringify(normalPos) produced.
      The header type is 1 whatever the position holds. */
  method EncodeNormalPos(json: string) returns (buf: array<byte>)
    ensures fresh(buf)
    ensures buf[..] == FrameBytes(NORMAL_POS_TYPE, Utf8.Encode(json))
  {
    var messageBytes := Utf8.Encode(json);
    buf := WriteFrame(NORMAL_POS_TYPE, messageBytes);
  }

  // ---------------------------------------------------------------------------
  // Decoders: read the two header words, then the declared slice.

  /** getInt32 at 0 and at 4, then new Uint8Array(buffer, 8, length). */
  function ReadFrame(buf: seq<byte>): Result<Frame>
  {
    if |buf| < 8 then Err(HeaderPastEnd)
    else
      var length := ReadInt32(buf, 4);
      if length < 0 then Err(NegativeLength)
      else if 8 + length > |buf| then Err(PayloadPastEnd)
      else Ok(Frame(ReadInt32(buf, 0), buf[8..8 + length]))
  }

  /** decodeMessage(buffer). */
  function DecodeMessage(buf: seq<byte>): Result<Message>
  {
    match ReadFrame(buf)
    case Err(e) => Err(e)
    case Ok(f) => Ok(Message(f.code, Utf8.Decode(f.payload)))
  }

  /** decodeRobotPos(buffer). */
  function DecodeRobotPos(buf: seq<byte>): Result<Message>
  {
    match ReadFrame(buf)
    case Err(e) => Err(e)
    case Ok(f) => Ok(Message(f.code, Utf8.Decode(f.payload)))
  }

  /** decodeSprotoAuthResponse(buffer). */
  function DecodeSprotoAuthResponse(buf: seq<byte>): Result<AuthResponse>
  {
    match ReadFrame(buf)
    case Err(e) => Err(e)
    case Ok(f) => Ok(AuthResponse(f.code, Utf8.Decode(f.payload)))
  }

  // ---------------------------------------------------------------------------
  // Properties of the layout.

  /** A frame is 8 bytes longer than its payload; bytes 0 to 3 are the code as a
      two's-complement little-endian word, bytes 4 to 7 the payload length, and the
      payload follows unchanged. */
  lemma FrameLayout(code: int, payload: seq<byte>)
    requires |payload| < TWO_32
    ensures |FrameBytes(code, payload)| == 8 + |payload|
    ensures FrameBytes(code, payload)[..4] == LittleEndian32(ToUint32(code))
    ensures ReadInt32(FrameBytes(code, payload), 0) == ToInt32(code)
    ensures FrameBytes(code, payload)[4..8] == LittleEndian32(|payload|)
    ensures ReadUint32(FrameBytes(code, payload), 4) == |payload|
    ensures FrameBytes(code, payload)[8..] == payload
  {
    var bs := FrameBytes(code, payload);
    assert bs[..4] == LittleEndian32(ToUint32(code));
    assert bs[4..8] == LittleEndian32(|payload|);
    Int32RoundTrip(code);
    assert ReadUint32(bs, 0) == ReadUint32(bs[..4], 0);
    ReadWritten(|payload|);
    assert ReadUint32(bs, 4) == ReadUint32(bs[4..8], 0);
  }

  /** encodeMessage(1, "") is 01 00 00 00 00 00 00 00. */
  lemma EmptyMessageBytes()
    ensures FrameBytes(1, Utf8.Encode("")) == [1, 0, 0, 0, 0, 0, 0, 0]
  {
  }

  /** Reading back a frame whose length fits a signed word gives its code wrapped
      to 32 bits and its payload; bytes after the frame are ignored. */
  lemma ReadFrameBytes(code: int, payload: seq<byte>, extra: seq<byte>)
    requires |payload| < TWO_31
    ensures ReadFrame(FrameBytes(code, payload) + extra) == Ok(Frame(ToInt32(code), payload))
  {
    var bs := FrameBytes(code, payload);
    var all := bs + extra;
    FrameLayout(code, payload);
    assert ReadUint32(all, 4) == ReadUint32(bs, 4);
    assert ReadUint32(all, 0) == ReadUint32(bs, 0);
    assert all[8..8 + |payload|] == payload;
  }

  /** A payload of 2^31 bytes or more gets a length word with the sign bit set, so
      no decoder accepts the frame. */
  lemma OversizedPayloadRejected(code: int, payload: seq<byte>)
    requires TWO_31 <= |payload| < TWO_32
    ensures DecodeMessage(FrameBytes(code, payload)) == Err(NegativeLength)
  {
    FrameLayout(code, payload);
  }

  /** decodeMessage undoes encodeMessage: the type comes back wrapped to 32 bits and
      the text comes back as TextDecoder reads its UTF-8, which drops one leading
      U+FEFF. */
  lemma DecodeEncodeMessage(msgType: int, message: string)
    requires |Utf8.Encode(message)| < TWO_31
    ensures DecodeMessage(FrameBytes(msgType, Utf8.Encode(message)))
         == Ok(Message(ToInt32(msgType),
                       if message != [] && message[0] == Utf8.BYTE_ORDER_MARK then message[1..] else message))
  {
    ReadFrameBytes(msgType, Utf8.Encode(message), []);
    assert FrameBytes(msgType, Utf8.Encode(message)) + [] == FrameBytes(msgType, Utf8.Encode(message));
    Utf8.DecodeEncode(message);
  }

  /** The round trip in its plain form: every int32 type and every text that does
      not start with U+FEFF come back unchanged. */
  lemma MessageRoundTrip(msgType: int, message: string)
    requires IsInt32(msgType)
    requires message == [] || message[0] != Utf8.BYTE_ORDER_MARK
    requires |Utf8.Encode(message)| < TWO_31
    ensures DecodeMessage(FrameBytes(msgType, Utf8.Encode(message))) == Ok(Message(msgType, message))
  {
    DecodeEncodeMessage(msgType, message);
  }

  /** decodeMessage throws exactly in three cases, each with its own cause: fewer
      than 8 bytes, a negative declared length, or a declared payload that runs past
      the end. */
  lemma DecodeMessageFailures(buf: seq<byte>)
    ensures DecodeMessage(buf) == Err(HeaderPastEnd) <==> |buf| < 8
    ensures DecodeMessage(buf) == Err(NegativeLength) <==> |buf| >= 8 && ReadInt32(buf, 4) < 0
    ensures DecodeMessage(buf) == Err(PayloadPastEnd)
        <==> |buf| >= 8 && ReadInt32(buf, 4) >= 0 && 8 + ReadInt32(buf, 4) > |buf|
    ensures DecodeMessage(buf).Ok?
        <==> |buf| >= 8 && 0 <= ReadInt32(buf, 4) && 8 + ReadInt32(buf, 4) <= |buf|
  {
  }

  /** When decodeMessage succeeds, the type is the first header word and the text
      is read from exactly the declared number of bytes after the header. */
  lemma DecodeMessageReads(buf: seq<byte>)
    requires DecodeMessage(buf).Ok?
    ensures DecodeMessage(buf).value.msgType == ReadInt32(buf, 0)
    ensures DecodeMessage(buf).value.message == Utf8.Decode(buf[8..8 + ReadInt32(buf, 4)])
  {
  }

  /** Bytes after the declared payload are ignored, not rejected. */
  lemma TrailingBytesIgnored(buf: seq<byte>, extra: seq<byte>)
    requires DecodeMessage(buf).Ok?
    ensures DecodeMessage(buf + extra) == DecodeMessage(buf)
  {
    var all := buf + extra;
    assert all[..8] == buf[..8];
    assert ReadUint32(all, 4) == ReadUint32(buf, 4);
    assert ReadUint32(all, 0) == ReadUint32(buf, 0);
    var length := ReadInt32(buf, 4);
    assert all[8..8 + length] == buf[8..8 + length];
  }

  /** decodeSprotoAuthResponse undoes encodeSprotoAuth: the status code comes back
      as the type and the message as the user name, '|', and the password. */
  lemma AuthRoundTrip(authType: int, username: string, password: string)
    requires IsInt32(authType)
    requires username == [] || username[0] != Utf8.BYTE_ORDER_MARK
    requires |Utf8.Encode(AuthText(username, password))| < TWO_31
    ensures DecodeSprotoAuthResponse(FrameBytes(authType, Utf8.Encode(AuthText(username, password))))
         == Ok(AuthResponse(authType, username + "|" + password))
  {
    var text := AuthText(username, password);
    assert text == [] || text[0] != Utf8.BYTE_ORDER_MARK by {
      if username == [] { assert text[0] == '|'; } else { assert text[0] == username[0]; }
    }
    MessageRoundTrip(authType, text);
  }

  /** encodeNormalPos writes header type 1 and the JSON text as payload, whatever
      the position is. */
  lemma NormalPosLayout(json: string)
    requires |Utf8.Encode(json)| < TWO_31
    ensures ReadFrame(FrameBytes(NORMAL_POS_TYPE, Utf8.Encode(json))) == Ok(Frame(1, Utf8.Encode(json)))
  {
    ReadFrameBytes(NORMAL_POS_TYPE, Utf8.Encode(json), []);
    assert FrameBytes(NORMAL_POS_TYPE, Utf8.Encode(json)) + [] == FrameBytes(NORMAL_POS_TYPE, Utf8.Encode(json));
  }

  /** The three decoders share one layout: on every buffer they fail together, with
      the same cause, and otherwise agree field for field. */
  lemma DecodersAgree(buf: seq<byte>)
    ensures DecodeRobotPos(buf) == DecodeMessage(buf)
    ensures DecodeSprotoAuthResponse(buf).Ok? == DecodeMessage(buf).Ok?
    ensures DecodeSprotoAuthResponse(buf).Err? ==> DecodeSprotoAuthResponse(buf).error == DecodeMessage(buf).error
    ensures DecodeSprotoAuthResponse(buf).Ok? ==>
      DecodeSprotoAuthResponse(buf).value.code == DecodeMessage(buf).value.msgType &&
      DecodeSprotoAuthResponse(buf).value.message == DecodeMessage(buf).value.message
  {
  }
}
