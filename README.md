# Robot client core, modelled in Dafny

This project models the browser client of the skynet robot demo: the binary
frame codec of `robot/client/js/proto.js`, the WebSocket connection state
machine of `robot/client/js/websocket.js`, the message-area and login/register
glue of `robot/client/js/ui.js`, and the movement rule, animation table and
single game instance of `robot/client/js/game.js`.

Modules, one per concern:

- `Bytes` (bytes.dfy): octets, ECMAScript ToUint32/ToInt32, and the
  little-endian 32-bit words that `DataView.setInt32(off, v, true)` writes and
  `getInt32(off, true)` reads.
- `Utf8` (utf8.dfy): `TextEncoder` as the UTF-8 encoding of RFC 3629 section 3,
  and `TextDecoder` as the UTF-8 decoder of the WHATWG Encoding Standard. The
  decoder replaces each maximal ill-formed subpart with U+FFFD and, as the
  default `TextDecoder` does, drops a leading byte order mark.
- `Text` (text.dfy): `includes`, `toLowerCase` and the decimal text of an
  integer in a template literal.
- `Proto` (proto.dfy): the frame layout. A frame holds a type or status code in
  bytes 0-3, the payload length in bytes 4-7, and the UTF-8 payload after that.
  The encoders are methods that fill a zero-initialised `array<byte>` in place,
  as the source fills its `ArrayBuffer`. The decoders are functions that either
  return the decoded record or the `RangeError` the source throws.
- `Ui` (ui.dfy): how `appendMessage` builds and styles an entry, and the request
  constants.
- `Client` (client.dfy): the page globals as a `PageState` value. Each handler
  is a function over it. An `Event` type and `Step`/`Run` drive the page, and
  `Consistent` is an invariant every step keeps.
- `Session` (page.dfy): class `Page`, whose fields are those globals. Its
  methods do the handlers' work step by step, as the source does. By design,
  every handler thus appears twice: as a `Client` function, the specification,
  and as a `Page` method, the implementation, whose `ensures` says its new
  state is what that function gives. `SetMessageInput` and `Register`, which
  have no `Client` function, state their new state directly.
- `Game` (game.dfy): the clamped random step, the animation frame table, class
  `Scene` for `changeDirection`, and class `GamePanel` for the
  `showGame`/`hideGame` singleton.

Behaviours of the code that the model keeps as they are written:

- **Byte order mark.** `decodeMessage(encodeMessage(t, m))` gives back `m` only
  when `m` does not start with U+FEFF, because `TextDecoder` strips a leading
  BOM. `Proto.DecodeEncodeMessage` states the exact outcome in both cases.
- **Late close.** `ws.onclose` sets the global `ws` to null whichever socket
  closed. When the close event of a socket that was already replaced arrives
  late, `ws` is dropped while it holds the newer socket, and the reconnect
  timer then opens a further one. Two sockets end up live
  (`Client.LateCloseLeadsToTwoLiveSockets`).
- **Logout does not stop reconnecting.** `logout` never clears
  `currentWsInfo`, so the close event it causes schedules a reconnect with the
  old token (`Client.LogoutDoesNotStopReconnect`).
- **KICK_OUT without a socket.** A `KICK_OUT` message while `ws` is null throws
  a TypeError at `ws.close()`. `onmessage` catches it and reports it, and
  `logout` never runs (`Client.KickOutWithoutSocket`).
- **Sending while connecting.** `ws.send` throws while the socket is
  connecting. The page then shows "消息编码失败". Once the socket is closing or
  closed, the data is dropped without an error.
- **Dead case labels.** The case labels `MSG_TYPE.ECHO`, `ROBOT_CTRL`,
  `ROBOT_MSG` and `BUILD_INFO` are not defined in `enums.js`. They evaluate to
  undefined and never match, so every type other than `KICK_OUT` (4) reaches
  the default branch.

## Model

| member | source | states |
|---|---|---|
| `Bytes.ToUint32` | robot/client/js/proto.js:11-13 | the word setInt32 stores is the value modulo 2^32: in range, congruent to the value, and the value itself when it already fits |
| `Bytes.ToInt32` | robot/client/js/proto.js:26-28 | getInt32's value is a signed 32-bit integer congruent to the stored one, and the identity on int32 values |
| `Bytes.LittleEndian32` | robot/client/js/proto.js:11-13 | a header word occupies exactly four bytes |
| `Bytes.ReadUint32` | robot/client/js/proto.js:26-28 | four bytes read least significant first give an unsigned 32-bit value |
| `Bytes.ReadInt32` | robot/client/js/proto.js:58-60 | getInt32 always yields a signed 32-bit integer |
| `Bytes.ReadWritten` | robot/client/js/proto.js:43-45 | reading back the four bytes written for a word gives that word |
| `Bytes.Int32RoundTrip` | robot/client/js/proto.js:43 | setInt32 then getInt32 gives the value wrapped to 32 bits, exactly the value for an int32 |
| `Bytes.LittleEndianInjective` | robot/client/js/proto.js:43-45 | distinct words are written as distinct bytes |
| `Utf8.EncodeScalar` | robot/client/js/proto.js:38 | a character takes 1 to 4 bytes, one exactly for ASCII, and never starts with C0, C1 or F5-FF |
| `Utf8.Encode` | robot/client/js/proto.js:38 | the UTF-8 text has between one and four bytes per character |
| `Utf8.Accepted` | robot/client/js/proto.js:63 | the decoder accepts a run of valid continuation bytes and stops at the first one the lead byte forbids |
| `Utf8.MultiByteValue` | robot/client/js/proto.js:63 | an accepted multi-byte sequence denotes a scalar value of 0x80 or above, never a surrogate |
| `Utf8.DecodeRaw` | robot/client/js/proto.js:63 | decoding never yields more characters than there are bytes |
| `Utf8.Decode` | robot/client/js/proto.js:63 | TextDecoder.decode never yields more characters than there are bytes |
| `Utf8.DecodeScalar` | robot/client/js/proto.js:63 | the decoder reads an encoded character back and then continues with the rest |
| `Utf8.DecodeTwo` | robot/client/js/proto.js:63 | the same for two-byte characters |
| `Utf8.DecodeThree` | robot/client/js/proto.js:63 | the same for three-byte characters |
| `Utf8.DecodeFour` | robot/client/js/proto.js:63 | the same for four-byte characters |
| `Utf8.DecodeRawEncode` | robot/client/js/proto.js:38-63 | the decoder without BOM handling inverts the encoder on every text |
| `Utf8.BomBytesOnlyFromBom` | robot/client/js/proto.js:63 | EF BB BF is the encoding of U+FEFF and of no other character |
| `Utf8.EncodeStartsWithBom` | robot/client/js/proto.js:38-63 | an encoding begins with EF BB BF exactly when the text begins with U+FEFF |
| `Utf8.DecodeEncode` | robot/client/js/proto.js:38-63 | TextDecoder(TextEncoder(s)) is s with one leading U+FEFF dropped, and s otherwise |
| `Utf8.RoundTrip` | robot/client/js/proto.js:38-63 | texts not starting with U+FEFF survive encode then decode unchanged |
| `Utf8.EncodeInjective` | robot/client/js/proto.js:38 | distinct texts have distinct encodings |
| `Text.IncludesBounds` | robot/client/js/ui.js:17 | a text includes itself and nothing longer than itself |
| `Text.IncludesConcat` | robot/client/js/ui.js:17-18 | a text includes every piece of it, wherever the piece sits |
| `Text.MissingFirstChar` | robot/client/js/ui.js:18 | a text lacking the needle's first character does not include the needle |
| `Text.ToLower` | robot/client/js/ui.js:24 | toLowerCase keeps the length and lowers character by character |
| `Text.ToLowerIdempotent` | robot/client/js/ui.js:24 | a lowered text has no capital A-Z, lowering it again changes nothing, and exactly the capitals change, each into a small letter |
| `Text.NatToDecimal` | robot/client/js/websocket.js:72 | a non-negative number prints as digits without a leading zero |
| `Text.IntToDecimal` | robot/client/js/websocket.js:72 | a number prints non-empty, with a minus sign exactly when negative |
| `Text.NatToDecimalValue` | robot/client/js/websocket.js:72 | the digits of a non-negative number denote that number |
| `Text.IntToDecimalValue` | robot/client/js/websocket.js:115 | the printed text of every integer denotes it, so distinct types print differently |
| `Ui.MessageClassCases` | robot/client/js/ui.js:17-25 | robot-status for a server text about a robot that sleeps, wakes up or stops; robot-message for other server robot texts; otherwise "message " plus the lowered sender |
| `Ui.OtherSendersByName` | robot/client/js/ui.js:17 | for any sender but the server, the text plays no part in the class |
| `Ui.RobotStatusExample` | robot/client/js/ui.js:17-19 | "robot 7 woke up" from the server is styled robot-status |
| `Ui.RobotMessageExample` | robot/client/js/ui.js:17-21 | "robot 7 moved" from the server is styled robot-message |
| `Proto.SetInt32` | robot/client/js/proto.js:11-13 | setInt32 overwrites exactly four bytes with the little-endian word and keeps the rest |
| `Proto.SetBytes` | robot/client/js/proto.js:15 | set copies the payload at the offset and keeps every other byte |
| `Proto.WriteFrame` | robot/client/js/proto.js:39-49 | a fresh buffer holding the code word, the length word and the payload |
| `Proto.EncodeSprotoAuth` | robot/client/js/proto.js:2-18 | the frame of the type and the UTF-8 of `username|password` |
| `Proto.EncodeMessage` | robot/client/js/proto.js:37-50 | the frame of the type and the UTF-8 of the message |
| `Proto.EncodeNormalPos` | robot/client/js/proto.js:69-85 | the frame of type 1 and the UTF-8 of the JSON text |
| `Proto.FrameLayout` | robot/client/js/proto.js:39-47 | a frame is 8 bytes longer than its payload, carries the code and the length in its two words, and ends with the payload |
| `Proto.EmptyMessageBytes` | robot/client/js/proto.js:37-50 | an empty message of type 1 is the bytes 01 00 00 00 00 00 00 00 |
| `Proto.ReadFrameBytes` | robot/client/js/proto.js:53-66 | reading a frame back gives its code wrapped to 32 bits and its payload, whatever follows it |
| `Proto.OversizedPayloadRejected` | robot/client/js/proto.js:45-62 | a payload of 2^31 bytes or more is written with a negative length and makes decoding fail |
| `Proto.DecodeEncodeMessage` | robot/client/js/proto.js:37-66 | decodeMessage(encodeMessage(t, m)) is (t wrapped to 32 bits, m with a leading U+FEFF dropped) |
| `Proto.MessageRoundTrip` | robot/client/js/proto.js:37-66 | int32 types and texts not starting with U+FEFF come back unchanged |
| `Proto.DecodeMessageFailures` | robot/client/js/proto.js:58-62 | decoding fails exactly for fewer than 8 bytes, a negative length, or a payload past the end, each with its own cause |
| `Proto.DecodeMessageReads` | robot/client/js/proto.js:58-65 | a decoded type is the first word, and the text is decoded from exactly the declared bytes |
| `Proto.TrailingBytesIgnored` | robot/client/js/proto.js:62 | bytes after the declared payload change nothing |
| `Proto.AuthRoundTrip` | robot/client/js/proto.js:2-34 | the auth decoder gives back the code and `username|password` |
| `Proto.NormalPosLayout` | robot/client/js/proto.js:78-82 | a position frame reads back as type 1 with the JSON bytes |
| `Proto.DecodersAgree` | robot/client/js/proto.js:21-101 | the three decoders fail together with the same cause and otherwise agree field by field |
| `Client.TypeOrDefault` | robot/client/js/websocket.js:83 | `parseInt(...) \|\| 1` is never 0: the parsed number when non-zero, 1 for NaN or 0 |
| `Client.Step` | robot/client/js/websocket.js:5-122 | every handler keeps the page consistent |
| `Client.Run` | robot/client/js/websocket.js:5-122 | so does every run of deliverable events |
| `Client.ConnectConsistent` | robot/client/js/websocket.js:5-14 | connectWebSocket keeps the page consistent |
| `Client.OnCloseConsistent` | robot/client/js/websocket.js:38-47 | the close handler keeps the page consistent, its timer included |
| `Client.FireReconnectConsistent` | robot/client/js/websocket.js:45 | the reconnect callback keeps the page consistent |
| `Client.OnMessageConsistent` | robot/client/js/websocket.js:22-36 | the message handler keeps the page consistent |
| `Client.TransmitConsistent` | robot/client/js/websocket.js:89 | ws.send keeps the page consistent and changes neither sockets nor timers |
| `Client.SendConsistent` | robot/client/js/websocket.js:76-122 | both send functions keep the page consistent |
| `Client.InitialConsistent` | robot/client/js/websocket.js:2-3 | the loaded page is consistent, with both globals null |
| `Client.ConnectReplacesSocket` | robot/client/js/websocket.js:5-14 | the old socket begins closing, the info is saved, and `ws` is a new connecting socket at `${ws_host}?token=${token}`; nothing else changes |
| `Client.ConnectTwice` | robot/client/js/websocket.js:6-14 | two connects in a row leave only the second new socket live |
| `Client.CloseSchedulesReconnect` | robot/client/js/websocket.js:38-47 | a close nulls `ws`, logs the close, and sets one reconnect 3000 ms later exactly when info is saved |
| `Client.TimerReconnects` | robot/client/js/websocket.js:45 | the timer fires at its due time and reconnects with the info saved at that moment |
| `Client.LateCloseDropsNewSocket` | robot/client/js/websocket.js:38-40 | a late close of a replaced socket nulls `ws` while the newer socket is still live |
| `Client.LateCloseLeadsToTwoLiveSockets` | robot/client/js/websocket.js:38-47 | after such a late close, the reconnect leaves two live sockets |
| `Client.LogoutDoesNotStopReconnect` | robot/client/js/ui.js:127-131 | logout keeps the info, so the close it causes reconnects with the old token |
| `Client.InfoNeverClearedStep` | robot/client/js/websocket.js:10 | no event clears saved connection info |
| `Client.InfoNeverCleared` | robot/client/js/websocket.js:10 | no run of events clears it |
| `Client.AtMostOneTimerPerEvent` | robot/client/js/websocket.js:43-45 | an event adds a timer exactly when it is a close with info saved, and never more than one |
| `Client.SendWithoutSocket` | robot/client/js/websocket.js:77-80 | without a socket both send functions only log "未连接到服务器" |
| `Client.SendEmptyContent` | robot/client/js/websocket.js:86 | empty content sends nothing and changes nothing |
| `Client.SendByTypeTransmits` | robot/client/js/websocket.js:83-94 | on an open socket exactly encodeMessage(type, content) is sent, and the box is emptied only when the message was read from it |
| `Client.SendMessageTransmits` | robot/client/js/websocket.js:108-116 | sendMessage sends the box under the parsed type, echoes it and empties the box |
| `Client.SendWhileConnecting` | robot/client/js/websocket.js:86-120 | in both send functions, sending on a connecting socket logs "消息编码失败", sends nothing and keeps the message box |
| `Client.TransmitsOnlyOnOpenWs` | robot/client/js/websocket.js:76-122 | over every event: a frame is sent only by the two send functions, one at a time, only to the socket `ws` holds and only while it is open; earlier frames stay as they were |
| `Client.KickOutLogsOut` | robot/client/js/websocket.js:63-67 | KICK_OUT with a socket closes it and logs out, keeping the info |
| `Client.KickOutWithoutSocket` | robot/client/js/websocket.js:22-35 | KICK_OUT with `ws` null shows the text and the processing error, and nothing else changes |
| `Client.DefaultBranch` | robot/client/js/websocket.js:71-72 | every other type appends "未知类型消息: type, 内容: text" and nothing else |
| `Client.UndecodableFrameKeepsConnection` | robot/client/js/websocket.js:25-34 | an undecodable frame only logs "无法处理服务器消息" |
| `Client.TextDataShownVerbatim` | robot/client/js/websocket.js:28-29 | text data is shown unchanged under the server sender |
| `Client.InboundKeepsConnection` | robot/client/js/websocket.js:22-36 | an inbound message other than KICK_OUT with a socket keeps `ws`, the info, the sockets and the timers, and shows something |
| `Client.LoginResponseConnects` | robot/client/js/ui.js:65-84 | code 200 connects to the fixed endpoint with the message as token and logs success; any other code only shows the message as an error |
| `Client.RequestTypes` | robot/client/js/ui.js:92-98 | register posts nothing on a password mismatch, and otherwise type 1 with the same payload that login posts under type 2 |
| `Client.LogoutClears` | robot/client/js/ui.js:127-136 | logout nulls `ws` and the user, empties the area, closes the socket, and keeps the info and the timers |
| `Session.Page.constructor` | robot/client/js/websocket.js:2-3 | the page starts in the initial state |
| `Session.Page.AppendMessage` | robot/client/js/ui.js:13-30 | appendMessage does what `Client.AppendMessage` specifies |
| `Session.Page.CloseSocket` | robot/client/js/websocket.js:7 | ws.close() does what `Client.CloseSocket` specifies |
| `Session.Page.ConnectWebSocket` | robot/client/js/websocket.js:5-15 | connectWebSocket does what `Client.ConnectWebSocket` specifies and keeps the page consistent |
| `Session.Page.OnOpen` | robot/client/js/websocket.js:17-20 | onopen does what `Client.OnOpen` specifies |
| `Session.Page.OnError` | robot/client/js/websocket.js:49-52 | onerror does what `Client.OnError` specifies |
| `Session.Page.OnClose` | robot/client/js/websocket.js:38-47 | onclose does what `Client.OnClose` specifies |
| `Session.Page.FireReconnect` | robot/client/js/websocket.js:45 | the timer callback does what `Client.FireReconnect` specifies |
| `Session.Page.Logout` | robot/client/js/ui.js:127-136 | logout does what `Client.Logout` specifies |
| `Session.Page.HandleServerMessage` | robot/client/js/websocket.js:56-74 | handleServerMessage does what `Client.HandleServerMessage` specifies, throwing exactly when it does |
| `Session.Page.OnMessage` | robot/client/js/websocket.js:22-36 | onmessage does what `Client.OnMessage` specifies |
| `Session.Page.Transmit` | robot/client/js/websocket.js:89 | ws.send does what `Client.Transmit` specifies, throwing exactly when it does |
| `Session.Page.SendMessageByType` | robot/client/js/websocket.js:76-100 | sendMessageByType does what `Client.SendMessageByType` specifies |
| `Session.Page.SendMessage` | robot/client/js/websocket.js:102-122 | sendMessage does what `Client.SendMessage` specifies |
| `Session.Page.SetMessageInput` | robot/client/js/websocket.js:109 | typing sets the message box and nothing else |
| `Session.Page.HandleLoginResponse` | robot/client/js/ui.js:65-84 | handleLoginResponse does what `Client.HandleLoginResponse` specifies |
| `Session.Page.Register` | robot/client/js/ui.js:87-98 | a mismatch adds one alert and posts nothing; otherwise the register body is encoded and the page is unchanged |
| `Session.Login` | robot/client/js/ui.js:33-38 | login encodes the type-2 auth frame |
| `Session.KickedOutSession` | robot/client/js/websocket.js:63-67 | login, open, one send, then KICK_OUT: one frame was sent, the socket is closing, the page is logged out, and the token is still saved |
| `Game.Clamp` | robot/client/js/game.js:181-182 | the result lies in the bounds, equals the input inside them, and is the nearer bound outside |
| `Game.TargetInBox` | robot/client/js/game.js:161-182 | the new position always lies in [50, 750] x [50, 550] |
| `Game.StepMovesOneCoordinate` | robot/client/js/game.js:165-178 | before clamping exactly one coordinate moves, by 100, up meaning smaller y |
| `Game.TargetFromInside` | robot/client/js/game.js:161-182 | from inside the box the figure moves at most 100 along the direction, and not across it |
| `Game.TargetIsStepInside` | robot/client/js/game.js:165-182 | the clamp changes nothing exactly when the step stays in the box |
| `Game.FramesPartitionSheet` | robot/client/js/game.js:105-137 | each walk animation has three frames, and frames 0 to 11 belong to exactly one direction each |
| `Game.WalkKeysRegistered` | robot/client/js/game.js:105-157 | every key changeDirection plays is registered with its direction's frames at 8 frames per second, repeating forever; the four keys are distinct |
| `Game.Scene.constructor` | robot/client/js/game.js:2-9 | the scene starts facing down (line 8) at (400, 300), where `create` places the figure at game.js line 88, with nothing played |
| `Game.Scene.ChangeDirection` | robot/client/js/game.js:149-192 | the direction is set; the walk animation is played only on a change; the position becomes the clamped step |
| `Game.GamePanel.constructor` | robot/client/js/game.js:223 | no game exists at load |
| `Game.GamePanel.ShowGame` | robot/client/js/game.js:226-234 | a game exists afterwards, and a new one is created only when none existed |
| `Game.GamePanel.HideGame` | robot/client/js/game.js:237-243 | the existing game, if any, is destroyed, and none exists afterwards |
| `Game.ShowGameTwice` | robot/client/js/game.js:231-233 | two showGame calls create at most one game |

## Left out

- HTTP: `fetch` to the auth endpoint, `response.ok`, and the handling of the
  login and register responses after it are not modelled. The model starts
  from the decoded response (`HandleLoginResponse`) or ends at the request body
  (`Session.Login`, `Session.Page.Register`). The failure alerts
  `'登录失败: '` and `'注册失败: '` and the success alert of register are
  left out with it.
- Alerts: only the password-mismatch alert of `register` is recorded.
- DOM: panel visibility (`showLogin`, `showRegister`, the `display` switches in
  `handleLoginResponse`, `logout`, `showGame`, `hideGame`) and `scrollTop` are
  not modelled. The message area is a sequence of entries, and the two input
  boxes are a string and a parameter.
- `parseInt(document.getElementById('typeInput').value)` is a parameter (None
  for NaN). So is the text `JSON.stringify(normalPos)` in `encodeNormalPos`.
- `Math.random()` in `changeDirection` is the direction parameter.
- Phaser: rendering, sprite loading, the pointer handlers of the buildings,
  and the 2000 ms tween are left out. The position jumps to the tween's end
  point, which the tween reaches before the 3000 ms timer fires again.
  `Game.Scene.ChangeDirection` records `people.play` as a list of keys.
- WebSocket: the browser's network behaviour is not modelled. Open, message,
  error and close events arrive as `Client.Event` values whenever the socket's
  ready state allows them. A `SyntaxError` from `new WebSocket` on a malformed
  URL is not modelled. Console logging is left out.
- The server-initiated closing handshake is not an event: no event moves an
  open socket to closing before its close event. In the browser, `ws.send`
  in that window drops the frame silently, whereas `Client.Transmit` would
  record it in `transmitted`. Everything the page itself shows is the same
  either way.
- Time advances only when a reconnect timer fires. The other handlers run at
  the current time.
- Numbers: every JavaScript number is modelled as an integer. Non-integral,
  NaN and infinite values, and precision loss beyond 2^53, are not modelled.
  `Text.IntToDecimal` prints every integer in plain digits, whereas JavaScript
  switches to exponent notation from 10^21 on.
- `Text.ToLower`: maps only A-Z. Unicode case mapping is not modelled, and the
  senders the client uses contain no other cased letters.
- Strings are sequences of Unicode scalar values. Lone UTF-16 surrogates, which
  TextEncoder would replace with U+FFFD, cannot occur in the model.
- `MSG_TYPE` is taken to be the object defined in `robot/client/js/enums.js`,
  as a global. `robot/client/js/config.js`, `robot/client/js/sproto-helper.js`
  and `robot/client/start_server.py` are not part of this model.
- `currentUser` is only ever set to null in the core. It is kept as a field;
  whatever sets it lies outside the core.
