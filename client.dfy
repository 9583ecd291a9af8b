/** The page's session: the connection state machine of robot/client/js/websocket.js
    and the glue of robot/client/js/ui.js that shares its globals.

    The page has two connection globals, the socket handle `ws` and the saved
    connection info `currentWsInfo`, plus the message area, the message input box
    and `currentUser`. The browser's side is explicit: every WebSocket the page
    creates is a numbered handle with a URL and a ready state, every frame a socket
    transmits is recorded, and every pending setTimeout is the time it is due. Socket
    events, timer expiry and user actions are events the model steps through.

    PageState and the functions over it are the specification; class Page holds
    the same globals as fields and its methods, written step by step as the source
    is, are proved to follow those functions. */
module Client {
  import opened Wrappers
  import opened Bytes
  import opened Text
  import opened Ui
  import Utf8
  import Proto

  /** A WebSocket object, by the order in which the page created it. */
  type Handle = nat

  datatype ReadyState = Connecting | Open | Closing | Closed

  /** What the page knows of one WebSocket: the URL it was opened with and its state. */
  datatype Socket = Socket(url: string, readyState: ReadyState)

  /** The connection info handleLoginResponse builds: {token, ws_host}. */
  datatype WsInfo = WsInfo(token: string, wsHost: string)

  /** One ws.send that put bytes on the wire. */
  datatype Transmission = Transmission(socket: Handle, data: seq<byte>)

  /** event.data of a message event: an ArrayBuffer (the page sets binaryType to
      "arraybuffer") or a string for a text frame. */
  datatype Data = BinaryData(bytes: seq<byte>) | TextData(text: string)

  /** The message types enums.js defines and handleServerMessage can match. The
      other case labels there (ECHO, ROBOT_CTRL, ROBOT_MSG, BUILD_INFO) are not in
      MSG_TYPE, evaluate to undefined and match no number. */
  const KICK_OUT: int := 4
  const RECONNECT_DELAY: int := 3000

  const TEXT_OPENED: string := "WebSocket连接已建立"
  const TEXT_CLOSED: string := "连接已关闭"
  const TEXT_RECONNECTING: string := "尝试重新连接..."
  const TEXT_SOCKET_ERROR: string := "连接发生错误"
  const TEXT_UNPROCESSABLE: string := "无法处理服务器消息"
  const TEXT_NOT_CONNECTED: string := "未连接到服务器"
  const TEXT_SEND_FAILED: string := "消息编码失败"
  const TEXT_LOGGED_IN: string := "登录成功！"
  const TEXT_PASSWORD_MISMATCH: string := "两次输入的密码不一致"

  datatype PageState = PageState(
    ws: Option<Handle>,
    currentWsInfo: Option<WsInfo>,
    currentUser: Option<string>,
    messageArea: seq<Entry>,
    messageInput: string,
    sockets: seq<Socket>,
    transmitted: seq<Transmission>,
    /** Due times of the pending reconnect timers, in the order they were set. */
    timers: seq<int>,
    now: int,
    alerts: seq<string>)

  /** The page as it loads: both globals null, nothing created yet. */
  const INITIAL: PageState := PageState(None, None, None, [], "", [], [], [], 0, [])

  /** A socket that has not begun closing. */
  predicate Live(s: PageState, h: Handle) {
    h < |s.sockets| && s.sockets[h].readyState in {Connecting, Open}
  }

  /** `ws`, when set, is the socket created last. */
  predicate HandleCurrent(s: PageState) {
    s.ws.Some? ==> s.ws.value == |s.sockets| - 1
  }

  /** What every reachable page state satisfies: `ws` is the newest socket, frames
      went only to sockets that exist, a pending timer implies saved connection
      info, and the timers fall due in order within the next 3000 ms. */
  predicate Consistent(s: PageState) {
    && HandleCurrent(s)
    && (forall i :: 0 <= i < |s.transmitted| ==> s.transmitted[i].socket < |s.sockets|)
    && (s.timers != [] ==> s.currentWsInfo.Some?)
    && (forall i :: 0 <= i < |s.timers| ==> s.now <= s.timers[i] <= s.now + RECONNECT_DELAY)
    && (forall i, j :: 0 <= i < j < |s.timers| ==> s.timers[i] <= s.timers[j])
  }

  /** The outcome of code that may throw: the state when it returned or threw. */
  datatype Completion = Normal(state: PageState) | Threw(state: PageState)

  // ---------------------------------------------------------------------------
  // The specification: one function per handler.

  /** appendMessage(sender, message): one entry at the end of the message area. */
  function AppendMessage(s: PageState, sender: string, message: string): PageState {
    s.(messageArea := s.messageArea + [MakeEntry(sender, message)])
  }

  /** ws.close() on socket h: a connecting or open socket begins closing; its close
      event comes later. Closing a closing or closed socket does nothing. */
  function CloseSocket(s: PageState, h: Handle): PageState
    requires h < |s.sockets|
  {
    if s.sockets[h].readyState in {Connecting, Open}
    then s.(sockets := s.sockets[h := s.sockets[h].(readyState := Closing)])
    else s
  }

  /** The URL connectWebSocket opens. */
  function WsUrl(info: WsInfo): string {
    info.wsHost + "?token=" + info.token
  }

  /** connectWebSocket(info). */
  function ConnectWebSocket(s: PageState, info: WsInfo): PageState
    requires HandleCurrent(s)
  {
    var s1 := if s.ws.Some? then CloseSocket(s, s.ws.value) else s;
    s1.(currentWsInfo := Some(info),
        sockets := s1.sockets + [Socket(WsUrl(info), Connecting)],
        ws := Some(|s1.sockets|))
  }

  /** ws.onopen of socket h. */
  function OnOpen(s: PageState, h: Handle): PageState
    requires h < |s.sockets|
  {
    AppendMessage(s.(sockets := s.sockets[h := s.sockets[h].(readyState := Open)]), SENDER_SYSTEM, TEXT_OPENED)
  }

  /** ws.onerror of socket h. */
  function OnError(s: PageState, h: Handle): PageState {
    AppendMessage(s, SENDER_SYSTEM, TEXT_SOCKET_ERROR)
  }

  /** ws.onclose of socket h. The handler sets the global `ws` to null whichever
      socket closed, and sets a reconnect timer whenever connection info is saved. */
  function OnClose(s: PageState, h: Handle): PageState
    requires h < |s.sockets|
  {
    var closed := s.(sockets := s.sockets[h := s.sockets[h].(readyState := Closed)]);
    var s1 := AppendMessage(closed, SENDER_SYSTEM, TEXT_CLOSED).(ws := None);
    if s1.currentWsInfo.Some? then
      AppendMessage(s1, SENDER_SYSTEM, TEXT_RECONNECTING).(timers := s1.timers + [s1.now + RECONNECT_DELAY])
    else s1
  }

  /** The first pending timer fires: the clock reaches its due time and its callback
      runs connectWebSocket(currentWsInfo), reading the global at that moment. */
  function FireReconnect(s: PageState): PageState
    requires HandleCurrent(s) && s.timers != [] && s.currentWsInfo.Some?
  {
    var s1 := s.(now := if s.timers[0] > s.now then s.timers[0] else s.now, timers := s.timers[1..]);
    ConnectWebSocket(s1, s1.currentWsInfo.value)
  }

  /** logout(): close and forget the socket, clear the user and the message area.
      currentWsInfo is left as it is. */
  function Logout(s: PageState): PageState
    requires HandleCurrent(s)
  {
    var s1 := if s.ws.Some? then CloseSocket(s, s.ws.value).(ws := None) else s;
    s1.(currentUser := None, messageArea := [])
  }

  /** handleServerMessage(message). For KICK_OUT the call ws.close() throws a
      TypeError when `ws` is null, before logout runs. */
  function HandleServerMessage(s: PageState, m: Proto.Message): Completion
    requires HandleCurrent(s)
  {
    if m.msgType == KICK_OUT then
      var s1 := AppendMessage(s, SENDER_SYSTEM, m.message);
      if s1.ws.None? then Threw(s1)
      else Normal(Logout(CloseSocket(s1, s1.ws.value)))
    else
      Normal(AppendMessage(s, SENDER_SERVER,
        "未知类型消息: " + IntToDecimal(m.msgType) + ", 内容: " + m.message))
  }

  /** ws.onmessage of socket h: binary data is decoded and handled, text is shown
      as it is, and anything thrown on the way is caught and reported. */
  function OnMessage(s: PageState, h: Handle, data: Data): PageState
    requires HandleCurrent(s)
  {
    match data
    case TextData(text) => AppendMessage(s, SENDER_SERVER, text)
    case BinaryData(bytes) =>
      match Proto.DecodeMessage(bytes)
      case Err(_) => AppendMessage(s, SENDER_ERROR, TEXT_UNPROCESSABLE)
      case Ok(m) =>
        match HandleServerMessage(s, m)
        case Normal(s1) => s1
        case Threw(s1) => AppendMessage(s1, SENDER_ERROR, TEXT_UNPROCESSABLE)
  }

  /** `parseInt(input) || 1`, given what parseInt returned (None for NaN). */
  function TypeOrDefault(parsed: Option<int>): (t: int)
    ensures t != 0
    ensures parsed.Some? && parsed.value != 0 ==> t == parsed.value
    ensures parsed.None? || parsed.value == 0 ==> t == 1
  {
    if parsed.None? || parsed.value == 0 then 1 else parsed.value
  }

  /** ws.send(data) on socket h: it throws InvalidStateError while the socket is
      connecting, transmits when it is open, and drops the data without error once
      it is closing or closed. */
  function Transmit(s: PageState, h: Handle, data: seq<byte>): Completion
    requires h < |s.sockets|
  {
    match s.sockets[h].readyState
    case Connecting => Threw(s)
    case Open => Normal(s.(transmitted := s.transmitted + [Transmission(h, data)]))
    case _ => Normal(s)
  }

  /** sendMessageByType(type, message): an absent argument (undefined) is read
      from the page, the type box through parseInt with 1 as fallback, the text from
      the message box, which is emptied after a send. */
  function SendMessageByType(s: PageState, typeArg: Option<int>, messageArg: Option<string>,
                             typeInput: Option<int>): PageState
    requires HandleCurrent(s)
  {
    if s.ws.None? then AppendMessage(s, SENDER_ERROR, TEXT_NOT_CONNECTED)
    else
      var msgType := if typeArg.Some? then typeArg.value else TypeOrDefault(typeInput);
      var content := if messageArg.Some? then messageArg.value else s.messageInput;
      if content == "" then s
      else
        match Transmit(s, s.ws.value, Proto.FrameBytes(msgType, Utf8.Encode(content)))
        case Threw(s1) => AppendMessage(s1, SENDER_ERROR, TEXT_SEND_FAILED)
        case Normal(s1) => if messageArg.None? then s1.(messageInput := "") else s1
  }

  /** The echo sendMessage writes after a send. */
  function SentEcho(msgType: int, message: string): string {
    "类型: " + IntToDecimal(msgType) + ", 消息: " + message
  }

  /** sendMessage(): type and text are read from the page. */
  function SendMessage(s: PageState, typeInput: Option<int>): PageState
    requires HandleCurrent(s)
  {
    if s.ws.None? then AppendMessage(s, SENDER_ERROR, TEXT_NOT_CONNECTED)
    else
      var msgType := TypeOrDefault(typeInput);
      var message := s.messageInput;
      if message == "" then s
      else
        match Transmit(s, s.ws.value, Proto.FrameBytes(msgType, Utf8.Encode(message)))
        case Threw(s1) => AppendMessage(s1, SENDER_ERROR, TEXT_SEND_FAILED)
        case Normal(s1) => AppendMessage(s1, SENDER_CLIENT, SentEcho(msgType, message)).(messageInput := "")
  }

  /** The connection info built from a successful login response. */
  function LoginInfo(response: Proto.AuthResponse): WsInfo {
    WsInfo(response.message, WS_HOST)
  }

  /** handleLoginResponse(response). */
  function HandleLoginResponse(s: PageState, response: Proto.AuthResponse): PageState
    requires HandleCurrent(s)
  {
    if response.code == STATUS_OK then
      AppendMessage(ConnectWebSocket(s, LoginInfo(response)), SENDER_SYSTEM, TEXT_LOGGED_IN)
    else AppendMessage(s, SENDER_ERROR, response.message)
  }

  /** The request body login() posts. */
  function LoginBody(username: string, password: string): seq<byte> {
    Proto.FrameBytes(LOGIN_TYPE, Utf8.Encode(Proto.AuthText(username, password)))
  }

  /** The request body register() posts, or None when it returns early because the
      two passwords differ. */
  function RegisterBody(username: string, password: string, confirmPassword: string): Option<seq<byte>> {
    if password != confirmPassword then None
    else Some(Proto.FrameBytes(REGISTER_TYPE, Utf8.Encode(Proto.AuthText(username, password))))
  }

  // ---------------------------------------------------------------------------
  // Events and runs.

  datatype Event =
    | SocketOpened(h: Handle)
    | SocketMessage(h: Handle, data: Data)
    | SocketError(h: Handle)
    | SocketClosed(h: Handle)
    | TimerFired
    | LoginResponse(response: Proto.AuthResponse)
    | SendByType(typeArg: Option<int>, messageArg: Option<string>, typeInput: Option<int>)
    | SendFromInput(typeInput: Option<int>)
    | Typed(text: string)
    | LogoutClicked

  /** When the browser can deliver an event: open only for a connecting socket,
      messages only on an open one, error and close only before it has closed, and a timer
      only when one is pending. User actions can happen at any time. */
  predicate Enabled(s: PageState, e: Event) {
    match e
    case SocketOpened(h) => h < |s.sockets| && s.sockets[h].readyState == Connecting
    case SocketMessage(h, _) => h < |s.sockets| && s.sockets[h].readyState == Open
    case SocketError(h) => h < |s.sockets| && s.sockets[h].readyState != Closed
    case SocketClosed(h) => h < |s.sockets| && s.sockets[h].readyState != Closed
    case TimerFired => s.timers != []
    case _ => true
  }

  /** One event handled by the page. Every handler keeps the page consistent. */
  function Step(s: PageState, e: Event): (r: PageState)
    requires Consistent(s) && Enabled(s, e)
    ensures Consistent(r)
  {
    match e
    case SocketOpened(h) => OnOpen(s, h)
    case SocketMessage(h, data) => OnMessageConsistent(s, h, data); OnMessage(s, h, data)
    case SocketError(h) => OnError(s, h)
    case SocketClosed(h) => OnCloseConsistent(s, h); OnClose(s, h)
    case TimerFired => FireReconnectConsistent(s); FireReconnect(s)
    case LoginResponse(response) => ConnectConsistent(s, LoginInfo(response)); HandleLoginResponse(s, response)
    case SendByType(t, m, input) => SendConsistent(s, t, m, input); SendMessageByType(s, t, m, input)
    case SendFromInput(input) => SendConsistent(s, None, None, input); SendMessage(s, input)
    case Typed(text) => s.(messageInput := text)
    case LogoutClicked => Logout(s)
  }

  lemma ConnectConsistent(s: PageState, info: WsInfo)
    requires Consistent(s)
    ensures Consistent(ConnectWebSocket(s, info))
  {
    var r := ConnectWebSocket(s, info);
    assert r.transmitted == s.transmitted && r.timers == s.timers && r.now == s.now;
    assert |r.sockets| == |s.sockets| + 1;
  }

  lemma OnCloseConsistent(s: PageState, h: Handle)
    requires Consistent(s) && h < |s.sockets|
    ensures Consistent(OnClose(s, h))
  {
    var r := OnClose(s, h);
    assert |r.sockets| == |s.sockets| && r.transmitted == s.transmitted && r.now == s.now;
    if s.currentWsInfo.Some? {
      assert r.timers == s.timers + [s.now + RECONNECT_DELAY];
    }
  }

  lemma FireReconnectConsistent(s: PageState)
    requires Consistent(s) && s.timers != []
    ensures Consistent(FireReconnect(s))
  {
    var s1 := s.(now := s.timers[0], timers := s.timers[1..]);
    assert s.now <= s.timers[0];
    assert forall i :: 0 <= i < |s1.timers| ==> s1.timers[i] == s.timers[i + 1];
    assert Consistent(s1);
    ConnectConsistent(s1, s1.currentWsInfo.value);
  }

  lemma OnMessageConsistent(s: PageState, h: Handle, data: Data)
    requires Consistent(s)
    ensures Consistent(OnMessage(s, h, data))
  {
    var r := OnMessage(s, h, data);
    assert |r.sockets| == |s.sockets| && r.transmitted == s.transmitted;
    assert r.timers == s.timers && r.now == s.now && r.currentWsInfo == s.currentWsInfo;
  }

  lemma TransmitConsistent(s: PageState, h: Handle, data: seq<byte>)
    requires Consistent(s) && h < |s.sockets|
    ensures Consistent(Transmit(s, h, data).state)
    ensures Transmit(s, h, data).state.sockets == s.sockets
    ensures Transmit(s, h, data).state.timers == s.timers
  {
    var r := Transmit(s, h, data).state;
    assert r.sockets == s.sockets && r.timers == s.timers && r.now == s.now;
    assert forall i :: 0 <= i < |r.transmitted| ==> r.transmitted[i].socket < |r.sockets| by {
      forall i | 0 <= i < |r.transmitted| ensures r.transmitted[i].socket < |r.sockets| {
        if i < |s.transmitted| {
          assert r.transmitted[i] == s.transmitted[i];
        }
      }
    }
  }

  lemma SendConsistent(s: PageState, typeArg: Option<int>, messageArg: Option<string>, typeInput: Option<int>)
    requires Consistent(s)
    ensures Consistent(SendMessageByType(s, typeArg, messageArg, typeInput))
    ensures Consistent(SendMessage(s, typeInput))
  {
    if s.ws.Some? {
      var content := if messageArg.Some? then messageArg.value else s.messageInput;
      var msgType := if typeArg.Some? then typeArg.value else TypeOrDefault(typeInput);
      TransmitConsistent(s, s.ws.value, Proto.FrameBytes(msgType, Utf8.Encode(content)));
      TransmitConsistent(s, s.ws.value, Proto.FrameBytes(TypeOrDefault(typeInput), Utf8.Encode(s.messageInput)));
    }
  }

  /** The state after a sequence of events, or None if one of them could not have
      been delivered. */
  function Run(s: PageState, events: seq<Event>): (r: Option<PageState>)
    requires Consistent(s)
    ensures r.Some? ==> Consistent(r.value)
    decreases |events|
  {
    if events == [] then Some(s)
    else if !Enabled(s, events[0]) then None
    else Run(Step(s, events[0]), events[1..])
  }

  // ---------------------------------------------------------------------------
  // Properties of the connection state machine.

  lemma InitialConsistent()
    ensures Consistent(INITIAL) && INITIAL.ws == None && INITIAL.currentWsInfo == None
  {
  }

  /** connectWebSocket closes the socket `ws` held, saves the info and makes `ws`
      a single new connecting socket opened at `${ws_host}?token=${token}`. Nothing
      else changes. */
  lemma ConnectReplacesSocket(s: PageState, info: WsInfo)
    requires Consistent(s)
    ensures var r := ConnectWebSocket(s, info);
      && r.ws == Some(|s.sockets|)
      && r.currentWsInfo == Some(info)
      && |r.sockets| == |s.sockets| + 1
      && r.sockets[|s.sockets|] == Socket(info.wsHost + "?token=" + info.token, Connecting)
      && (s.ws.Some? ==> !Live(r, s.ws.value) && r.sockets[s.ws.value].url == s.sockets[s.ws.value].url)
      && (forall i :: 0 <= i < |s.sockets| && Some(i) != s.ws ==> r.sockets[i] == s.sockets[i])
      && r.messageArea == s.messageArea && r.transmitted == s.transmitted
      && r.timers == s.timers && r.now == s.now && r.currentUser == s.currentUser
      && r.messageInput == s.messageInput && r.alerts == s.alerts
  {
  }

  /** Connecting twice in a row leaves exactly one live socket among those the two
      calls touched: the first new one is closing when the second opens. */
  lemma ConnectTwice(s: PageState, first: WsInfo, second: WsInfo)
    requires Consistent(s)
    ensures var r := ConnectWebSocket(ConnectWebSocket(s, first), second);
      && r.ws == Some(|s.sockets| + 1)
      && !Live(r, |s.sockets|) && Live(r, |s.sockets| + 1)
      && r.currentWsInfo == Some(second)
  {
  }

  /** On a close event `ws` becomes null. One reconnect, due 3000 ms later, is set
      exactly when connection info is saved; otherwise no timer is set. */
  lemma CloseSchedulesReconnect(s: PageState, h: Handle)
    requires Consistent(s) && h < |s.sockets|
    ensures var r := OnClose(s, h);
      && r.ws == None
      && r.sockets[h].readyState == Closed
      && r.currentWsInfo == s.currentWsInfo
      && r.timers == s.timers + (if s.currentWsInfo.Some? then [s.now + RECONNECT_DELAY] else [])
      && r.messageArea == s.messageArea + [MakeEntry(SENDER_SYSTEM, TEXT_CLOSED)]
           + (if s.currentWsInfo.Some? then [MakeEntry(SENDER_SYSTEM, TEXT_RECONNECTING)] else [])
      && r.transmitted == s.transmitted
  {
  }

  /** A reconnect timer reopens with the info saved when it fires. */
  lemma TimerReconnects(s: PageState)
    requires Consistent(s) && s.timers != []
    ensures var r := FireReconnect(s);
      && r.now == s.timers[0] && r.timers == s.timers[1..]
      && r.currentWsInfo == s.currentWsInfo
      && r.ws == Some(|s.sockets|)
      && r.sockets[|s.sockets|] == Socket(WsUrl(s.currentWsInfo.value), Connecting)
  {
    assert s.now <= s.timers[0];
  }

  /** A late close of a replaced socket nulls `ws` although it holds a newer,
      still connecting socket. */
  lemma LateCloseDropsNewSocket(s: PageState, info: WsInfo)
    requires Consistent(s) && s.ws.Some? && Live(s, s.ws.value)
    ensures var replaced := s.ws.value;
      var r := OnClose(ConnectWebSocket(s, info), replaced);
      && r.ws == None
      && Live(r, |s.sockets|)
  {
  }

  /** ... and the reconnect that close sets then opens a further socket while that
      newer one is still live: two live sockets coexist. */
  lemma LateCloseLeadsToTwoLiveSockets(s: PageState, info: WsInfo)
    requires Consistent(s) && s.ws.Some? && Live(s, s.ws.value) && s.timers == []
    ensures var replaced := s.ws.value;
      var r := FireReconnect(OnClose(ConnectWebSocket(s, info), replaced));
      && |r.sockets| == |s.sockets| + 2
      && Live(r, |s.sockets|) && Live(r, |s.sockets| + 1)
      && r.ws == Some(|s.sockets| + 1)
  {
    var replaced := s.ws.value;
    var s1 := ConnectWebSocket(s, info);
    var s2 := OnClose(s1, replaced);
    assert s2.timers == [s.now + RECONNECT_DELAY];
    assert s2.ws == None;
  }

  /** logout does not clear the connection info, so the close event of the socket
      it closed sets a reconnect, and the timer opens a new socket with the old
      token. */
  lemma LogoutDoesNotStopReconnect(s: PageState)
    requires Consistent(s) && s.ws.Some? && Live(s, s.ws.value) && s.currentWsInfo.Some? && s.timers == []
    ensures var h := s.ws.value;
      var afterClose := OnClose(Logout(s), h);
      && Logout(s).ws == None && Logout(s).currentWsInfo == s.currentWsInfo
      && afterClose.timers == [s.now + RECONNECT_DELAY]
      && FireReconnect(afterClose).ws == Some(|s.sockets|)
      && FireReconnect(afterClose).sockets[|s.sockets|].url == WsUrl(s.currentWsInfo.value)
  {
    var h := s.ws.value;
    var l := Logout(s);
    assert l.currentWsInfo == s.currentWsInfo && l.timers == [] && l.now == s.now;
    var c := OnClose(l, h);
    assert c.timers == [s.now + RECONNECT_DELAY];
    assert c.sockets == l.sockets[h := l.sockets[h].(readyState := Closed)];
    assert |c.sockets| == |s.sockets|;
  }

  /** Once connection info is saved, no event ever clears it again. */
  lemma InfoNeverClearedStep(s: PageState, e: Event)
    requires Consistent(s) && Enabled(s, e) && s.currentWsInfo.Some?
    ensures Step(s, e).currentWsInfo.Some?
  {
    match e
    case SocketMessage(h, data) =>
      match data {
        case TextData(_) =>
        case BinaryData(bytes) =>
          match Proto.DecodeMessage(bytes) {
            case Err(_) =>
            case Ok(m) =>
          }
      }
    case _ =>
  }

  lemma {:induction false} InfoNeverCleared(s: PageState, events: seq<Event>)
    requires Consistent(s) && s.currentWsInfo.Some?
    requires Run(s, events).Some?
    ensures Run(s, events).value.currentWsInfo.Some?
    decreases |events|
  {
    if events != [] {
      InfoNeverClearedStep(s, events[0]);
      InfoNeverCleared(Step(s, events[0]), events[1..]);
    }
  }

  /** Each event sets at most one timer; only a close event with info saved sets one. */
  lemma AtMostOneTimerPerEvent(s: PageState, e: Event)
    requires Consistent(s) && Enabled(s, e)
    ensures |Step(s, e).timers| <= |s.timers| + 1
    ensures |Step(s, e).timers| == |s.timers| + 1 <==> e.SocketClosed? && s.currentWsInfo.Some?
  {
    match e
    case SocketMessage(h, data) =>
      match data {
        case TextData(_) =>
        case BinaryData(bytes) =>
          match Proto.DecodeMessage(bytes) {
            case Err(_) =>
            case Ok(m) =>
          }
      }
    case SendByType(t, m, input) =>
    case SendFromInput(input) =>
    case _ =>
  }

  // ---------------------------------------------------------------------------
  // Properties of sending.

  /** Without a socket nothing is sent and exactly one error entry is appended. */
  lemma SendWithoutSocket(s: PageState, typeArg: Option<int>, messageArg: Option<string>, typeInput: Option<int>)
    requires Consistent(s) && s.ws.None?
    ensures SendMessageByType(s, typeArg, messageArg, typeInput)
         == s.(messageArea := s.messageArea + [MakeEntry(SENDER_ERROR, TEXT_NOT_CONNECTED)])
    ensures SendMessage(s, typeInput) == s.(messageArea := s.messageArea + [MakeEntry(SENDER_ERROR, TEXT_NOT_CONNECTED)])
  {
  }

  /** With empty content nothing is sent and the page is unchanged. */
  lemma SendEmptyContent(s: PageState, typeArg: Option<int>, messageArg: Option<string>, typeInput: Option<int>)
    requires Consistent(s) && s.ws.Some?
    requires (if messageArg.Some? then messageArg.value else s.messageInput) == ""
    ensures SendMessageByType(s, typeArg, messageArg, typeInput) == s
    ensures messageArg.None? ==> SendMessage(s, typeInput) == s
  {
  }

  /** On an open socket sendMessageByType transmits exactly encodeMessage(type,
      content), with the type argument taken as given and only the type box
      falling back to 1 on NaN or 0. */
  lemma SendByTypeTransmits(s: PageState, typeArg: Option<int>, messageArg: Option<string>, typeInput: Option<int>)
    requires Consistent(s) && s.ws.Some? && s.sockets[s.ws.value].readyState == Open
    requires (if messageArg.Some? then messageArg.value else s.messageInput) != ""
    ensures var r := SendMessageByType(s, typeArg, messageArg, typeInput);
      var msgType := if typeArg.Some? then typeArg.value else TypeOrDefault(typeInput);
      var content := if messageArg.Some? then messageArg.value else s.messageInput;
      && r.transmitted == s.transmitted + [Transmission(s.ws.value, Proto.FrameBytes(msgType, Utf8.Encode(content)))]
      && r.messageArea == s.messageArea
      && r.messageInput == (if messageArg.None? then "" else s.messageInput)
      && r.ws == s.ws && r.sockets == s.sockets && r.currentWsInfo == s.currentWsInfo
  {
  }

  /** sendMessage on an open socket transmits encodeMessage of the message box
      under the parsed type (1 for NaN or 0), echoes it and empties the box. */
  lemma SendMessageTransmits(s: PageState, typeInput: Option<int>)
    requires Consistent(s) && s.ws.Some? && s.sockets[s.ws.value].readyState == Open && s.messageInput != ""
    ensures var r := SendMessage(s, typeInput);
      && r.transmitted == s.transmitted
           + [Transmission(s.ws.value, Proto.FrameBytes(TypeOrDefault(typeInput), Utf8.Encode(s.messageInput)))]
      && r.messageArea == s.messageArea + [MakeEntry(SENDER_CLIENT, SentEcho(TypeOrDefault(typeInput), s.messageInput))]
      && r.messageInput == ""
      && r.ws == s.ws && r.sockets == s.sockets
  {
  }

  /** While the socket is still connecting, ws.send throws in both send functions;
      the error is reported, nothing is transmitted and the message box is kept. */
  lemma SendWhileConnecting(s: PageState, typeArg: Option<int>, messageArg: Option<string>, typeInput: Option<int>)
    requires Consistent(s) && s.ws.Some? && s.sockets[s.ws.value].readyState == Connecting
    requires (if messageArg.Some? then messageArg.value else s.messageInput) != ""
    ensures SendMessageByType(s, typeArg, messageArg, typeInput)
         == s.(messageArea := s.messageArea + [MakeEntry(SENDER_ERROR, TEXT_SEND_FAILED)])
    ensures s.messageInput != "" ==>
      SendMessage(s, typeInput) == s.(messageArea := s.messageArea + [MakeEntry(SENDER_ERROR, TEXT_SEND_FAILED)])
  {
  }

  /** Whatever the page does, a frame is only ever transmitted on the socket `ws`
      holds, and only while that socket is open. */
  lemma TransmitsOnlyOnOpenWs(s: PageState, e: Event)
    requires Consistent(s) && Enabled(s, e)
    requires |Step(s, e).transmitted| > |s.transmitted|
    ensures e.SendByType? || e.SendFromInput?
    ensures |Step(s, e).transmitted| == |s.transmitted| + 1
    ensures s.ws.Some? && s.sockets[s.ws.value].readyState == Open
    ensures Step(s, e).transmitted[..|s.transmitted|] == s.transmitted
    ensures Step(s, e).transmitted[|s.transmitted|].socket == s.ws.value
  {
    match e
    case SocketMessage(h, data) =>
      match data {
        case TextData(_) =>
        case BinaryData(bytes) =>
          match Proto.DecodeMessage(bytes) {
            case Err(_) =>
            case Ok(m) =>
          }
      }
    case _ =>
  }

  // ---------------------------------------------------------------------------
  // Properties of inbound messages.

  /** A KICK_OUT message with a socket set closes it and logs out: `ws` and the
      user become null and the message area is emptied, the text just appended
      included; the connection info stays. */
  lemma KickOutLogsOut(s: PageState, text: string)
    requires Consistent(s) && s.ws.Some?
    ensures var c := HandleServerMessage(s, Proto.Message(KICK_OUT, text));
      && c.Normal?
      && c.state.ws == None && c.state.currentUser == None && c.state.messageArea == []
      && !Live(c.state, s.ws.value)
      && c.state.currentWsInfo == s.currentWsInfo
      && c.state == Logout(CloseSocket(AppendMessage(s, SENDER_SYSTEM, text), s.ws.value))
  {
  }

  /** A KICK_OUT message while `ws` is null (after a late close) throws at
      ws.close(): the text stays shown, logout does not run, and onmessage reports
      the error. */
  lemma KickOutWithoutSocket(s: PageState, h: Handle, text: string)
    requires Consistent(s) && s.ws.None? && |Utf8.Encode(text)| < TWO_31
    ensures OnMessage(s, h, BinaryData(Proto.FrameBytes(KICK_OUT, Utf8.Encode(text))))
         == s.(messageArea := s.messageArea + [MakeEntry(SENDER_SYSTEM, Utf8.Decode(Utf8.Encode(text))),
                                               MakeEntry(SENDER_ERROR, TEXT_UNPROCESSABLE)])
  {
    Proto.ReadFrameBytes(KICK_OUT, Utf8.Encode(text), []);
    assert Proto.FrameBytes(KICK_OUT, Utf8.Encode(text)) + [] == Proto.FrameBytes(KICK_OUT, Utf8.Encode(text));
  }

  /** Every other type falls to the default branch: it never throws and appends one
      server entry naming the type and the text; nothing else changes. */
  lemma DefaultBranch(s: PageState, m: Proto.Message)
    requires Consistent(s) && m.msgType != KICK_OUT
    ensures HandleServerMessage(s, m)
         == Normal(s.(messageArea := s.messageArea
              + [MakeEntry(SENDER_SERVER, "未知类型消息: " + IntToDecimal(m.msgType) + ", 内容: " + m.message)]))
  {
  }

  /** A frame that cannot be decoded is reported and the connection is kept: the
      globals, the sockets and the timers are as before. */
  lemma UndecodableFrameKeepsConnection(s: PageState, h: Handle, bytes: seq<byte>)
    requires Consistent(s) && Proto.DecodeMessage(bytes).Err?
    ensures OnMessage(s, h, BinaryData(bytes))
         == s.(messageArea := s.messageArea + [MakeEntry(SENDER_ERROR, TEXT_UNPROCESSABLE)])
  {
  }

  /** Text data is shown verbatim under the server sender. */
  lemma TextDataShownVerbatim(s: PageState, h: Handle, text: string)
    requires Consistent(s)
    ensures OnMessage(s, h, TextData(text)).messageArea == s.messageArea + [MakeEntry(SENDER_SERVER, text)]
    ensures OnMessage(s, h, TextData(text)).messageArea[|s.messageArea|].text == SENDER_SERVER + ": " + text
  {
  }

  /** No inbound message other than a KICK_OUT with a socket set changes `ws`,
      the saved info or the sockets. */
  lemma InboundKeepsConnection(s: PageState, h: Handle, data: Data)
    requires Consistent(s)
    requires !(data.BinaryData? && Proto.DecodeMessage(data.bytes).Ok?
               && Proto.DecodeMessage(data.bytes).value.msgType == KICK_OUT && s.ws.Some?)
    ensures OnMessage(s, h, data).ws == s.ws
    ensures OnMessage(s, h, data).currentWsInfo == s.currentWsInfo
    ensures OnMessage(s, h, data).sockets == s.sockets
    ensures OnMessage(s, h, data).timers == s.timers
    ensures |OnMessage(s, h, data).messageArea| > |s.messageArea|
  {
  }

  // ---------------------------------------------------------------------------
  // Properties of the session glue.

  /** A 200 response connects with its message as token and the fixed endpoint; any
      other code shows the message as an error and connects nothing. */
  lemma LoginResponseConnects(s: PageState, response: Proto.AuthResponse)
    requires Consistent(s)
    ensures var r := HandleLoginResponse(s, response);
      && (response.code == STATUS_OK ==>
            && r.currentWsInfo == Some(WsInfo(response.message, WS_HOST))
            && r.ws == Some(|s.sockets|)
            && r.sockets[|s.sockets|].url == WS_HOST + "?token=" + response.message
            && r.messageArea[|r.messageArea| - 1] == MakeEntry(SENDER_SYSTEM, TEXT_LOGGED_IN))
      && (response.code != STATUS_OK ==>
            r == s.(messageArea := s.messageArea + [MakeEntry(SENDER_ERROR, response.message)]))
  {
  }

  /** Register posts nothing when the passwords differ; otherwise it posts the
      user name and password under type 1, where login uses type 2. */
  lemma RequestTypes(username: string, password: string, confirmPassword: string)
    requires |Utf8.Encode(Proto.AuthText(username, password))| < TWO_31
    ensures RegisterBody(username, password, confirmPassword).None? <==> password != confirmPassword
    ensures password == confirmPassword ==>
      Proto.ReadFrame(RegisterBody(username, password, confirmPassword).value).Ok? &&
      Proto.ReadFrame(RegisterBody(username, password, confirmPassword).value).value.code == 1
    ensures Proto.ReadFrame(LoginBody(username, password)).Ok? &&
      Proto.ReadFrame(LoginBody(username, password)).value.code == 2
    ensures password == confirmPassword ==>
      RegisterBody(username, password, confirmPassword).value[8..] == LoginBody(username, password)[8..]
  {
    var payload := Utf8.Encode(Proto.AuthText(username, password));
    Proto.ReadFrameBytes(LOGIN_TYPE, payload, []);
    Proto.ReadFrameBytes(REGISTER_TYPE, payload, []);
    assert LoginBody(username, password) + [] == LoginBody(username, password);
    assert Proto.FrameBytes(REGISTER_TYPE, payload) + [] == Proto.FrameBytes(REGISTER_TYPE, payload);
  }

  /** logout leaves `ws` and the user null and the message area empty, closes the
      socket it dropped, and touches neither the info nor the timers. */
  lemma LogoutClears(s: PageState)
    requires Consistent(s)
    ensures var r := Logout(s);
      && r.ws == None && r.currentUser == None && r.messageArea == []
      && r.currentWsInfo == s.currentWsInfo && r.timers == s.timers
      && (s.ws.Some? ==> !Live(r, s.ws.value))
      && |r.sockets| == |s.sockets|
  {
  }
}
