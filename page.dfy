/** The page's globals as one object, with the handlers of
    robot/client/js/websocket.js and robot/client/js/ui.js as methods that update
    them in place. Each method is proved to do what the matching function of module
    Client specifies. An exception in the source is a `threw` result here. */
module Session {
  import opened Wrappers
  import opened Bytes
  import opened Ui
  import opened Client
  import Utf8
  import Proto

  class Page {
    var ws: Option<Handle>
    var currentWsInfo: Option<WsInfo>
    var currentUser: Option<string>
    var messageArea: seq<Entry>
    var messageInput: string
    var sockets: seq<Socket>
    var transmitted: seq<Transmission>
    var timers: seq<int>
    var now: int
    var alerts: seq<string>

    /** The value of all globals. */
    function State(): PageState
      reads this
    {
      PageState(ws, currentWsInfo, currentUser, messageArea, messageInput,
                sockets, transmitted, timers, now, alerts)
    }

    predicate Valid()
      reads this
    {
      Consistent(State())
    }

    /** The page as it loads. */
    constructor ()
      ensures Valid() && State() == INITIAL
    {
      ws, currentWsInfo, currentUser := None, None, None;
      messageArea, messageInput := [], "";
      sockets, transmitted, timers, now, alerts := [], [], [], 0, [];
    }

    /** appendMessage(sender, message). */
    method AppendMessage(sender: string, message: string)
      requires Valid()
      modifies this
      ensures Valid() && State() == Client.AppendMessage(old(State()), sender, message)
    {
      var div := MakeEntry(sender, message);
      messageArea := messageArea + [div];
    }

    /** ws.close() on socket h. */
    method CloseSocket(h: Handle)
      requires Valid() && h < |sockets|
      modifies this
      ensures Valid() && State() == Client.CloseSocket(old(State()), h)
    {
      if sockets[h].readyState in {Connecting, Open} {
        sockets := sockets[h := sockets[h].(readyState := Closing)];
      }
    }

    /** connectWebSocket(info). */
    method ConnectWebSocket(info: WsInfo)
      requires Valid()
      modifies this
      ensures Valid() && State() == Client.ConnectWebSocket(old(State()), info)
    {
      ConnectConsistent(State(), info);
      if ws.Some? {
        CloseSocket(ws.value);
      }
      currentWsInfo := Some(info);
      var wsUrl := info.wsHost + "?token=" + info.token;
      var h := |sockets|;
      sockets := sockets + [Socket(wsUrl, Connecting)];
      ws := Some(h);
    }

    /** ws.onopen of socket h. */
    method OnOpen(h: Handle)
      requires Valid() && h < |sockets|
      modifies this
      ensures Valid() && State() == Client.OnOpen(old(State()), h)
    {
      sockets := sockets[h := sockets[h].(readyState := Open)];
      AppendMessage(SENDER_SYSTEM, TEXT_OPENED);
    }

    /** ws.onerror of socket h. */
    method OnError(h: Handle)
      requires Valid()
      modifies this
      ensures Valid() && State() == Client.OnError(old(State()), h)
    {
      AppendMessage(SENDER_SYSTEM, TEXT_SOCKET_ERROR);
    }

    /** ws.onclose of socket h. */
    method OnClose(h: Handle)
      requires Valid() && h < |sockets|
      modifies this
      ensures Valid() && State() == Client.OnClose(old(State()), h)
    {
      OnCloseConsistent(State(), h);
      sockets := sockets[h := sockets[h].(readyState := Closed)];
      AppendMessage(SENDER_SYSTEM, TEXT_CLOSED);
      ws := None;
      if currentWsInfo.Some? {
        AppendMessage(SENDER_SYSTEM, TEXT_RECONNECTING);
        timers := timers + [now + RECONNECT_DELAY];
      }
    }

    /** The first pending setTimeout callback: () => connectWebSocket(currentWsInfo). */
    method FireReconnect()
      requires Valid() && timers != []
      modifies this
      ensures Valid() && State() == Client.FireReconnect(old(State()))
    {
      FireReconnectConsistent(State());
      if timers[0] > now {
        now := timers[0];
      }
      timers := timers[1..];
      ConnectWebSocket(currentWsInfo.value);
    }

    /** logout(). */
    method Logout()
      requires Valid()
      modifies this
      ensures Valid() && State() == Client.Logout(old(State()))
    {
      if ws.Some? {
        CloseSocket(ws.value);
        ws := None;
      }
      currentUser := None;
      messageArea := [];
    }

    /** handleServerMessage(message); `threw` when it throws. */
    method HandleServerMessage(m: Proto.Message) returns (threw: bool)
      requires Valid()
      modifies this
      ensures Valid()
      ensures State() == Client.HandleServerMessage(old(State()), m).state
      ensures threw == Client.HandleServerMessage(old(State()), m).Threw?
    {
      threw := false;
      if m.msgType == KICK_OUT {
        AppendMessage(SENDER_SYSTEM, m.message);
        if ws.None? {
          threw := true;
          return;
        }
        CloseSocket(ws.value);
        Logout();
      } else {
        AppendMessage(SENDER_SERVER, "未知类型消息: " + Text.IntToDecimal(m.msgType) + ", 内容: " + m.message);
      }
    }

    /** ws.onmessage of socket h. */
    method OnMessage(h: Handle, data: Data)
      requires Valid()
      modifies this
      ensures Valid() && State() == Client.OnMessage(old(State()), h, data)
    {
      match data {
        case TextData(text) =>
          AppendMessage(SENDER_SERVER, text);
        case BinaryData(bytes) =>
          var decoded := Proto.DecodeMessage(bytes);
          if decoded.Err? {
            AppendMessage(SENDER_ERROR, TEXT_UNPROCESSABLE);
          } else {
            var threw := HandleServerMessage(decoded.value);
            if threw {
              AppendMessage(SENDER_ERROR, TEXT_UNPROCESSABLE);
            }
          }
      }
    }

    /** ws.send(data) on socket h; `threw` when it throws. */
    method Transmit(h: Handle, data: seq<byte>) returns (threw: bool)
      requires Valid() && h < |sockets|
      modifies this
      ensures Valid()
      ensures State() == Client.Transmit(old(State()), h, data).state
      ensures threw == Client.Transmit(old(State()), h, data).Threw?
    {
      TransmitConsistent(State(), h, data);
      threw := false;
      match sockets[h].readyState {
        case Connecting => threw := true;
        case Open => transmitted := transmitted + [Transmission(h, data)];
        case _ =>
      }
    }

    /** sendMessageByType(type, message); None stands for an argument left undefined,
        and typeInput for what parseInt reads from the type box. */
    method SendMessageByType(typeArg: Option<int>, messageArg: Option<string>, typeInput: Option<int>)
      requires Valid()
      modifies this
      ensures Valid() && State() == Client.SendMessageByType(old(State()), typeArg, messageArg, typeInput)
    {
      if ws.None? {
        AppendMessage(SENDER_ERROR, TEXT_NOT_CONNECTED);
        return;
      }
      var msgType := if typeArg.Some? then typeArg.value else TypeOrDefault(typeInput);
      var msgContent := if messageArg.Some? then messageArg.value else messageInput;
      if msgContent != "" {
        var buffer := Proto.EncodeMessage(msgType, msgContent);
        var threw := Transmit(ws.value, buffer[..]);
        if threw {
          AppendMessage(SENDER_ERROR, TEXT_SEND_FAILED);
        } else if messageArg.None? {
          messageInput := "";
        }
      }
    }

    /** sendMessage(). */
    method SendMessage(typeInput: Option<int>)
      requires Valid()
      modifies this
      ensures Valid() && State() == Client.SendMessage(old(State()), typeInput)
    {
      if ws.None? {
        AppendMessage(SENDER_ERROR, TEXT_NOT_CONNECTED);
        return;
      }
      var msgType := TypeOrDefault(typeInput);
      var message := messageInput;
      if message != "" {
        var buffer := Proto.EncodeMessage(msgType, message);
        var threw := Transmit(ws.value, buffer[..]);
        if threw {
          AppendMessage(SENDER_ERROR, TEXT_SEND_FAILED);
        } else {
          AppendMessage(SENDER_CLIENT, SentEcho(msgType, message));
          messageInput := "";
        }
      }
    }

    /** The user types into the message box. */
    method SetMessageInput(text: string)
      requires Valid()
      modifies this
      ensures Valid() && State() == old(State()).(messageInput := text)
    {
      messageInput := text;
    }

    /** handleLoginResponse(response). */
    method HandleLoginResponse(response: Proto.AuthResponse)
      requires Valid()
      modifies this
      ensures Valid() && State() == Client.HandleLoginResponse(old(State()), response)
    {
      if response.code == STATUS_OK {
        var wsInfo := WsInfo(response.message, WS_HOST);
        ConnectWebSocket(wsInfo);
        AppendMessage(SENDER_SYSTEM, TEXT_LOGGED_IN);
      } else {
        AppendMessage(SENDER_ERROR, response.message);
      }
    }

    /** register() up to the request: on a password mismatch it alerts and returns
        before encoding; otherwise `body` is what it posts. */
    method Register(username: string, password: string, confirmPassword: string)
      returns (body: Option<seq<byte>>)
      requires Valid()
      modifies this
      ensures Valid()
      ensures body == RegisterBody(username, password, confirmPassword)
      ensures State() == if password != confirmPassword
                         then old(State()).(alerts := old(alerts) + [TEXT_PASSWORD_MISMATCH])
                         else old(State())
    {
      if password != confirmPassword {
        alerts := alerts + [TEXT_PASSWORD_MISMATCH];
        return None;
      }
      var buffer := Proto.EncodeSprotoAuth(REGISTER_TYPE, username, password);
      body := Some(buffer[..]);
    }
  }

  /** login() up to the request: the body it posts. */
  method Login(username: string, password: string) returns (body: seq<byte>)
    ensures body == LoginBody(username, password)
  {
    var buffer := Proto.EncodeSprotoAuth(LOGIN_TYPE, username, password);
    body := buffer[..];
  }

  /** The first steps of a session: login, socket open, a message sent, then the
      server kicking the user out; afterwards the socket is closing, the page is
      logged out and the token is still saved. */
  method KickedOutSession(token: string, text: string, kick: string) returns (page: Page)
    requires text != "" && |Utf8.Encode(kick)| < TWO_31
    ensures page.Valid()
    ensures page.ws == None && page.currentUser == None && page.messageArea == []
    ensures page.transmitted == [Transmission(0, Proto.FrameBytes(1, Utf8.Encode(text)))]
    ensures |page.sockets| == 1 && page.sockets[0].readyState == Closing
    ensures page.currentWsInfo == Some(WsInfo(token, WS_HOST))
  {
    page := new Page();
    page.HandleLoginResponse(Proto.AuthResponse(STATUS_OK, token));
    assert page.ws == Some(0);
    page.OnOpen(0);
    page.SetMessageInput(text);
    page.SendMessage(None);
    assert page.transmitted == [Transmission(0, Proto.FrameBytes(1, Utf8.Encode(text)))];
    Proto.ReadFrameBytes(KICK_OUT, Utf8.Encode(kick), []);
    assert Proto.FrameBytes(KICK_OUT, Utf8.Encode(kick)) + [] == Proto.FrameBytes(KICK_OUT, Utf8.Encode(kick));
    page.OnMessage(0, BinaryData(Proto.FrameBytes(KICK_OUT, Utf8.Encode(kick))));
  }
}
