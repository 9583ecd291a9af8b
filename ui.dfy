/** The pure rules of robot/client/js/ui.js: how appendMessage builds and styles a
    message entry, and the constants of the login and register requests. The page
    state these rules act on is in module Client. */
module Ui {
  import opened Text

  /** The senders the client writes into the message area. */
  const SENDER_SERVER: string := "服务器"
  const SENDER_SYSTEM: string := "系统"
  const SENDER_ERROR: string := "错误"
  const SENDER_CLIENT: string := "客户端"

  const CLASS_ROBOT_STATUS: string := "message robot-status"
  const CLASS_ROBOT_MESSAGE: string := "message robot-message"

  /** The code of an accepted login in the status word of the response. */
  const STATUS_OK: int := 200
  /** The request types login and register put in the frame header. */
  const LOGIN_TYPE: int := 2
  const REGISTER_TYPE: int := 1
  /** The WebSocket endpoint handleLoginResponse connects to. */
  const WS_HOST: string := "ws://192.168.3.43:9948/test_websocket"

  /** One div of the message area: its text content and its class name. */
  datatype Entry = Entry(text: string, className: string)

  /** A robot reports a change of state with one of these words. */
  predicate IsRobotStatus(message: string) {
    Includes(message, "sleeping") || Includes(message, "woke up") || Includes(message, "stopped")
  }

  predicate IsRobotText(sender: string, message: string) {
    sender == SENDER_SERVER && Includes(message, "robot")
  }

  /** The class appendMessage gives the div. */
  function MessageClass(sender: string, message: string): string {
    if IsRobotText(sender, message) then
      if IsRobotStatus(message) then CLASS_ROBOT_STATUS else CLASS_ROBOT_MESSAGE
    else "message " + ToLower(sender)
  }

  /** The div appendMessage(sender, message) appends: text `${sender}: ${message}`. */
  function MakeEntry(sender: string, message: string): Entry {
    Entry(sender + ": " + message, MessageClass(sender, message))
  }

  /** The three ways an entry is styled: a server text about a robot that reports
      sleeping, waking up or stopping; any other server text about a robot; and
      everything else, styled after the sender. Every class is a "message" class. */
  lemma MessageClassCases(sender: string, message: string)
    ensures IsRobotText(sender, message) && IsRobotStatus(message) ==>
      MessageClass(sender, message) == CLASS_ROBOT_STATUS
    ensures IsRobotText(sender, message) && !IsRobotStatus(message) ==>
      MessageClass(sender, message) == CLASS_ROBOT_MESSAGE
    ensures !IsRobotText(sender, message) ==>
      MessageClass(sender, message) == "message " + ToLower(sender)
    ensures MessageClass(sender, message)[..8] == "message "
  {
  }

  /** Only the server sender gets the robot classes: no other sender's text is
      looked at. */
  lemma OtherSendersByName(sender: string, message: string, other: string)
    requires sender != SENDER_SERVER
    ensures MessageClass(sender, message) == MessageClass(sender, other)
  {
  }

  /** A robot status text and a plain robot text from the server, concretely. */
  lemma RobotStatusExample()
    ensures MessageClass(SENDER_SERVER, "robot 7 woke up") == CLASS_ROBOT_STATUS
  {
    IncludesConcat("", "robot", " 7 woke up");
    assert "robot 7 woke up" == "" + "robot" + " 7 woke up";
    IncludesConcat("robot 7 ", "woke up", "");
    assert "robot 7 woke up" == "robot 7 " + "woke up" + "";
  }

  lemma RobotMessageExample()
    ensures MessageClass(SENDER_SERVER, "robot 7 moved") == CLASS_ROBOT_MESSAGE
  {
    var m := "robot 7 moved";
    IncludesConcat("", "robot", " 7 moved");
    assert m == "" + "robot" + " 7 moved";
    MissingFirstChar(m, "sleeping");
    MissingFirstChar(m, "woke up");
    MissingFirstChar(m, "stopped");
  }
}
