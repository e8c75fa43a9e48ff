/**
 * The handlers of the `App` component, one function each. Every handler
 * maps the client state before the event to the state after it, the way
 * React's functional updater `prev => next` does; effects on the outside
 * world (constructing, using and closing sockets) are appended to the
 * effect logs of `App`.
 */
module Handlers {
  import opened JsString
  import opened ChatModel

  /** The sender name used when the name field is the empty string. */
  const Anonymous: string := "Anonymous"

  /** `enterRoom(room)`: constructs a socket for `room` under the next free
      id and installs its handlers. The chat state only changes when that
      socket's own events arrive; a socket held from before is neither
      closed nor dropped. */
  function EnterRoom(a: App, room: RoomId): (r: App)
    ensures |r.sockets| == |a.sockets| + 1
    ensures r.sockets[..|a.sockets|] == a.sockets
    ensures r.sockets[|a.sockets|] == room
    ensures r.(sockets := a.sockets) == a
  {
    a.(sockets := a.sockets + [room])
  }

  /** `createRoom()`: enters the room named by a freshly generated id; the
      generator's output is a parameter. */
  function CreateRoom(a: App, generated: RoomId): (r: App)
    ensures |r.sockets| == |a.sockets| + 1
    ensures r.sockets[..|a.sockets|] == a.sockets
    ensures r.sockets[|a.sockets|] == generated
    ensures r.(sockets := a.sockets) == a
  {
    EnterRoom(a, generated)
  }

  /** `joinRoom()`: a room field that trims to nothing starts no connection
      and changes nothing; otherwise exactly one socket is constructed, for
      the trimmed room id, which is then neither blank nor surrounded by
      white space. */
  function JoinRoom(a: App): (r: App)
    ensures IsBlank(a.roomInput) <==> r == a
    ensures !IsBlank(a.roomInput) ==>
      && |r.sockets| == |a.sockets| + 1
      && r.sockets[..|a.sockets|] == a.sockets
      && r.sockets[|a.sockets|] == Trim(a.roomInput)
      && !IsBlank(r.sockets[|a.sockets|])
      && Trim(r.sockets[|a.sockets|]) == r.sockets[|a.sockets|]
      && r.(sockets := a.sockets) == a
  {
    if IsBlank(a.roomInput) then
      a
    else
      TrimIdempotent(a.roomInput);
      EnterRoom(a, Trim(a.roomInput))
  }

  /** `socket.onopen` of socket `s`: the client now holds `s`, is in the
      room `s` was opened for, is connected, and starts an empty log. The
      input fields and the effect logs are untouched. */
  function OnOpen(a: App, s: SocketId): (r: App)
    requires s < |a.sockets|
    ensures r.chat.socket == Some(s)
    ensures r.chat.roomId == Some(a.sockets[s])
    ensures r.chat.isConnected
    ensures r.chat.messages == []
    ensures r.(chat := a.chat) == a
  {
    a.(chat := a.chat.(socket := Some(s), roomId := Some(a.sockets[s]), isConnected := true, messages := []))
  }

  /** `socket.onmessage`: `decoded` is the result of `JSON.parse`, `None`
      when it throws, and `now` is `Date.now()`. A decoded message is
      appended at the end of the log, stamped with `now` (any timestamp
      the frame carried is overwritten); earlier entries keep their values
      and order, and nothing else changes. A decode failure aborts the
      handler before the update, so nothing changes at all. */
  function OnMessage(a: App, decoded: Option<Message>, now: int): (r: App)
    ensures decoded.None? ==> r == a
    ensures decoded.Some? ==>
      && |r.chat.messages| == |a.chat.messages| + 1
      && r.chat.messages[..|a.chat.messages|] == a.chat.messages
      && r.chat.messages[|a.chat.messages|].username == decoded.value.username
      && r.chat.messages[|a.chat.messages|].message == decoded.value.message
      && r.chat.messages[|a.chat.messages|].timestamp == Some(now)
      && r.(chat := r.chat.(messages := a.chat.messages)) == a
  {
    match decoded
    case None => a
    case Some(msg) =>
      a.(chat := a.chat.(messages := a.chat.messages + [msg.(timestamp := Some(now))]))
  }

  /** `socket.onclose`, whichever socket it comes from: the socket is
      dropped and the client is disconnected, but the room id and the
      message log are kept exactly as they were. */
  function OnClose(a: App): (r: App)
    ensures r.chat.socket.None?
    ensures !r.chat.isConnected
    ensures r.chat.roomId == a.chat.roomId
    ensures r.chat.messages == a.chat.messages
    ensures r.(chat := a.chat) == a
  {
    a.(chat := a.chat.(socket := None, isConnected := false))
  }

  /** The frame `sendMessage` puts on the wire for the current inputs:
      the name, or "Anonymous" for the empty name only; the trimmed
      message; the current room id. Its sender name is never empty, and
      when the message field is not blank the frame is well formed. */
  function OutboundFrame(a: App): (f: Frame)
    ensures a.username != [] ==> f.username == a.username
    ensures a.username == [] ==> f.username == Anonymous
    ensures f.message == Trim(a.messageInput)
    ensures f.roomId == a.chat.roomId
    ensures !IsBlank(a.messageInput) ==> WellFormedFrame(f)
  {
    TrimIdempotent(a.messageInput);
    Frame(if a.username == [] then Anonymous else a.username, Trim(a.messageInput), a.chat.roomId)
  }

  /** `sendMessage()`: when the message field trims to nothing or no socket
      is held, nothing is sent and nothing changes. Otherwise exactly one
      frame goes out on the held socket, carrying the name (or "Anonymous"
      for the empty name; a blank name is sent as it is), the trimmed
      message and the current room id, and the message field is cleared.
      The sent message is not added to the log. */
  function SendMessage(a: App): (r: App)
    ensures IsBlank(a.messageInput) || a.chat.socket.None? <==> r == a
    ensures !IsBlank(a.messageInput) && a.chat.socket.Some? ==>
      && |r.sent| == |a.sent| + 1
      && r.sent[..|a.sent|] == a.sent
      && r.sent[|a.sent|].socket == a.chat.socket.value
      && (a.username != [] ==> r.sent[|a.sent|].frame.username == a.username)
      && (a.username == [] ==> r.sent[|a.sent|].frame.username == Anonymous)
      && r.sent[|a.sent|].frame.message == Trim(a.messageInput)
      && r.sent[|a.sent|].frame.roomId == a.chat.roomId
      && WellFormedFrame(r.sent[|a.sent|].frame)
      && r.messageInput == []
      && r.(sent := a.sent, messageInput := a.messageInput) == a
  {
    if IsBlank(a.messageInput) || a.chat.socket.None? then
      a
    else
      a.(sent := a.sent + [Outbound(a.chat.socket.value, OutboundFrame(a))], messageInput := [])
  }

  /** `handleKeyPress`: Enter without Shift sends when connected and joins
      otherwise; every other key, and Shift+Enter, changes nothing. */
  function HandleKeyPress(a: App, key: string, shift: bool): (r: App)
    ensures key != "Enter" || shift ==> r == a
    ensures key == "Enter" && !shift && a.chat.isConnected ==> r == SendMessage(a)
    ensures key == "Enter" && !shift && !a.chat.isConnected ==> r == JoinRoom(a)
  {
    if key == "Enter" && !shift then
      if a.chat.isConnected then SendMessage(a) else JoinRoom(a)
    else
      a
  }

  /** `leaveRoom()`: closes the held socket, if any, and restores the
      initial chat state and an empty room field, whatever the state was
      before; the name and message fields are kept. */
  function LeaveRoom(a: App): (r: App)
    ensures r.chat == Initial
    ensures r.roomInput == []
    ensures r.username == a.username && r.messageInput == a.messageInput
    ensures r.sockets == a.sockets && r.sent == a.sent
    ensures a.chat.socket.Some? ==> r.closed == a.closed + [a.chat.socket.value]
    ensures a.chat.socket.None? ==> r.closed == a.closed
  {
    var closed := if a.chat.socket.Some? then a.closed + [a.chat.socket.value] else a.closed;
    a.(chat := Initial, roomInput := [], closed := closed)
  }

  /** Leaving twice is the same as leaving once: the second call finds no
      socket to close and restores a state that is already initial. */
  lemma LeaveRoomIdempotent(a: App)
    ensures LeaveRoom(LeaveRoom(a)) == LeaveRoom(a)
  {
  }

  /** A close event arriving after `leaveRoom` (the one its own `close()`
      provokes, say) leaves the initial chat state in place. */
  lemma CloseAfterLeaveKeepsInitial(a: App)
    ensures OnClose(LeaveRoom(a)).chat == Initial
    ensures OnClose(LeaveRoom(a)) == LeaveRoom(a)
  {
  }

  /** A second close event changes nothing. */
  lemma OnCloseIdempotent(a: App)
    ensures OnClose(OnClose(a)) == OnClose(a)
  {
  }
}
