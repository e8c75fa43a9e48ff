/**
 * The state of the chat client's `App` component: the `ChatState` record
 * held by `useState`, the three text inputs, and a log of the effects the
 * handlers have on the outside world (sockets constructed, frames sent,
 * sockets closed).
 */
module ChatModel {
  import opened JsString

  datatype Option<T> = None | Some(value: T)

  /** A WebSocket is named by its position in the construction log. */
  type SocketId = nat

  /** Room identifiers are opaque strings. */
  type RoomId = string

  /** One entry of the message log. `timestamp` is optional in the
      record type; the client fills it in on receipt. */
  datatype Message = Message(username: string, message: string, timestamp: Option<int>)

  /** The record behind `chatState`. */
  datatype ChatState = ChatState(
    socket: Option<SocketId>,
    roomId: Option<RoomId>,
    isConnected: bool,
    messages: seq<Message>)

  /** The value `chatState` starts with, and the one `leaveRoom` restores. */
  const Initial: ChatState := ChatState(None, None, false, [])

  /** The outbound frame `{username, message, room_id}`; `room_id` is
      JSON `null` when the client has no room. */
  datatype Frame = Frame(username: string, message: string, roomId: Option<RoomId>)

  /** One call of `socket.send`: the socket it went out on and the frame. */
  datatype Outbound = Outbound(socket: SocketId, frame: Frame)

  /** The whole client: chat state, input fields, and effect logs.
      `sockets[k]` is the room socket `k` was opened for, which is also the
      room its `onopen` handler captured. */
  datatype App = App(
    chat: ChatState,
    username: string,
    messageInput: string,
    roomInput: string,
    sockets: seq<RoomId>,
    sent: seq<Outbound>,
    closed: seq<SocketId>)

  /** The client when the page loads: every input empty, nothing done yet. */
  const Start: App := App(Initial, "", "", "", [], [], [])

  /** A frame as `sendMessage` builds it: a non-empty sender name and a
      body that is already trimmed and not blank. */
  predicate WellFormedFrame(f: Frame) {
    && f.username != []
    && f.message != []
    && Trim(f.message) == f.message
  }

  /** Facts every reachable client state satisfies:
      - `isConnected` is true exactly when a socket is held;
      - a held socket is one that was constructed, and `roomId` is the
        room that socket was opened for;
      - every log entry carries its receipt timestamp;
      - every frame sent is well formed, went out on a constructed socket
        and names the room that socket was opened for. */
  predicate Consistent(a: App) {
    && (a.chat.isConnected <==> a.chat.socket.Some?)
    && (a.chat.socket.Some? ==>
          && a.chat.socket.value < |a.sockets|
          && a.chat.roomId == Some(a.sockets[a.chat.socket.value]))
    && (forall k :: 0 <= k < |a.chat.messages| ==> a.chat.messages[k].timestamp.Some?)
    && (forall k :: 0 <= k < |a.sent| ==> SentOk(a.sockets, a.sent[k]))
  }

  /** A sent frame is well formed and names the room of the socket it
      went out on. */
  predicate SentOk(sockets: seq<RoomId>, o: Outbound) {
    && o.socket < |sockets|
    && o.frame.roomId == Some(sockets[o.socket])
    && WellFormedFrame(o.frame)
  }
}
