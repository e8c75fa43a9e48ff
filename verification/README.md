# Chat-session state machine of the room chat client

The client (`src/App.tsx`) joins a chat room over a WebSocket and exchanges
text messages with the other members of that room. Its session logic is a
handful of handlers over one record, `ChatState` (the socket held, the room
id, a connected flag and the message log), plus the three text inputs (name,
message, room id). Each handler runs alone on the single event thread and
changes the record through a functional updater `prev => next` or a full
replacement.

This project states that logic in Dafny:

- `js_string.dfy`, module `JsString`: JavaScript's `String.prototype.trim`
  over the white-space and line-terminator code points of ECMA-262
  (sections 12.2 and 12.3), and the blank test `!s.trim()`.
- `chat_model.dfy`, module `ChatModel`: `Message`, `ChatState`, the outbound
  `Frame`, the whole client `App` (chat state, inputs and effect logs), and
  the invariant `Consistent` every reachable state satisfies.
- `handlers.dfy`, module `Handlers`: one pure function per handler —
  `enterRoom`, its socket's `onopen`/`onmessage`/`onclose`, `createRoom`,
  `joinRoom`, `sendMessage`, `handleKeyPress`, `leaveRoom`.
- `session.dfy`, module `Session`: the `Event` stream, `Step`, `Run`, and the
  lemmas over event sequences.

Effects on the outside world are logs in `App`: `sockets` (each constructed
WebSocket, named by its index, with the room it was opened for — the room its
`onopen` handler captured), `sent` (each `socket.send`) and `closed` (each
`socket.close()`). An inbound frame arrives already decoded, as
`Option<Message>` (`None` when `JSON.parse` throws), and `Date.now()` arrives
as a parameter of the event.

Behaviour of the code that a reader might expect to be otherwise:

- `onclose` drops the socket and the connected flag only; the room id and the
  log stay (`Handlers.OnClose`).
- There is no Connecting or Closed state: the code has the boolean
  `isConnected`, false both before `onopen` and after `onclose`.
- `enterRoom` never closes an earlier socket. Joining twice before the first
  socket opens leaves two live sockets, and messages from the first still
  reach the log of the second room (`Session.StaleSocketScenario`).
- `onclose` of any socket, even a stale one, disconnects the client.
- The "Anonymous" fallback applies only to the empty name; a name of spaces
  is sent as it is.
- `onerror` changes no state.

## Model

| member | source | states |
|---|---|---|
| `JsString.Trim` | src/App.tsx:49-53 | `roomInput.trim()` (and `messageInput.trim()` at lines 94 and 98) is never longer than its input and, when not empty, neither starts nor ends with white space |
| `JsString.TrimIsUniqueSlice` | src/App.tsx:53 | the trimmed room/message text is the one slice of the input with only white space outside it and non-white-space at both ends |
| `JsString.TrimIsWsBoundedSlice` | src/App.tsx:98 | trimming only removes white space, from the two ends |
| `JsString.BlankIffAllWs` | src/App.tsx:49 | `IsBlank`, the guard `!s.trim()` of `joinRoom` and of `sendMessage` (line 94), holds exactly when the input is white space only (including the empty input) |
| `JsString.TrimIdempotent` | src/App.tsx:94-98 | a trimmed message trims to itself, so the sent body carries no surrounding white space |
| `JsString.LeadingWs` | src/App.tsx:49 | the leading run stripped by `trim` is all white space and stops at the first non-white-space character |
| `Handlers.EnterRoom` | src/App.tsx:56-57 | entering a room constructs exactly one new socket, for that room, and changes no chat state, no input, and closes no earlier socket |
| `Handlers.CreateRoom` | src/App.tsx:43-46 | creating a room enters the generated room and nothing else |
| `Handlers.JoinRoom` | src/App.tsx:48-54 | a blank room field starts no connection and changes nothing; otherwise one socket opens, for the trimmed room id, which is non-blank and trimmed |
| `Handlers.OnOpen` | src/App.tsx:59-68 | on open the client holds the new socket, is in the room that socket was opened for, is connected, and has an empty log; inputs and effects untouched |
| `Handlers.OnMessage` | src/App.tsx:70-76 | a decoded message is appended last, stamped with the receipt time, earlier entries and every other field unchanged; a decode failure changes nothing |
| `Handlers.OnClose` | src/App.tsx:78-85 | close drops the socket and the connected flag and keeps the room id and the log exactly |
| `Handlers.OutboundFrame` | src/App.tsx:96-100 | the frame built for sending carries the name, or "Anonymous" exactly when the name is empty, the trimmed message and the current room id; for a non-blank message it is well formed |
| `Handlers.SendMessage` | src/App.tsx:93-104 | blank message or no socket: nothing sent, nothing changed; otherwise exactly one frame on the held socket with name-or-"Anonymous", trimmed body and current room id, then the message field is cleared and the log is untouched |
| `Handlers.HandleKeyPress` | src/App.tsx:106-115 | Enter without Shift sends when connected and joins otherwise; any other key or Shift+Enter changes nothing |
| `Handlers.LeaveRoom` | src/App.tsx:125-136 | leaving restores the initial chat state and an empty room field whatever the prior state, closing the held socket if there is one |
| `Handlers.LeaveRoomIdempotent` | src/App.tsx:125-136 | leaving twice equals leaving once |
| `Handlers.CloseAfterLeaveKeepsInitial` | src/App.tsx:78-85 | the close event that follows a leave keeps the initial chat state |
| `Handlers.OnCloseIdempotent` | src/App.tsx:78-85 | a second close event changes nothing |
| `Session.StepLocality` | src/App.tsx:59-90 | `Step` dispatches each event to its handler: a socket callback (`onopen`, `onmessage`, `onclose`, `onerror`) changes the chat state alone, and each `onChange` setter (lines 178, 252, 304) replaces its own field alone |
| `Session.StepAppendsEntry` | src/App.tsx:70-76 | any event other than an open or a leave appends its own decoded, stamped message to the log, or nothing |
| `Session.StepPreservesConsistent` | src/App.tsx:48-136 | every handler keeps the invariant: connected iff a socket is held, the held socket's room is `roomId`, log entries are stamped, sent frames are well formed and name their socket's room |
| `Session.RunPreservesConsistent` | src/App.tsx:48-136 | the invariant survives any feasible event stream |
| `Session.ReachableConsistent` | src/App.tsx:18-27 | every state reachable from page load is consistent, so no frame ever carries a `null` `room_id`, and each names the room string its socket was opened with |
| `Session.LogIsArrivalOrder` | src/App.tsx:70-76 | between resets the log is the old log followed by the decoded inbound messages in arrival order, none dropped, duplicated or reordered, and no locally sent message |
| `Session.SendSuppressedIffBlankOrDisconnected` | src/App.tsx:94 | in a consistent state a send is suppressed exactly when the message is blank or the client is not connected |
| `Session.EnterDispatch` | src/App.tsx:107-113 | Enter while connected constructs no socket; Enter while disconnected sends no frame |
| `Session.ErrorChangesNothing` | src/App.tsx:87-90 | an error event changes no state |
| `Session.SocketsGrow` | src/App.tsx:56-57 | the socket construction log is only ever appended to |
| `Session.RunAppend` | src/App.tsx:59-90 | handling two event streams one after the other is handling their concatenation |
| `Session.ReceiveScenario` | src/App.tsx:56-76 | join "xyz", open, receive bob's "hi" at time t: connected in "xyz" with exactly that stamped message in the log |
| `Session.StaleSocketScenario` | src/App.tsx:56-91 | joining "a" then "b" before either opens keeps both sockets: the client shows "b", yet a message from the socket of "a" lands in its log, and nothing was closed |

## Left out

- `generateRoomId` (src/App.tsx:39-41) uses `Math.random` and base-36 float formatting; the generated id is a parameter of the create-room event and room ids are opaque strings.
- Handlers.EnterRoom: the room id is put into the socket URL unescaped (src/App.tsx:57). A constructor that throws (for a room id with `#`, which makes the URL carry a fragment) is not modelled, so the model records a socket where the code records none; and a socket's room is the unescaped room string, which the server may parse as a different room when it holds `&`, `+` or `%`.
- The WebSocket endpoint URL and the real `send`/`close` calls: a socket is an index into the construction log, `send` appends to `sent`, `close` appends to `closed`.
- `JSON.parse` and `JSON.stringify`: the outbound frame is a record and the inbound frame arrives decoded. A parse that succeeds on something other than an object with string `username` and `message` fields is not modelled.
- `Date.now()` is a parameter of the inbound-message event.
- `alert` and `console` calls: the "disconnected" and "failed to connect" notices are not recorded.
- `copyRoomId` (clipboard, timer), `scrollToBottom` and `useRef`: presentation only.
- All JSX rendering (src/App.tsx:138-321), including the `disabled` state of the join and send buttons; the handlers are modelled as callable at any time, which is a superset of what the page allows. The three `onChange` setters inside it (lines 178, 252 and 304) are modelled, as the edit events of `Session.Step`.
- `e.preventDefault()` in the key handler: a browser effect with no state.
- Interleavings between stale handlers of earlier sockets: events form one sequential stream, each tagged with the socket it comes from. The feasible streams are a superset of what a browser can deliver (a message or an `onopen` from a socket that `leaveRoom` closed, a second `onopen` of the same socket), so the invariant and log lemmas hold over more streams than can occur.
- JavaScript strings are UTF-16 code units while Dafny's `char` is a Unicode scalar value; every code point `trim` strips lies in the Basic Multilingual Plane, so the trimming is the same.
