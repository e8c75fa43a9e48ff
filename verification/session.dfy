/**
 * The client as a state machine: every user action, input edit and
 * socket callback is an `Event`, handled one at a time by `Step` on the
 * single event thread. `Run` folds `Step` over an event stream.
 */
module Session {
  import opened JsString
  import opened ChatModel
  import opened Handlers

  datatype Event =
    | CreateRoomClicked(generated: RoomId)
    | JoinRoomClicked
    | SendClicked
    | LeaveClicked
    | KeyPressed(key: string, shift: bool)
    | UsernameEdited(text: string)
    | MessageInputEdited(text: string)
    | RoomInputEdited(text: string)
    | SocketOpened(socket: SocketId)
    | SocketMessage(socket: SocketId, decoded: Option<Message>, now: int)
    | SocketClosed(socket: SocketId)
    | SocketError(socket: SocketId)

  /** Socket callbacks only come from sockets that have been constructed. */
  predicate Deliverable(a: App, e: Event) {
    match e
    case SocketOpened(s) => s < |a.sockets|
    case SocketMessage(s, _, _) => s < |a.sockets|
    case SocketClosed(s) => s < |a.sockets|
    case SocketError(s) => s < |a.sockets|
    case _ => true
  }

  /** The effect of one event: the handler the event triggers, or the
      `onChange` setter of the edited field. `onerror` only logs and
      alerts, so it changes nothing here. */
  function Step(a: App, e: Event): App
    requires Deliverable(a, e)
  {
    match e
    case CreateRoomClicked(id) => CreateRoom(a, id)
    case JoinRoomClicked => JoinRoom(a)
    case SendClicked => SendMessage(a)
    case LeaveClicked => LeaveRoom(a)
    case KeyPressed(key, shift) => HandleKeyPress(a, key, shift)
    case UsernameEdited(t) => a.(username := t)
    case MessageInputEdited(t) => a.(messageInput := t)
    case RoomInputEdited(t) => a.(roomInput := t)
    case SocketOpened(s) => OnOpen(a, s)
    case SocketMessage(_, decoded, now) => OnMessage(a, decoded, now)
    case SocketClosed(_) => OnClose(a)
    case SocketError(_) => a
  }

  /** Every event of the stream is deliverable when its turn comes. */
  predicate Feasible(a: App, evs: seq<Event>)
    decreases |evs|
  {
    |evs| == 0 || (Deliverable(a, evs[0]) && Feasible(Step(a, evs[0]), evs[1..]))
  }

  /** The state after handling `evs` in order. */
  function Run(a: App, evs: seq<Event>): App
    requires Feasible(a, evs)
    decreases |evs|
  {
    if |evs| == 0 then a else Run(Step(a, evs[0]), evs[1..])
  }

  /** What each kind of event may touch: socket callbacks change the chat
      state alone, never an input field or an effect log; editing a field
      changes that field alone. */
  lemma StepLocality(a: App, e: Event)
    requires Deliverable(a, e)
    ensures e.SocketOpened? || e.SocketMessage? || e.SocketClosed? || e.SocketError? ==>
      Step(a, e).(chat := a.chat) == a
    ensures e.UsernameEdited? ==> Step(a, e) == a.(username := e.text)
    ensures e.MessageInputEdited? ==> Step(a, e) == a.(messageInput := e.text)
    ensures e.RoomInputEdited? ==> Step(a, e) == a.(roomInput := e.text)
  {
  }

  /** Whatever the event, the socket construction log is only appended to. */
  lemma SocketsGrow(a: App, e: Event)
    requires Deliverable(a, e)
    ensures |a.sockets| <= |Step(a, e).sockets|
    ensures Step(a, e).sockets[..|a.sockets|] == a.sockets
  {
  }

  /** Every handler keeps the invariant of `Consistent`. */
  lemma StepPreservesConsistent(a: App, e: Event)
    requires Consistent(a) && Deliverable(a, e)
    ensures Consistent(Step(a, e))
  {
    // Earlier frames keep naming their socket's room because the
    // construction log is only appended to.
    SocketsGrow(a, e);
  }

  /** The invariant holds after any feasible event stream. */
  lemma {:induction false} RunPreservesConsistent(a: App, evs: seq<Event>)
    requires Consistent(a) && Feasible(a, evs)
    ensures Consistent(Run(a, evs))
    decreases |evs|
  {
    if |evs| > 0 {
      StepPreservesConsistent(a, evs[0]);
      RunPreservesConsistent(Step(a, evs[0]), evs[1..]);
    }
  }

  /** Every state the client can reach from page load is consistent: in
      particular every frame it ever sent names the room string its socket
      was opened with. */
  lemma ReachableConsistent(evs: seq<Event>)
    requires Feasible(Start, evs)
    ensures Consistent(Run(Start, evs))
  {
    RunPreservesConsistent(Start, evs);
  }

  /** The events that reset the log: a socket opening and leaving. */
  predicate ResetsLog(e: Event) {
    e.SocketOpened? || e.LeaveClicked?
  }

  /** The log entry one event delivers: the stamped message of a
      successfully decoded inbound frame, and nothing for any other event. */
  function Entry(e: Event): seq<Message> {
    match e
    case SocketMessage(_, Some(m), now) => [m.(timestamp := Some(now))]
    case _ => []
  }

  /** The log entries a stream of events delivers, in arrival order. */
  function Received(evs: seq<Event>): seq<Message> {
    if |evs| == 0 then [] else Entry(evs[0]) + Received(evs[1..])
  }

  /** An event that does not reset the log appends its own entry to it. */
  lemma StepAppendsEntry(a: App, e: Event)
    requires Deliverable(a, e) && !ResetsLog(e)
    ensures Step(a, e).chat.messages == a.chat.messages + Entry(e)
  {
  }

  /** One step of `Run`: the first event is handled, then the rest. */
  lemma RunFirst(a: App, evs: seq<Event>)
    requires |evs| > 0 && Feasible(a, evs)
    ensures Deliverable(a, evs[0]) && Feasible(Step(a, evs[0]), evs[1..])
    ensures Run(a, evs) == Run(Step(a, evs[0]), evs[1..])
  {
  }

  /** The entries of a non-empty stream: its first event's, then the rest's. */
  lemma ReceivedFirst(evs: seq<Event>)
    requires |evs| > 0
    ensures Received(evs) == Entry(evs[0]) + Received(evs[1..])
  {
  }

  lemma AppendAssoc(x: seq<Message>, y: seq<Message>, z: seq<Message>)
    ensures x + y + z == x + (y + z)
  {
  }

  /** The induction step of `LogIsArrivalOrder`: if the rest of the stream
      appends its entries to the log left by the first event, the whole
      stream appends its entries to the log it started from. */
  lemma LogStep(a: App, evs: seq<Event>)
    requires |evs| > 0 && Feasible(a, evs) && !ResetsLog(evs[0])
    requires Feasible(Step(a, evs[0]), evs[1..])
    requires Run(Step(a, evs[0]), evs[1..]).chat.messages == Step(a, evs[0]).chat.messages + Received(evs[1..])
    ensures Run(a, evs).chat.messages == a.chat.messages + Received(evs)
  {
    var e, rest := evs[0], evs[1..];
    RunFirst(a, evs);
    StepAppendsEntry(a, e);
    ReceivedFirst(evs);
    AppendAssoc(a.chat.messages, Entry(e), Received(rest));
  }

  /** Between resets the log is append-only and in arrival order: it is
      the old log followed by exactly the decoded inbound messages of the
      stream, none dropped, duplicated or reordered, and nothing the client
      sent itself. */
  lemma {:induction false} LogIsArrivalOrder(a: App, evs: seq<Event>)
    requires Feasible(a, evs)
    requires forall k :: 0 <= k < |evs| ==> !ResetsLog(evs[k])
    ensures Run(a, evs).chat.messages == a.chat.messages + Received(evs)
    decreases |evs|
  {
    if |evs| > 0 {
      var rest := evs[1..];
      assert forall k :: 0 <= k < |rest| ==> rest[k] == evs[k + 1];
      LogIsArrivalOrder(Step(a, evs[0]), rest);
      LogStep(a, evs);
    }
  }

  /** With the invariant, `sendMessage` is suppressed exactly when the
      message field is blank or the client is not connected, so testing
      the socket is the same as testing `isConnected`. */
  lemma SendSuppressedIffBlankOrDisconnected(a: App)
    requires Consistent(a)
    ensures Step(a, SendClicked) == a <==> IsBlank(a.messageInput) || !a.chat.isConnected
  {
  }

  /** Enter when connected never constructs a socket, and Enter when not
      connected never sends a frame. */
  lemma EnterDispatch(a: App)
    ensures a.chat.isConnected ==> Step(a, KeyPressed("Enter", false)).sockets == a.sockets
    ensures !a.chat.isConnected ==> Step(a, KeyPressed("Enter", false)).sent == a.sent
  {
  }

  /** `onerror` changes nothing. */
  lemma ErrorChangesNothing(a: App, s: SocketId)
    requires s < |a.sockets|
    ensures Step(a, SocketError(s)) == a
  {
  }

  /** Handling `e` and then `evs` is handling `[e] + evs`. */
  lemma RunCons(a: App, e: Event, evs: seq<Event>)
    requires Deliverable(a, e) && Feasible(Step(a, e), evs)
    ensures Feasible(a, [e] + evs)
    ensures Run(a, [e] + evs) == Run(Step(a, e), evs)
  {
    assert ([e] + evs)[0] == e;
    assert ([e] + evs)[1..] == evs;
  }

  /** Handling `xs ++ ys` is handling `xs` and then `ys`. */
  lemma {:induction false} RunAppend(a: App, xs: seq<Event>, ys: seq<Event>)
    requires Feasible(a, xs) && Feasible(Run(a, xs), ys)
    ensures Feasible(a, xs + ys)
    ensures Run(a, xs + ys) == Run(Run(a, xs), ys)
    decreases |xs|
  {
    if |xs| == 0 {
      assert xs + ys == ys;
    } else {
      var e, rest := xs[0], xs[1..];
      assert (xs + ys)[0] == e && (xs + ys)[1..] == rest + ys;
      RunAppend(Step(a, e), rest, ys);
    }
  }

  /** The client after the room field is set to "xyz" and joined: one
      socket, no chat state yet. */
  function JoinedXyz(): App {
    Start.(roomInput := "xyz", sockets := ["xyz"])
  }

  lemma JoinedXyzReached()
    ensures Feasible(Start, [RoomInputEdited("xyz"), JoinRoomClicked])
    ensures Run(Start, [RoomInputEdited("xyz"), JoinRoomClicked]) == JoinedXyz()
  {
    var e1, e2 := RoomInputEdited("xyz"), JoinRoomClicked;
    var a1 := Start.(roomInput := "xyz");
    assert Step(a1, e2) == JoinedXyz() by {
      TrimOfWord("xyz");
    }
    RunCons(a1, e2, []);
    RunCons(Start, e1, [e2]);
  }

  /** Joining room "xyz" and receiving `{username: "bob", message: "hi"}`
      at time `t` once the socket is open leaves exactly that message,
      stamped with `t`, in the log. */
  lemma ReceiveScenario(t: int)
    ensures Feasible(Start, [RoomInputEdited("xyz"), JoinRoomClicked, SocketOpened(0),
                             SocketMessage(0, Some(Message("bob", "hi", None)), t)])
    ensures var a := Run(Start, [RoomInputEdited("xyz"), JoinRoomClicked, SocketOpened(0),
                                 SocketMessage(0, Some(Message("bob", "hi", None)), t)]);
      && a.chat.isConnected
      && a.chat.roomId == Some("xyz")
      && a.chat.messages == [Message("bob", "hi", Some(t))]
  {
    var join := [RoomInputEdited("xyz"), JoinRoomClicked];
    var e3, e4 := SocketOpened(0), SocketMessage(0, Some(Message("bob", "hi", None)), t);
    var a2 := JoinedXyz();
    var a3 := a2.(chat := ChatState(Some(0), Some("xyz"), true, []));
    JoinedXyzReached();
    RunCons(a3, e4, []);
    RunCons(a2, e3, [e4]);
    RunAppend(Start, join, [e3, e4]);
    assert join + [e3, e4] == [RoomInputEdited("xyz"), JoinRoomClicked, SocketOpened(0),
                               SocketMessage(0, Some(Message("bob", "hi", None)), t)];
  }

  /** The client after the room field is set to "a", joined, set to "b"
      and joined again: two sockets, no chat state yet. */
  function TwoJoins(): App {
    Start.(roomInput := "b", sockets := ["a", "b"])
  }

  lemma TwoJoinsReached()
    ensures Feasible(Start, [RoomInputEdited("a"), JoinRoomClicked, RoomInputEdited("b"), JoinRoomClicked])
    ensures Run(Start, [RoomInputEdited("a"), JoinRoomClicked, RoomInputEdited("b"), JoinRoomClicked]) == TwoJoins()
  {
    var e1, e2, e3, e4 := RoomInputEdited("a"), JoinRoomClicked, RoomInputEdited("b"), JoinRoomClicked;
    var a1 := Start.(roomInput := "a");
    var a2 := a1.(sockets := ["a"]);
    var a3 := a2.(roomInput := "b");
    assert Feasible(a2, [e3, e4]) && Run(a2, [e3, e4]) == TwoJoins() by {
      assert Step(a3, e4) == TwoJoins() by {
        TrimOfWord("b");
      }
      RunCons(a3, e4, []);
      RunCons(a2, e3, [e4]);
    }
    assert Step(a1, e2) == a2 by {
      TrimOfWord("a");
    }
    RunCons(a1, e2, [e3, e4]);
    RunCons(Start, e1, [e2, e3, e4]);
  }

  /** From `TwoJoins()`: both sockets open, then the first one delivers `m`. */
  lemma OpensReached(m: Message, t: int)
    ensures Feasible(TwoJoins(), [SocketOpened(0), SocketOpened(1), SocketMessage(0, Some(m), t)])
    ensures Run(TwoJoins(), [SocketOpened(0), SocketOpened(1), SocketMessage(0, Some(m), t)])
         == TwoJoins().(chat := ChatState(Some(1), Some("b"), true, [m.(timestamp := Some(t))]))
  {
    var e5, e6, e7 := SocketOpened(0), SocketOpened(1), SocketMessage(0, Some(m), t);
    var a4 := TwoJoins();
    var a5 := a4.(chat := ChatState(Some(0), Some("a"), true, []));
    var a6 := a5.(chat := ChatState(Some(1), Some("b"), true, []));
    RunCons(a6, e7, []);
    RunCons(a5, e6, [e7]);
    RunCons(a4, e5, [e6, e7]);
  }

  /** Joining room "a", then room "b" before the first socket opened,
      leaves both sockets alive: after both open, the client shows room
      "b", yet a message arriving on the socket of room "a" is appended to
      its log, and no socket was ever closed. */
  lemma StaleSocketScenario(m: Message, t: int)
    ensures Feasible(Start, [RoomInputEdited("a"), JoinRoomClicked, RoomInputEdited("b"), JoinRoomClicked,
                             SocketOpened(0), SocketOpened(1), SocketMessage(0, Some(m), t)])
    ensures var a := Run(Start, [RoomInputEdited("a"), JoinRoomClicked, RoomInputEdited("b"), JoinRoomClicked,
                                 SocketOpened(0), SocketOpened(1), SocketMessage(0, Some(m), t)]);
      && a.chat.roomId == Some("b")
      && a.chat.socket == Some(1)
      && a.chat.messages == [m.(timestamp := Some(t))]
      && a.closed == []
  {
    var joins := [RoomInputEdited("a"), JoinRoomClicked, RoomInputEdited("b"), JoinRoomClicked];
    var opens := [SocketOpened(0), SocketOpened(1), SocketMessage(0, Some(m), t)];
    TwoJoinsReached();
    OpensReached(m, t);
    RunAppend(Start, joins, opens);
    assert joins + opens == [RoomInputEdited("a"), JoinRoomClicked, RoomInputEdited("b"), JoinRoomClicked,
                             SocketOpened(0), SocketOpened(1), SocketMessage(0, Some(m), t)];
  }
}
