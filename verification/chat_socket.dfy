/** The per-connection handler `chat_websocket` of
    src/api/v1/websocket_routes.py as an event-driven state machine: admission
    by session token, then a receive -> broadcast loop that ends on the
    transport's events. The session store is only read. */
module ChatSocket {
  import opened Wrappers
  import CM = ConnectionManager
  import Sessions

  /** What one `await websocket.receive_text()` yields. */
  datatype Event =
      /** A text frame. `failing` says which sockets' `send_json` raise during
          the broadcast it triggers, and what they raise. */
    | Text(text: string, failing: map<CM.Handle, CM.Fault>)
      /** `receive_text` raises `WebSocketDisconnect` (the peer closed). */
    | PeerClosed
      /** `receive_text` raises anything else (a binary frame, a transport error). */
    | ReceiveError

  datatype Phase =
      /** Closed with the given code before being admitted. */
    | Refused(code: int)
      /** Admitted as `userId`, waiting for the next frame. */
    | Open(userId: string)
      /** `WebSocketDisconnect` was caught: the handler popped its socket and returned. */
    | Ended
      /** Another exception escaped the handler; nothing was deregistered. */
    | Crashed

  /** The handler's socket, its phase, the shared registry, and every frame the
      broadcasts it triggered have sent so far. */
  datatype Handler = Handler(ws: CM.Handle, phase: Phase, reg: CM.Registry, sent: seq<CM.Delivery>)

  /** The policy-violation close code. */
  const PolicyViolation: int := 1008

  /** The handler's first lines: look the token up; close with 1008 when the value
      is absent or empty, otherwise `manager.connect(websocket, user_id)` with the
      colour drawn as `seed`. */
  function Admit(store: Sessions.Store, token: string, ws: CM.Handle, seed: nat, reg: CM.Registry): (h: Handler)
    requires CM.Valid(reg)
    requires seed <= 0xFF_FFFF
    ensures h.ws == ws && h.sent == [] && CM.Valid(h.reg)
    ensures h.phase.Refused? <==> Sessions.GetCurrentUser(store, token).Failure?
    ensures h.phase.Refused? ==> h.phase.code == 1008 && h.reg == reg
    ensures h.phase.Open? ==>
      && Sessions.SessionKey(token) in store
      && h.phase.userId == store[Sessions.SessionKey(token)].value
      && CM.Lookup(h.reg, ws) == Some(CM.Meta(CM.RandomColor(seed), h.phase.userId))
      && h.reg == CM.Connect(reg, ws, h.phase.userId, seed)
  {
    var userId := Sessions.Get(store, Sessions.SessionKey(token));
    if userId.None? || userId.value == "" then
      Handler(ws, Refused(PolicyViolation), reg, [])
    else
      Handler(ws, Open(userId.value), CM.Connect(reg, ws, userId.value, seed), [])
  }

  /** One turn of the `while True` loop, including the `except WebSocketDisconnect`
      clause when the turn raises. */
  function Step(h: Handler, ev: Event): (h': Handler)
    requires h.phase.Open? && CM.Valid(h.reg)
    ensures h'.ws == h.ws && CM.Valid(h'.reg)
    ensures |h'.sent| >= |h.sent| && h'.sent[..|h.sent|] == h.sent
    ensures h'.phase.Open? ==> h'.phase == h.phase && h'.reg == h.reg
    ensures h'.phase.Ended? ==>
      && h'.reg == CM.Disconnect(h.reg, h.ws)
      && CM.Lookup(h'.reg, h.ws) == None
      && forall x :: x != h.ws ==> CM.Lookup(h'.reg, x) == CM.Lookup(h.reg, x)
    ensures h'.phase.Crashed? ==> h'.reg == h.reg
    ensures !h'.phase.Refused?
    ensures ev.PeerClosed? ==> h'.phase == Ended && h'.sent == h.sent
    ensures ev.ReceiveError? ==> h'.phase == Crashed && h'.sent == h.sent
    ensures ev.Text? ==>
      var out := CM.Broadcast(h.reg, ev.text, h.ws, ev.failing);
      && h'.sent == h.sent + out.delivered
      && (out.raised.None? <==> h'.phase.Open?)
      && (out.raised == Some(CM.WebSocketDisconnect) <==> h'.phase.Ended?)
      && (out.raised == Some(CM.OtherException) <==> h'.phase.Crashed?)
  {
    match ev
    case Text(text, failing) =>
      var out := CM.Broadcast(h.reg, text, h.ws, failing);
      var sent := h.sent + out.delivered;
      (match out.raised
       case None => h.(sent := sent)
       case Some(WebSocketDisconnect) => h.(phase := Ended, reg := CM.Disconnect(h.reg, h.ws), sent := sent)
       case Some(OtherException) => h.(phase := Crashed, sent := sent))
    case PeerClosed => h.(phase := Ended, reg := CM.Disconnect(h.reg, h.ws))
    case ReceiveError => h.(phase := Crashed)
  }

  /** Feeds events to the handler until it leaves the `Open` phase or the
      events run out; events after the handler has returned are never read. */
  function Run(h: Handler, events: seq<Event>): (r: Handler)
    requires CM.Valid(h.reg)
    ensures r.ws == h.ws && CM.Valid(r.reg)
    ensures |r.sent| >= |h.sent| && r.sent[..|h.sent|] == h.sent
    ensures r.phase.Open? ==> r.phase == h.phase && r.reg == h.reg
    ensures !h.phase.Open? ==> r == h
    ensures h.phase.Open? && r.phase.Ended? ==> r.reg == CM.Disconnect(h.reg, h.ws)
    ensures h.phase.Open? && r.phase.Crashed? ==> r.reg == h.reg
    ensures h.phase.Open? ==> !r.phase.Refused?
    decreases |events|
  {
    if !h.phase.Open? || |events| == 0 then h
    else Run(Step(h, events[0]), events[1..])
  }

  /** The whole life of one connection: refused, or admitted and then run until
      the handler returns. On return after `WebSocketDisconnect` the socket is
      no longer registered and every other entry is as admission left it; after
      any other exception the entry stays. */
  function Chat(store: Sessions.Store, token: string, ws: CM.Handle, seed: nat, reg: CM.Registry, events: seq<Event>)
    : (r: Handler)
    requires CM.Valid(reg)
    requires seed <= 0xFF_FFFF
    ensures r.ws == ws && CM.Valid(r.reg)
    ensures r.phase.Refused? <==> Sessions.GetCurrentUser(store, token).Failure?
    ensures r.phase.Refused? ==> r == Handler(ws, Refused(1008), reg, [])
    ensures !r.phase.Refused? ==> Sessions.GetCurrentUser(store, token).Success?
    ensures r.phase.Ended? ==>
      && CM.Lookup(r.reg, ws) == None
      && forall x :: x != ws ==> CM.Lookup(r.reg, x) == CM.Lookup(reg, x)
    ensures r.phase.Crashed? || r.phase.Open? ==>
      CM.Lookup(r.reg, ws) == Some(CM.Meta(CM.RandomColor(seed), Sessions.GetCurrentUser(store, token).value))
  {
    Run(Admit(store, token, ws, seed, reg), events)
  }

  /** A rejected token closes the socket with 1008 and the handler neither touches
      the registry nor sends anything, whatever the socket would have delivered. */
  lemma RejectedTokenTouchesNothing(store: Sessions.Store, token: string, ws: CM.Handle, seed: nat, reg: CM.Registry, events: seq<Event>)
    requires CM.Valid(reg)
    requires seed <= 0xFF_FFFF
    requires Sessions.SessionKey(token) !in store || store[Sessions.SessionKey(token)].value == ""
    ensures Chat(store, token, ws, seed, reg, events) == Handler(ws, Refused(1008), reg, [])
  {
  }

  /** The websocket admission and `get_current_user` accept exactly the same
      tokens, for the same user id. */
  lemma AdmissionAgreesWithDependency(store: Sessions.Store, token: string, ws: CM.Handle, seed: nat, reg: CM.Registry)
    requires CM.Valid(reg)
    requires seed <= 0xFF_FFFF
    ensures var h := Admit(store, token, ws, seed, reg);
      match Sessions.GetCurrentUser(store, token)
      case Success(uid) => h.phase == Open(uid)
      case Failure(_) => h.phase == Refused(1008)
  {
  }

  /** Every event is a text frame whose broadcast from `ws` over `reg` raises nothing. */
  ghost predicate QuietFrames(reg: CM.Registry, ws: CM.Handle, events: seq<Event>)
    decreases |events|
  {
    |events| == 0 ||
      (&& events[0].Text?
       && CM.Broadcast(reg, events[0].text, ws, events[0].failing).raised.None?
       && QuietFrames(reg, ws, events[1..]))
  }

  /** The frames a sequence of text events broadcast from `ws`, in receipt order. */
  ghost function Broadcasts(reg: CM.Registry, ws: CM.Handle, events: seq<Event>): seq<CM.Delivery>
    decreases |events|
  {
    if |events| == 0 then []
    else if events[0].Text? then
      CM.Broadcast(reg, events[0].text, ws, events[0].failing).delivered + Broadcasts(reg, ws, events[1..])
    else Broadcasts(reg, ws, events[1..])
  }

  /** While no send fails, each text frame causes exactly one broadcast from this
      socket, over the unchanged registry, in the order the frames arrived; the
      handler stays open. */
  lemma {:induction false} FramesBroadcastInOrder(h: Handler, events: seq<Event>)
    requires h.phase.Open? && CM.Valid(h.reg)
    requires QuietFrames(h.reg, h.ws, events)
    ensures var r := Run(h, events);
      && r.phase == h.phase
      && r.reg == h.reg
      && r.sent == h.sent + Broadcasts(h.reg, h.ws, events)
    decreases |events|
  {
    if |events| == 0 {
      assert h.sent + [] == h.sent;
    } else {
      QuietUnfold(h.reg, h.ws, events);
      var d := CM.Broadcast(h.reg, events[0].text, h.ws, events[0].failing).delivered;
      var h1 := QuietStep(h, events[0]);
      RunUnfold(h, events);
      FramesBroadcastInOrder(h1, events[1..]);
      BroadcastsUnfold(h.reg, h.ws, events);
      AppendAssoc(h.sent, d, Broadcasts(h.reg, h.ws, events[1..]));
    }
  }

  lemma QuietUnfold(reg: CM.Registry, ws: CM.Handle, events: seq<Event>)
    requires |events| > 0 && QuietFrames(reg, ws, events)
    ensures events[0].Text? && CM.Broadcast(reg, events[0].text, ws, events[0].failing).raised.None?
    ensures QuietFrames(reg, ws, events[1..])
  {
  }

  lemma BroadcastsUnfold(reg: CM.Registry, ws: CM.Handle, events: seq<Event>)
    requires |events| > 0 && events[0].Text?
    ensures Broadcasts(reg, ws, events)
         == CM.Broadcast(reg, events[0].text, ws, events[0].failing).delivered + Broadcasts(reg, ws, events[1..])
  {
  }

  lemma AppendAssoc(a: seq<CM.Delivery>, b: seq<CM.Delivery>, c: seq<CM.Delivery>)
    ensures (a + b) + c == a + (b + c)
  {
  }

  /** A text frame whose broadcast raises nothing only appends what it sent. */
  lemma QuietStep(h: Handler, ev: Event) returns (h1: Handler)
    requires h.phase.Open? && CM.Valid(h.reg)
    requires ev.Text? && CM.Broadcast(h.reg, ev.text, h.ws, ev.failing).raised.None?
    ensures h1 == h.(sent := h.sent + CM.Broadcast(h.reg, ev.text, h.ws, ev.failing).delivered)
    ensures Step(h, ev) == h1
  {
    h1 := h.(sent := h.sent + CM.Broadcast(h.reg, ev.text, h.ws, ev.failing).delivered);
  }

  lemma RunUnfold(h: Handler, events: seq<Event>)
    requires h.phase.Open? && CM.Valid(h.reg) && |events| > 0
    ensures Run(h, events) == Run(Step(h, events[0]), events[1..])
  {
  }

  /** A peer close pops the socket and ends the handler; later events are not read. */
  lemma PeerCloseDeregisters(h: Handler, rest: seq<Event>)
    requires h.phase.Open? && CM.Valid(h.reg)
    ensures var r := Run(h, [PeerClosed] + rest);
      && r.phase == Ended
      && r.reg == CM.Disconnect(h.reg, h.ws)
      && CM.Lookup(r.reg, h.ws) == None
      && r.sent == h.sent
  {
    assert ([PeerClosed] + rest)[1..] == rest;
  }

  /** Any other receive error ends the handler with its entry still registered. */
  lemma ReceiveErrorLeavesEntry(h: Handler, rest: seq<Event>)
    requires h.phase.Open? && CM.Valid(h.reg)
    ensures var r := Run(h, [ReceiveError] + rest);
      && r.phase == Crashed
      && r.reg == h.reg
      && CM.Lookup(r.reg, h.ws) == CM.Lookup(h.reg, h.ws)
  {
    assert ([ReceiveError] + rest)[1..] == rest;
  }

  /** Because only `WebSocketDisconnect` is caught and the broadcast does not catch
      per-recipient errors, a dead recipient `dead` that raises
      `WebSocketDisconnect` during this socket's broadcast evicts the SENDER and
      stays registered itself. */
  lemma DeadRecipientEvictsSender(h: Handler, text: string, dead: CM.Handle)
    requires h.phase.Open? && CM.Valid(h.reg)
    requires dead != h.ws
    requires CM.Registered(h.reg, dead) && CM.Registered(h.reg, h.ws)
    ensures var r := Step(h, Text(text, map[dead := CM.WebSocketDisconnect]));
      && r.phase == Ended
      && CM.Lookup(r.reg, h.ws) == None
      && CM.Lookup(r.reg, dead) == CM.Lookup(h.reg, dead)
      && CM.Lookup(r.reg, dead).Some?
  {
    var failing := map[dead := CM.WebSocketDisconnect];
    var out := CM.Broadcast(h.reg, text, h.ws, failing);
    var k := CM.IndexOf(h.reg, dead).value;
    assert h.reg[k].handle in failing;
  }
}
