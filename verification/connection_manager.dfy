/** The process-wide connection registry of the chat gateway and its broadcast
    fan-out (`ConnectionManager` in src/utils/connection_manager.py).

    The source keeps a `dict` from socket object to `{"color", "user_id"}`; a
    Python dict iterates in insertion order, so the registry is modelled as a
    sequence of entries whose handles are pairwise distinct. */
module ConnectionManager {
  import opened Wrappers
  import Hex

  /** An opaque socket identity; two handles are the same socket iff equal. */
  type Handle = nat

  /** The metadata the registry keeps per socket. */
  datatype Meta = Meta(color: string, userId: string)

  datatype Entry = Entry(handle: Handle, meta: Meta)

  type Registry = seq<Entry>

  /** The JSON object sent to each recipient: `{"message": …, "color": …}`. */
  datatype Envelope = Envelope(message: string, color: string)

  datatype Delivery = Delivery(recipient: Handle, envelope: Envelope)

  /** The exception a failing `send_json` raises: Starlette's
      `WebSocketDisconnect`, or anything else. */
  datatype Fault = WebSocketDisconnect | OtherException

  /** What one `broadcast` call did: the frames it sent, in order, and the
      exception it let escape, if any. */
  datatype Outcome = Outcome(delivered: seq<Delivery>, raised: Option<Fault>)

  /** The metadata used for a sender that is not (or no longer) registered. */
  const UnknownSender: Meta := Meta("#000000", "unknown")

  /** A dict holds each key at most once. */
  ghost predicate Valid(reg: Registry) {
    forall i, j :: 0 <= i < j < |reg| ==> reg[i].handle != reg[j].handle
  }

  predicate Registered(reg: Registry, h: Handle) {
    exists i :: 0 <= i < |reg| && reg[i].handle == h
  }

  /** The position of `h` in the registry, if present. */
  function IndexOf(reg: Registry, h: Handle): (r: Option<nat>)
    ensures r.Some? ==> r.value < |reg| && reg[r.value].handle == h
    ensures r.Some? ==> forall j :: 0 <= j < r.value ==> reg[j].handle != h
    ensures r.None? <==> !Registered(reg, h)
  {
    if |reg| == 0 then None
    else if reg[0].handle == h then Some(0)
    else
      match IndexOf(reg[1..], h)
      case Some(i) => Some(i + 1)
      case None =>
        assert forall i :: 0 < i < |reg| ==> reg[i] == reg[1..][i - 1];
        None
  }

  /** `active_connections.get(h)`. */
  function Lookup(reg: Registry, h: Handle): Option<Meta> {
    match IndexOf(reg, h)
    case Some(i) => Some(reg[i].meta)
    case None => None
  }

  /** In a valid registry an entry found at any position is the one `Lookup`
      returns. */
  lemma LookupAt(reg: Registry, i: nat)
    requires Valid(reg)
    requires i < |reg|
    ensures Lookup(reg, reg[i].handle) == Some(reg[i].meta)
  {
  }

  /** `random_color()`, with the draw of `random.randint(0, 0xFFFFFF)` as the
      parameter `seed`. */
  function RandomColor(seed: nat): (s: string)
    requires seed <= 0xFF_FFFF
    ensures Hex.WellFormedColor(s)
    ensures Hex.DecodeColor(s) == Some(seed)
  {
    Hex.Color(seed)
  }

  /** `connect(websocket, user_id)`: `active_connections[websocket] = {...}`.
      A dict assignment to an existing key overwrites the value and keeps the
      key's position; a new key goes to the end. */
  function Connect(reg: Registry, ws: Handle, userId: string, seed: nat): (r: Registry)
    requires Valid(reg)
    requires seed <= 0xFF_FFFF
    ensures Valid(r)
    ensures Lookup(r, ws) == Some(Meta(RandomColor(seed), userId))
    ensures Hex.WellFormedColor(Lookup(r, ws).value.color)
    ensures forall h :: h != ws ==> Lookup(r, h) == Lookup(reg, h)
    ensures Registered(reg, ws) ==> |r| == |reg|
    ensures Registered(reg, ws) ==> forall i :: 0 <= i < |reg| ==> r[i].handle == reg[i].handle
    ensures !Registered(reg, ws) ==> |r| == |reg| + 1 && r[..|reg|] == reg && r[|reg|].handle == ws
  {
    var e := Entry(ws, Meta(RandomColor(seed), userId));
    match IndexOf(reg, ws)
    case Some(i) =>
      ReplacePreservesOthers(reg, i, e);
      reg[i := e]
    case None =>
      AppendPreservesOthers(reg, e);
      reg + [e]
  }

  lemma ReplacePreservesOthers(reg: Registry, i: nat, e: Entry)
    requires Valid(reg)
    requires i < |reg| && reg[i].handle == e.handle
    ensures Valid(reg[i := e])
    ensures Lookup(reg[i := e], e.handle) == Some(e.meta)
    ensures forall h :: h != e.handle ==> Lookup(reg[i := e], h) == Lookup(reg, h)
  {
    LookupAt(reg[i := e], i);
    forall h | h != e.handle ensures Lookup(reg[i := e], h) == Lookup(reg, h) {
      LookupSameHandles(reg, reg[i := e], h, i);
    }
  }

  lemma AppendPreservesOthers(reg: Registry, e: Entry)
    requires !Registered(reg, e.handle)
    ensures Lookup(reg + [e], e.handle) == Some(e.meta)
    ensures forall h :: h != e.handle ==> Lookup(reg + [e], h) == Lookup(reg, h)
  {
    var r := reg + [e];
    assert r[|reg|] == e;
    assert forall j :: 0 <= j < |reg| ==> r[j] == reg[j];
    forall h | h != e.handle ensures Lookup(reg + [e], h) == Lookup(reg, h) {
      LookupAppend(reg, e, h);
    }
  }

  /** Replacing the metadata at one position changes no other handle's lookup. */
  lemma LookupSameHandles(reg: Registry, r: Registry, h: Handle, i: nat)
    requires Valid(reg)
    requires i < |reg| && |r| == |reg|
    requires forall j :: 0 <= j < |reg| ==> r[j].handle == reg[j].handle
    requires forall j :: 0 <= j < |reg| && j != i ==> r[j] == reg[j]
    requires h != reg[i].handle
    ensures Lookup(r, h) == Lookup(reg, h)
  {
    match IndexOf(reg, h)
    case Some(k) =>
      LookupAt(r, k);
      assert Valid(r);
    case None =>
      assert !Registered(r, h);
  }

  lemma LookupAppend(reg: Registry, e: Entry, h: Handle)
    requires h != e.handle
    ensures Lookup(reg + [e], h) == Lookup(reg, h)
  {
    var r := reg + [e];
    match IndexOf(reg, h)
    case Some(k) =>
      assert IndexOf(r, h) == Some(k) by {
        assert forall j :: 0 <= j < |reg| ==> r[j] == reg[j];
      }
    case None =>
      assert !Registered(r, h) by {
        forall i | 0 <= i < |r| ensures r[i].handle != h {
          if i < |reg| { assert r[i] == reg[i]; }
        }
      }
  }

  /** `disconnect(websocket)`: `active_connections.pop(websocket, None)`. */
  function Disconnect(reg: Registry, ws: Handle): (r: Registry)
    requires Valid(reg)
    ensures Valid(r)
    ensures Lookup(r, ws) == None
    ensures forall h :: h != ws ==> Lookup(r, h) == Lookup(reg, h)
    ensures !Registered(reg, ws) ==> r == reg
    ensures Registered(reg, ws) ==> |r| == |reg| - 1
  {
    match IndexOf(reg, ws)
    case Some(i) =>
      RemovePreservesOthers(reg, i);
      reg[..i] + reg[i + 1..]
    case None => reg
  }

  lemma RemovePreservesOthers(reg: Registry, i: nat)
    requires Valid(reg)
    requires i < |reg|
    ensures var r := reg[..i] + reg[i + 1..];
      && Valid(r)
      && !Registered(r, reg[i].handle)
      && forall h :: h != reg[i].handle ==> Lookup(r, h) == Lookup(reg, h)
  {
    var r := reg[..i] + reg[i + 1..];
    assert forall j :: 0 <= j < i ==> r[j] == reg[j];
    assert forall j :: i <= j < |r| ==> r[j] == reg[j + 1];
    forall h | h != reg[i].handle ensures Lookup(r, h) == Lookup(reg, h) {
      match IndexOf(reg, h)
      case Some(k) =>
        if k < i { LookupAt(r, k); } else { LookupAt(r, k - 1); }
      case None =>
        assert !Registered(r, h);
    }
  }

  /** A `disconnect` of a registered socket cuts out exactly its entry: the
      survivors keep their metadata and their relative iteration order. */
  lemma DisconnectCutsOne(reg: Registry, ws: Handle)
    requires Valid(reg)
    requires Registered(reg, ws)
    ensures exists k ::
              && 0 <= k < |reg|
              && reg[k].handle == ws
              && Disconnect(reg, ws) == reg[..k] + reg[k + 1..]
  {
    var k := IndexOf(reg, ws).value;
    assert reg[k].handle == ws;
  }

  /** Popping the same socket twice is the same as popping it once. */
  lemma DisconnectIdempotent(reg: Registry, ws: Handle)
    requires Valid(reg)
    ensures Disconnect(Disconnect(reg, ws), ws) == Disconnect(reg, ws)
  {
  }

  /** Admitting a new socket and then removing it leaves the registry as it was. */
  lemma ConnectThenDisconnect(reg: Registry, ws: Handle, userId: string, seed: nat)
    requires Valid(reg)
    requires seed <= 0xFF_FFFF
    requires !Registered(reg, ws)
    ensures Disconnect(Connect(reg, ws, userId, seed), ws) == reg
  {
    var r := Connect(reg, ws, userId, seed);
    assert IndexOf(r, ws) == Some(|reg|);
  }

  /** The envelope built from the sender's metadata:
      `{"message": f"{user_id}: {message}", "color": color}`. */
  function MakeEnvelope(sender: Meta, text: string): Envelope {
    Envelope(sender.userId + ": " + text, sender.color)
  }

  /** The envelope of one `broadcast(text, sender)` over `reg`. */
  function BroadcastEnvelope(reg: Registry, text: string, sender: Handle): (env: Envelope)
    ensures Registered(reg, sender) ==>
      env == MakeEnvelope(Lookup(reg, sender).value, text)
    ensures !Registered(reg, sender) ==>
      env == Envelope("unknown: " + text, "#000000")
  {
    MakeEnvelope(Lookup(reg, sender).GetOr(UnknownSender), text)
  }

  /** Sends `env` to each recipient in turn; the first recipient whose send
      raises stops the loop and its exception escapes. */
  function FanOut(recipients: Registry, env: Envelope, failing: map<Handle, Fault>): (out: Outcome)
    ensures |out.delivered| <= |recipients|
    ensures forall i :: 0 <= i < |out.delivered| ==>
      out.delivered[i] == Delivery(recipients[i].handle, env) && recipients[i].handle !in failing
    ensures out.raised.None? <==> |out.delivered| == |recipients|
    ensures out.raised.Some? ==>
      && recipients[|out.delivered|].handle in failing
      && out.raised.value == failing[recipients[|out.delivered|].handle]
  {
    if |recipients| == 0 then Outcome([], None)
    else
      var h := recipients[0].handle;
      if h in failing then Outcome([], Some(failing[h]))
      else
        var rest := FanOut(recipients[1..], env, failing);
        Outcome([Delivery(h, env)] + rest.delivered, rest.raised)
  }

  /** `broadcast(message, sender)`: one envelope from the sender's metadata, sent
      to every registered socket in insertion order, the sender included. The
      registry is only read. */
  function Broadcast(reg: Registry, text: string, sender: Handle, failing: map<Handle, Fault>): (out: Outcome)
    ensures forall i :: 0 <= i < |out.delivered| ==>
      && i < |reg|
      && out.delivered[i].recipient == reg[i].handle
      && out.delivered[i].envelope == BroadcastEnvelope(reg, text, sender)
    ensures out.raised.None? <==> forall i :: 0 <= i < |reg| ==> reg[i].handle !in failing
    ensures out.raised.None? ==> |out.delivered| == |reg|
    ensures out.raised.Some? ==>
      && |out.delivered| < |reg|
      && reg[|out.delivered|].handle in failing
      && out.raised.value == failing[reg[|out.delivered|].handle]
      && forall i :: 0 <= i < |out.delivered| ==> reg[i].handle !in failing
  {
    FanOut(reg, BroadcastEnvelope(reg, text, sender), failing)
  }

  /** The source's `for connection in self.active_connections` loop, statement
      by statement; it computes exactly `Broadcast`. */
  method BroadcastLoop(reg: Registry, text: string, sender: Handle, failing: map<Handle, Fault>)
    returns (out: Outcome)
    ensures out == Broadcast(reg, text, sender, failing)
  {
    var senderMeta := Lookup(reg, sender).GetOr(UnknownSender);
    var env := MakeEnvelope(senderMeta, text);
    var sent: seq<Delivery> := [];
    var i := 0;
    while i < |reg|
      invariant 0 <= i <= |reg| && |sent| == i
      invariant forall k :: 0 <= k < i ==> sent[k] == Delivery(reg[k].handle, env) && reg[k].handle !in failing
    {
      var h := reg[i].handle;
      if h in failing {
        FanOutFailsAt(reg, env, failing, sent);
        return Outcome(sent, Some(failing[h]));
      }
      sent := sent + [Delivery(h, env)];
      i := i + 1;
    }
    FanOutAllPass(reg, env, failing, sent);
    out := Outcome(sent, None);
  }

  /** The fan-out is determined by where the first failing recipient stands:
      with a prefix of passing recipients followed by a failing one, it sends to
      the prefix and raises that recipient's fault. */
  lemma FanOutFailsAt(reg: Registry, env: Envelope, failing: map<Handle, Fault>, sent: seq<Delivery>)
    requires |sent| < |reg| && reg[|sent|].handle in failing
    requires forall k :: 0 <= k < |sent| ==> sent[k] == Delivery(reg[k].handle, env) && reg[k].handle !in failing
    ensures FanOut(reg, env, failing) == Outcome(sent, Some(failing[reg[|sent|].handle]))
  {
    var out := FanOut(reg, env, failing);
    assert |out.delivered| <= |sent|;
    assert |out.delivered| == |sent|;
  }

  /** With every recipient passing, the fan-out sends to all of them, in order. */
  lemma FanOutAllPass(reg: Registry, env: Envelope, failing: map<Handle, Fault>, sent: seq<Delivery>)
    requires |sent| == |reg|
    requires forall k :: 0 <= k < |sent| ==> sent[k] == Delivery(reg[k].handle, env) && reg[k].handle !in failing
    ensures FanOut(reg, env, failing) == Outcome(sent, None)
  {
    var out := FanOut(reg, env, failing);
    assert out.raised.None?;
    assert out.delivered == sent;
  }

  /** When no send fails, every registered socket (the sender included) receives
      the same envelope exactly once, in registry order, and nothing escapes. */
  lemma BroadcastReachesEveryone(reg: Registry, text: string, sender: Handle, failing: map<Handle, Fault>)
    requires Valid(reg)
    requires forall i :: 0 <= i < |reg| ==> reg[i].handle !in failing
    ensures var out := Broadcast(reg, text, sender, failing);
      && out.raised == None
      && |out.delivered| == |reg|
      && (forall i :: 0 <= i < |reg| ==> out.delivered[i].recipient == reg[i].handle)
      && (forall i, j :: 0 <= i < j < |reg| ==> out.delivered[i].recipient != out.delivered[j].recipient)
      && (forall i :: 0 <= i < |reg| ==> out.delivered[i].envelope == BroadcastEnvelope(reg, text, sender))
      && (Registered(reg, sender) ==> exists i :: 0 <= i < |out.delivered| && out.delivered[i].recipient == sender)
  {
  }

  /** A failing send aborts the rest of the fan-out: the failing socket and every
      socket after it in registry order receive nothing, and the exception escapes. */
  lemma BroadcastStopsAtFirstFailure(reg: Registry, text: string, sender: Handle, failing: map<Handle, Fault>, k: nat)
    requires k < |reg|
    requires reg[k].handle in failing
    requires forall i :: 0 <= i < k ==> reg[i].handle !in failing
    ensures var out := Broadcast(reg, text, sender, failing);
      && out.raised == Some(failing[reg[k].handle])
      && |out.delivered| == k
      && forall i :: 0 <= i < k ==> out.delivered[i].recipient == reg[i].handle
  {
  }
}
