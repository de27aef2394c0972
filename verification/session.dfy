/** The stub as a whole, `struct gdbstub` with `gdbstub_tick` and
    `_gdbstub_recv`: a connection flag, the framer, and the receive loop that
    acknowledges each completed packet, dispatches it, and writes its reply.
    The socket calls are replaced by what they report: whether `accept`
    produced a client, what `recv` returned, and whether each reply `send`
    got through. Everything the stub does that
    can be observed is recorded as a sequence of actions. */
module Session {
  import opened Wrappers
  import opened Sequences
  import opened Bytes
  import opened Encoder
  import opened Framing
  import opened Dispatcher

  /** The command dispatcher the receive loop calls for each completed packet. */
  type Handler = seq<Byte> -> Outcome

  /** The stub: its framer, whether a client is connected (`client >= 0`),
      and the outcomes the network has in store for the reply sends still to
      come (`true` when the send gets through; once the list is used up,
      every send gets through). */
  datatype Stub = Stub(framer: Framer, connected: bool, sends: seq<bool>)

  /** What the stub does that can be observed. */
  datatype Action =
    | Acked                           // '+' written to the client
    | Dispatched(payload: seq<Byte>)  // a completed packet handed to the dispatcher
    | Invoked(e: Event)               // a target callback run
    | Sent(packet: seq<Byte>)         // an encoded reply written to the client
    | Lost(packet: seq<Byte>)         // a reply whose send failed, closing the client
    | Diagnosed(text: seq<Byte>)      // the "unknown gdb command" diagnostic, with the text it prints

  /** A stub straight after `gdbstub_init`: listening, no client, facing a
      network with the given send outcomes. */
  function Start(sends: seq<bool>): (s: Stub)
    ensures !s.connected && Valid(s.framer) && s.framer.state == NoPacket
  {
    Stub(INIT, false, sends)
  }

  /** The result of receiving: the stub afterwards and what it did. */
  datatype Received = Received(stub: Stub, actions: seq<Action>)

  /** The bytes written to the client. A send on a closed client fails and
      writes nothing, so only actions taken while connected appear here. */
  function Wire(acts: seq<Action>): seq<Byte>
    decreases |acts|
  {
    if |acts| == 0 then [] else Written(acts[0]) + Wire(acts[1..])
  }

  /** The bytes one action writes. */
  function Written(act: Action): seq<Byte> {
    match act
    case Acked => [PLUS]
    case Sent(w) => w
    case _ => []
  }

  /** The payloads handed to the dispatcher, in order. */
  function Payloads(acts: seq<Action>): seq<seq<Byte>>
    decreases |acts|
  {
    if |acts| == 0 then []
    else (if acts[0].Dispatched? then [acts[0].payload] else []) + Payloads(acts[1..])
  }

  lemma {:induction false} WireAppend(a: seq<Action>, b: seq<Action>)
    ensures Wire(a + b) == Wire(a) + Wire(b)
    decreases |a|
  {
    if |a| == 0 {
      EmptyLeft(b);
      EmptyLeft(Wire(b));
    } else {
      Uncons(a, b);
      WireAppend(a[1..], b);
      assert Wire(a + b) == Written(a[0]) + Wire(a[1..] + b);
      Associative(Written(a[0]), Wire(a[1..]), Wire(b));
    }
  }

  lemma {:induction false} PayloadsAppend(a: seq<Action>, b: seq<Action>)
    ensures Payloads(a + b) == Payloads(a) + Payloads(b)
    decreases |a|
  {
    if |a| == 0 {
      EmptyLeft(b);
      EmptyLeft(Payloads(b));
    } else {
      Uncons(a, b);
      PayloadsAppend(a[1..], b);
      var head := if a[0].Dispatched? then [a[0].payload] else [];
      assert Payloads(a + b) == head + Payloads(a[1..] + b);
      Associative(head, Payloads(a[1..]), Payloads(b));
    }
  }

  /** Actions that write nothing to the client. */
  lemma {:induction false} WireQuiet(acts: seq<Action>)
    requires forall i :: 0 <= i < |acts| ==> !acts[i].Acked? && !acts[i].Sent?
    ensures Wire(acts) == []
    decreases |acts|
  {
    if |acts| > 0 {
      WireQuiet(acts[1..]);
    }
  }

  /** Actions that dispatch nothing. */
  lemma {:induction false} PayloadsNone(acts: seq<Action>)
    requires forall i :: 0 <= i < |acts| ==> !acts[i].Dispatched?
    ensures Payloads(acts) == []
    decreases |acts|
  {
    if |acts| > 0 {
      PayloadsNone(acts[1..]);
    }
  }

  /** Whether the next reply send gets through. */
  function Delivers(sends: seq<bool>): bool {
    |sends| == 0 || sends[0]
  }

  /** The send outcomes left after one reply send. */
  function Spend(sends: seq<bool>): seq<bool> {
    if |sends| == 0 then [] else sends[1..]
  }

  /** The reply of a packet as written to the client. A send on a closed
      client is not attempted (it fails without reaching the network); a
      send that fails on an open client is lost and closes it. */
  function Reply(connected: bool, sends: seq<bool>, reply: Option<Payload>): seq<Action> {
    if connected && reply.Some? then
      if Delivers(sends) then [Sent(Encode(reply.value))] else [Lost(Encode(reply.value))]
    else []
  }

  /** The text the diagnostic at the end of the dispatcher prints: the packet
      buffer read as a C string. A reply sent on the way there has overwritten
      that buffer with its framed form, whether or not the send got through;
      otherwise the buffer still holds the received payload, terminated where
      line 230 put the NUL. */
  function Printed(payload: seq<Byte>, reply: Option<Payload>): seq<Byte> {
    match reply
    case Some(r) => Encode(r)
    case None => CText(payload)
  }

  /** The completion of one packet, from line 228 of the receive loop through
      the dispatcher: acknowledge with '+', dispatch, run the callback, send the
      reply, print the diagnostic. Writes happen only while connected. */
  function Handle(dispatch: Handler, connected: bool, sends: seq<bool>, payload: seq<Byte>): seq<Action>
  {
    var o := dispatch(payload);
    (if connected then [Acked] else [])
      + ([Dispatched(payload)]
      + (Invocations(o.calls)
      + (Reply(connected, sends, o.reply)
      + (if o.diagnostic then [Diagnosed(Printed(payload, o.reply))] else []))))
  }

  /** Whether the client is still connected after a packet: `D` closes it,
      and so does a reply send that fails. */
  function StillOpen(dispatch: Handler, connected: bool, sends: seq<bool>, payload: seq<Byte>): bool {
    connected && !dispatch(payload).closes && (dispatch(payload).reply.None? || Delivers(sends))
  }

  /** The send outcomes left after a packet: one is used when a reply is
      sent on an open client. */
  function SendsAfter(dispatch: Handler, connected: bool, sends: seq<bool>, payload: seq<Byte>): seq<bool> {
    if connected && dispatch(payload).reply.Some? then Spend(sends) else sends
  }

  /** The callbacks run, as actions. The contract only unfolds the
      definition, for the proofs about `Handle`. */
  function Invocations(calls: seq<Event>): (acts: seq<Action>)
    ensures |acts| == |calls| && forall i :: 0 <= i < |calls| ==> acts[i] == Invoked(calls[i])
  {
    seq(|calls|, i requires 0 <= i < |calls| => Invoked(calls[i]))
  }

  /** The pieces `Handle` is made of: an unfolding aid for the lemmas that
      take a trace apart. */
  lemma HandleParts(dispatch: Handler, connected: bool, sends: seq<bool>, payload: seq<Byte>)
    ensures Handle(dispatch, connected, sends, payload) ==
      (if connected then [Acked] else [])
      + ([Dispatched(payload)]
      + (Invocations(dispatch(payload).calls)
      + (Reply(connected, sends, dispatch(payload).reply)
      + (if dispatch(payload).diagnostic then [Diagnosed(Printed(payload, dispatch(payload).reply))] else []))))
  {
  }

  /** Only the acknowledgement and the reply of a handled packet write. */
  lemma WireOfParts(ack: seq<Action>, d: Action, calls: seq<Action>, reply: seq<Action>, diag: seq<Action>)
    requires d.Dispatched? && Wire(calls) == [] && Wire(diag) == []
    ensures Wire(ack + ([d] + (calls + (reply + diag)))) == Wire(ack) + Wire(reply)
  {
    WireQuiet([d]);
    WireAppend(reply, diag);
    WireAppend(calls, reply + diag);
    WireAppend([d], calls + (reply + diag));
    EmptyRight(Wire(reply));
    EmptyLeft(Wire(reply));
    WireAppend(ack, [d] + (calls + (reply + diag)));
  }

  /** Handling a packet writes '+' and then the encoded reply (if any, and
      if its send gets through) when a client is connected, and nothing
      otherwise. */
  lemma HandleWire(dispatch: Handler, connected: bool, sends: seq<bool>, payload: seq<Byte>)
    ensures Wire(Handle(dispatch, connected, sends, payload)) ==
      if !connected then []
      else [PLUS] + (match dispatch(payload).reply
                     case Some(r) => if Delivers(sends) then Encode(r) else []
                     case None => [])
  {
    var o := dispatch(payload);
    var ack: seq<Action> := if connected then [Acked] else [];
    var calls := Invocations(o.calls);
    var reply := Reply(connected, sends, o.reply);
    var diag: seq<Action> := if o.diagnostic then [Diagnosed(Printed(payload, o.reply))] else [];
    HandleParts(dispatch, connected, sends, payload);
    WireQuiet(calls);
    WireQuiet(diag);
    WireOfParts(ack, Dispatched(payload), calls, reply, diag);
    WireReply(connected, sends, o.reply);
    if connected {
      assert Wire(ack) == [PLUS] by {
        assert Wire(ack) == Written(Acked) + Wire([]);
        EmptyRight([PLUS]);
      }
    } else {
      EmptyLeft(Wire(reply));
    }
  }

  /** What a reply writes: its frame when the client is open and the send
      gets through, and nothing otherwise. */
  lemma WireReply(connected: bool, sends: seq<bool>, reply: Option<Payload>)
    ensures Wire(Reply(connected, sends, reply)) ==
      if connected && reply.Some? && Delivers(sends) then Encode(reply.value) else []
  {
    if connected && reply.Some? {
      var a := if Delivers(sends) then Sent(Encode(reply.value)) else Lost(Encode(reply.value));
      assert Reply(connected, sends, reply) == [a];
      assert Wire([a]) == Written(a) + Wire([]);
      EmptyRight(Written(a));
    }
  }

  /** Handling a packet dispatches it exactly once. */
  lemma HandlePayloads(dispatch: Handler, connected: bool, sends: seq<bool>, payload: seq<Byte>)
    ensures Payloads(Handle(dispatch, connected, sends, payload)) == [payload]
  {
    var o := dispatch(payload);
    var ack: seq<Action> := if connected then [Acked] else [];
    var calls := Invocations(o.calls);
    var reply := Reply(connected, sends, o.reply);
    var diag: seq<Action> := if o.diagnostic then [Diagnosed(Printed(payload, o.reply))] else [];
    HandleParts(dispatch, connected, sends, payload);
    PayloadsNone(ack);
    PayloadsNone(calls);
    PayloadsNone(reply);
    PayloadsNone(diag);
    PayloadsAppend(reply, diag);
    PayloadsAppend(calls, reply + diag);
    PayloadsAppend([Dispatched(payload)], calls + (reply + diag));
    PayloadsAppend(ack, [Dispatched(payload)] + (calls + (reply + diag)));
    assert Payloads([Dispatched(payload)]) == [payload] + Payloads([]);
  }

  /** The callbacks run while handling a packet are exactly the ones the
      dispatcher chose, whether or not a client is connected. */
  lemma HandleInvokes(dispatch: Handler, connected: bool, sends: seq<bool>, payload: seq<Byte>, e: Event)
    ensures Invoked(e) in Handle(dispatch, connected, sends, payload) <==> e in dispatch(payload).calls
  {
    HandleParts(dispatch, connected, sends, payload);
  }

  /** The diagnostic is printed exactly when the dispatcher falls through to
      it, and what it prints is the packet buffer at that point. */
  lemma HandleDiagnoses(dispatch: Handler, connected: bool, sends: seq<bool>, payload: seq<Byte>, t: seq<Byte>)
    ensures Diagnosed(t) in Handle(dispatch, connected, sends, payload) <==>
      dispatch(payload).diagnostic && t == Printed(payload, dispatch(payload).reply)
  {
    HandleParts(dispatch, connected, sends, payload);
  }

  /** One byte of the receive loop. */
  function RecvByte(dispatch: Handler, s: Stub, c: Byte): (r: Received)
    requires Fits(s.framer, c)
    ensures r.stub.framer == Step(s.framer, c).next
    ensures r.stub.connected ==> s.connected
    ensures r.stub.sends == s.sends || r.stub.sends == Spend(s.sends)
  {
    var st := Step(s.framer, c);
    match st.frame
    case None => Received(s.(framer := st.next), [])
    case Some(f) =>
      // `D` or a failed reply send closes the client; the framer is back in
      // `NoPacket` either way.
      Received(Stub(st.next, StillOpen(dispatch, s.connected, s.sends, f.payload),
                    SendsAfter(dispatch, s.connected, s.sends, f.payload)),
               Handle(dispatch, s.connected, s.sends, f.payload))
  }

  /** The receive loop over one chunk returned by `recv`. Bytes after a packet
      that closed the session are still framed and dispatched. */
  function Receive(dispatch: Handler, s: Stub, bs: seq<Byte>): (r: Received)
    requires FitsAll(s.framer, bs)
    decreases |bs|
  {
    if |bs| == 0 then Received(s, [])
    else
      var h := RecvByte(dispatch, s, bs[0]);
      var t := Receive(dispatch, h.stub, bs[1..]);
      Received(t.stub, h.actions + t.actions)
  }

  /** A chunk that fits also fits in two parts, the second read from where
      the first left the stub. */
  lemma {:induction false} ReceiveSplitFits(dispatch: Handler, s: Stub, a: seq<Byte>, b: seq<Byte>)
    requires FitsAll(s.framer, a + b)
    ensures FitsAll(s.framer, a) && FitsAll(Receive(dispatch, s, a).stub.framer, b)
    decreases |a|
  {
    if |a| == 0 {
      EmptyLeft(b);
    } else {
      Uncons(a, b);
      var h := RecvByte(dispatch, s, a[0]);
      ReceiveSplitFits(dispatch, h.stub, a[1..], b);
    }
  }

  /** Splitting a chunk in two changes nothing: the same final stub and the
      same actions, in the same order. */
  lemma {:induction false} ReceiveSplit(dispatch: Handler, s: Stub, a: seq<Byte>, b: seq<Byte>)
    requires FitsAll(s.framer, a + b)
    ensures FitsAll(s.framer, a) && FitsAll(Receive(dispatch, s, a).stub.framer, b)
    ensures Receive(dispatch, s, a + b) ==
      Received(Receive(dispatch, Receive(dispatch, s, a).stub, b).stub,
               Receive(dispatch, s, a).actions + Receive(dispatch, Receive(dispatch, s, a).stub, b).actions)
    decreases |a|
  {
    ReceiveSplitFits(dispatch, s, a, b);
    if |a| == 0 {
      EmptyLeft(b);
      EmptyLeft(Receive(dispatch, s, b).actions);
    } else {
      Uncons(a, b);
      var h := RecvByte(dispatch, s, a[0]);
      ReceiveSplit(dispatch, h.stub, a[1..], b);
      var ab := Receive(dispatch, h.stub, a[1..] + b);
      var ta := Receive(dispatch, h.stub, a[1..]);
      var tb := Receive(dispatch, ta.stub, b);
      assert Receive(dispatch, s, a + b) == Received(ab.stub, h.actions + ab.actions);
      assert Receive(dispatch, s, a) == Received(ta.stub, h.actions + ta.actions);
      assert ab == Received(tb.stub, ta.actions + tb.actions);
      Associative(h.actions, ta.actions, tb.actions);
    }
  }

  /** A '$' right after a chunk that left the framer outside any packet opens
      a fresh, empty packet; the connection flag is not touched. */
  lemma DollarOpens(dispatch: Handler, s: Stub, a: seq<Byte>)
    requires FitsAll(s.framer, a) && Receive(dispatch, s, a).stub.framer.state == NoPacket
    ensures FitsAll(s.framer, a + [DOLLAR])
    ensures Receive(dispatch, s, a + [DOLLAR]).stub.connected == Receive(dispatch, s, a).stub.connected
    ensures Receive(dispatch, s, a + [DOLLAR]).stub.framer.state == InPacket
    ensures Receive(dispatch, s, a + [DOLLAR]).stub.framer.packet == []
  {
    var r1 := Receive(dispatch, s, a);
    ReceiveIsReplay(dispatch, s, a);
    assert [DOLLAR][1..] == [];
    assert FitsAll(r1.stub.framer, [DOLLAR]);
    FitsAllJoin(s.framer, a, [DOLLAR]);
    ReceiveSplit(dispatch, s, a, [DOLLAR]);
    var h := RecvByte(dispatch, r1.stub, DOLLAR);
    assert Receive(dispatch, r1.stub, [DOLLAR]).stub == h.stub;
  }

  /** The session-level effect of a sequence of completed packets: each one
      handled in turn, the connection closing after a `D` or a failed reply. */
  datatype Replayed = Replayed(connected: bool, sends: seq<bool>, actions: seq<Action>)

  function Replay(dispatch: Handler, connected: bool, sends: seq<bool>, frames: seq<Frame>): Replayed
    decreases |frames|
  {
    if |frames| == 0 then Replayed(connected, sends, [])
    else
      var p := frames[0].payload;
      var rest := Replay(dispatch, StillOpen(dispatch, connected, sends, p),
                         SendsAfter(dispatch, connected, sends, p), frames[1..]);
      Replayed(rest.connected, rest.sends, Handle(dispatch, connected, sends, p) + rest.actions)
  }

  /** A single completed packet is handled on its own. */
  lemma ReplayOne(dispatch: Handler, connected: bool, sends: seq<bool>, frames: seq<Frame>)
    requires |frames| == 1
    ensures Replay(dispatch, connected, sends, frames).actions == Handle(dispatch, connected, sends, frames[0].payload)
    ensures Replay(dispatch, connected, sends, frames).connected == StillOpen(dispatch, connected, sends, frames[0].payload)
    ensures Replay(dispatch, connected, sends, frames).sends == SendsAfter(dispatch, connected, sends, frames[0].payload)
  {
    assert frames[1..] == [];
    EmptyRight(Handle(dispatch, connected, sends, frames[0].payload));
  }

  /** The receive loop is the framer followed by the dispatcher: the framer
      ends where `Feed` leaves it, and the actions are those of handling the
      packets `Feed` completes, in order. The trailer's value plays no part. */
  lemma {:induction false} ReceiveIsReplay(dispatch: Handler, s: Stub, bs: seq<Byte>)
    requires FitsAll(s.framer, bs)
    ensures Receive(dispatch, s, bs).stub.framer == Feed(s.framer, bs).last
    ensures Receive(dispatch, s, bs).stub.connected == Replay(dispatch, s.connected, s.sends, Feed(s.framer, bs).frames).connected
    ensures Receive(dispatch, s, bs).stub.sends == Replay(dispatch, s.connected, s.sends, Feed(s.framer, bs).frames).sends
    ensures Receive(dispatch, s, bs).actions == Replay(dispatch, s.connected, s.sends, Feed(s.framer, bs).frames).actions
    decreases |bs|
  {
    if |bs| > 0 {
      var st := Step(s.framer, bs[0]);
      var h := RecvByte(dispatch, s, bs[0]);
      ReceiveIsReplay(dispatch, h.stub, bs[1..]);
      var rest := Feed(st.next, bs[1..]).frames;
      if st.frame.Some? {
        Uncons1(st.frame.value, rest);
      } else {
        EmptyLeft(rest);
      }
    }
  }

  /** Every packet the framer completes is dispatched exactly once, in order,
      whether or not its trailer matched. */
  lemma {:induction false} ReplayPayloads(dispatch: Handler, connected: bool, sends: seq<bool>, frames: seq<Frame>)
    ensures Payloads(Replay(dispatch, connected, sends, frames).actions) ==
      seq(|frames|, i requires 0 <= i < |frames| => frames[i].payload)
    decreases |frames|
  {
    if |frames| > 0 {
      var p := frames[0].payload;
      var c' := StillOpen(dispatch, connected, sends, p);
      var s' := SendsAfter(dispatch, connected, sends, p);
      ReplayPayloads(dispatch, c', s', frames[1..]);
      HandlePayloads(dispatch, connected, sends, p);
      PayloadsAppend(Handle(dispatch, connected, sends, p), Replay(dispatch, c', s', frames[1..]).actions);
      FramePayloadsCons(frames);
    }
  }

  /** The payloads of a non-empty list of frames: the first, then the rest. */
  lemma FramePayloadsCons(frames: seq<Frame>)
    requires |frames| > 0
    ensures seq(|frames|, i requires 0 <= i < |frames| => frames[i].payload) ==
      [frames[0].payload] + seq(|frames[1..]|, i requires 0 <= i < |frames[1..]| => frames[1..][i].payload)
  {
  }

  /** With no client, nothing reaches the wire, no client appears, and no
      send is attempted. */
  lemma {:induction false} ReplayDisconnectedSilent(dispatch: Handler, sends: seq<bool>, frames: seq<Frame>)
    ensures Wire(Replay(dispatch, false, sends, frames).actions) == []
    ensures !Replay(dispatch, false, sends, frames).connected
    ensures Replay(dispatch, false, sends, frames).sends == sends
    decreases |frames|
  {
    if |frames| > 0 {
      ReplayDisconnectedSilent(dispatch, sends, frames[1..]);
      HandleWire(dispatch, false, sends, frames[0].payload);
      WireAppend(Handle(dispatch, false, sends, frames[0].payload), Replay(dispatch, false, sends, frames[1..]).actions);
      EmptyLeft(Wire(Replay(dispatch, false, sends, frames[1..]).actions));
    }
  }

  /** Sending while no client is connected is a no-op: a chunk processed
      without a client writes nothing. */
  lemma DisconnectedIsSilent(dispatch: Handler, s: Stub, bs: seq<Byte>)
    requires FitsAll(s.framer, bs) && !s.connected
    ensures Wire(Receive(dispatch, s, bs).actions) == []
    ensures !Receive(dispatch, s, bs).stub.connected
    ensures Receive(dispatch, s, bs).stub.sends == s.sends
  {
    ReceiveIsReplay(dispatch, s, bs);
    ReplayDisconnectedSilent(dispatch, s.sends, Feed(s.framer, bs).frames);
  }

  /** The checksum is not enforced: whatever two trailer digits close a packet,
      the stub does the same, keeps or closes the connection the same way, and
      returns to `NoPacket` with the same payload buffer. Only the stored
      trailer digits differ. */
  lemma ChecksumIgnored(dispatch: Handler, s: Stub, x1: Byte, y1: Byte, x2: Byte, y2: Byte)
    requires s.framer.state == InPacket
    ensures FitsAll(s.framer, [HASH, x1, y1]) && FitsAll(s.framer, [HASH, x2, y2])
    ensures Receive(dispatch, s, [HASH, x1, y1]).actions == Receive(dispatch, s, [HASH, x2, y2]).actions
    ensures Receive(dispatch, s, [HASH, x1, y1]).stub.connected == Receive(dispatch, s, [HASH, x2, y2]).stub.connected
    ensures Receive(dispatch, s, [HASH, x1, y1]).stub.sends == Receive(dispatch, s, [HASH, x2, y2]).stub.sends
    ensures Receive(dispatch, s, [HASH, x1, y1]).stub.framer
         == Receive(dispatch, s, [HASH, x2, y2]).stub.framer.(digits := [x1, y1])
  {
    Trailer(s.framer, x1, y1);
    Trailer(s.framer, x2, y2);
    ReceiveIsReplay(dispatch, s, [HASH, x1, y1]);
    ReceiveIsReplay(dispatch, s, [HASH, x2, y2]);
    var p := s.framer.packet;
    assert Replay(dispatch, s.connected, s.sends, Feed(s.framer, [HASH, x1, y1]).frames)
        == Replay(dispatch, s.connected, s.sends, Feed(s.framer, [HASH, x2, y2]).frames) by {
      assert [Frame(p, ParseHex2(x1, y1), s.framer.checksum)][1..] == [];
      assert [Frame(p, ParseHex2(x2, y2), s.framer.checksum)][1..] == [];
    }
  }

  /** Round trip through the whole stub: from `NoPacket`, the encoding of a
      payload without '#' is acknowledged, dispatched as exactly that payload
      and answered, and nothing else happens. */
  lemma EncodedPacketHandled(dispatch: Handler, s: Stub, d: seq<Byte>)
    requires s.framer.state == NoPacket
    requires Encodable(d) && HASH !in d
    ensures FitsAll(s.framer, Encode(d))
    ensures Receive(dispatch, s, Encode(d)).actions == Handle(dispatch, s.connected, s.sends, d)
    ensures Receive(dispatch, s, Encode(d)).stub.connected == StillOpen(dispatch, s.connected, s.sends, d)
    ensures Receive(dispatch, s, Encode(d)).stub.sends == SendsAfter(dispatch, s.connected, s.sends, d)
    ensures Receive(dispatch, s, Encode(d)).stub.framer.state == NoPacket
  {
    EncodeThenFeed(s.framer, d);
    ReceiveIsReplay(dispatch, s, Encode(d));
    ReplayOne(dispatch, s.connected, s.sends, Feed(s.framer, Encode(d)).frames);
  }

  /** The same packet arriving while the framer is still inside an empty
      packet is handled as one packet whose payload starts with its own '$'. */
  lemma EncodedPacketMidPacket(dispatch: Handler, s: Stub, d: seq<Byte>)
    requires s.framer.state == InPacket && s.framer.packet == []
    requires Encodable(d) && HASH !in d
    ensures FitsAll(s.framer, Encode(d))
    ensures Receive(dispatch, s, Encode(d)).actions == Handle(dispatch, s.connected, s.sends, [DOLLAR] + d)
  {
    EncodeMidPacket(s.framer, d);
    assert s.framer.packet + [DOLLAR] + d == [DOLLAR] + d;
    ReceiveIsReplay(dispatch, s, Encode(d));
    ReplayOne(dispatch, s.connected, s.sends, Feed(s.framer, Encode(d)).frames);
  }

  /** A reply whose send fails closes the client (the client is closed and
      the state reset, and the loop's own reset follows): '+' is all that
      reached the wire, the rest of the chunk is still framed and dispatched
      but writes nothing, and the next tick accepts a new client. */
  lemma FailedReplyCloses(dispatch: Handler, s: Stub, d: seq<Byte>, rest: seq<Byte>)
    requires s.connected && s.framer.state == NoPacket && !Delivers(s.sends)
    requires Encodable(d) && HASH !in d && dispatch(d).reply.Some?
    requires FitsAll(s.framer, Encode(d) + rest)
    ensures var r := Receive(dispatch, s, Encode(d) + rest);
      && Wire(r.actions) == [PLUS]
      && Lost(Encode(dispatch(d).reply.value)) in r.actions
      && !r.stub.connected
      && r.stub.sends == Spend(s.sends)
      && Tick(dispatch, r.stub, Transport(true, WouldBlock)).stub == r.stub.(connected := true)
  {
    EncodedPacketHandled(dispatch, s, d);
    ReceiveSplit(dispatch, s, Encode(d), rest);
    var r1 := Receive(dispatch, s, Encode(d));
    var r2 := Receive(dispatch, r1.stub, rest);
    DisconnectedIsSilent(dispatch, r1.stub, rest);
    HandleWire(dispatch, true, s.sends, d);
    EmptyRight([PLUS]);
    WireAppend(r1.actions, r2.actions);
    HandleParts(dispatch, true, s.sends, d);
    assert Lost(Encode(dispatch(d).reply.value)) in r1.actions;
  }

  /** What `recv` reported: some bytes (none when the peer has shut down its
      side, which the stub does not treat as a disconnect), no data yet
      (`EAGAIN`), or a failure. */
  datatype RecvResult = Data(bytes: seq<Byte>) | WouldBlock | Failed

  /** The transport's answers to whichever call a tick makes: whether `accept`
      yields a client, and what `recv` reports. */
  datatype Transport = Transport(accepts: bool, recv: RecvResult)

  /** `gdbstub_tick`: without a client, try to accept one; with a client,
      receive one chunk and process it. A failed receive closes the client and
      resets the state to `NoPacket`, leaving the other framing fields as they
      were. Accepting does not touch the framer. */
  function Tick(dispatch: Handler, s: Stub, t: Transport): (r: Received)
    requires s.connected && t.recv.Data? ==> FitsAll(s.framer, t.recv.bytes)
  {
    if !s.connected then Received(s.(connected := t.accepts), [])
    else
      match t.recv
      case Data(bs) => Receive(dispatch, s, bs)
      case WouldBlock => Received(s, [])
      case Failed => Received(s.(framer := s.framer.(state := NoPacket), connected := false), [])
  }

  /** A tick keeps the framer's invariant. */
  lemma TickValid(dispatch: Handler, s: Stub, t: Transport)
    requires s.connected && t.recv.Data? ==> FitsAll(s.framer, t.recv.bytes)
    requires Valid(s.framer)
    ensures Valid(Tick(dispatch, s, t).stub.framer)
  {
    if s.connected && t.recv.Data? {
      ReceiveIsReplay(dispatch, s, t.recv.bytes);
      FeedValid(s.framer, t.recv.bytes);
    }
  }

  /** Bytes split over two receives behave as one receive, provided the
      session is still open after the first: then the second tick receives
      rather than accepts. */
  lemma TickSplit(dispatch: Handler, s: Stub, a: seq<Byte>, b: seq<Byte>, accepts: bool)
    requires s.connected && FitsAll(s.framer, a + b)
    requires FitsAll(s.framer, a) && Receive(dispatch, s, a).stub.connected
    ensures FitsAll(Tick(dispatch, s, Transport(accepts, Data(a))).stub.framer, b)
    ensures Tick(dispatch, s, Transport(accepts, Data(a + b))) ==
      var first := Tick(dispatch, s, Transport(accepts, Data(a)));
      var second := Tick(dispatch, first.stub, Transport(accepts, Data(b)));
      Received(second.stub, first.actions + second.actions)
  {
    ReceiveSplit(dispatch, s, a, b);
  }

  /** A lost connection leaves the stub without a client and in `NoPacket`,
      ready to accept again. */
  lemma LostConnectionResets(dispatch: Handler, s: Stub, accepts: bool)
    requires s.connected
    ensures Tick(dispatch, s, Transport(accepts, Failed)).stub == Stub(s.framer.(state := NoPacket), false, s.sends)
    ensures Tick(dispatch, s, Transport(accepts, Failed)).actions == []
  {
  }
}
