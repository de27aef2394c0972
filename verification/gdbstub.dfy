/** The stub with its own dispatcher plugged into the receive loop, and what
    a client sees of it end to end. */
module Gdbstub {
  import opened Wrappers
  import opened Bytes
  import opened Encoder
  import opened Framing
  import opened Dispatcher
  import opened Session

  /** `_gdbstub_process_packet` for a given configuration, as the receive loop
      calls it. */
  function ProcessPacket(cfg: Config): Session.Handler {
    p => Dispatch(cfg, p)
  }

  /** An encoded packet arriving on an open session, outside any packet, is
      acknowledged and answered with the framed reply of its command when
      that send gets through. The session then stays open unless the packet
      was `D` or the reply was lost. */
  lemma Exchange(cfg: Config, s: Stub, d: seq<Byte>)
    requires s.connected && s.framer.state == NoPacket
    requires Encodable(d) && HASH !in d
    ensures FitsAll(s.framer, Encode(d))
    ensures Wire(Receive(ProcessPacket(cfg), s, Encode(d)).actions) ==
      [PLUS] + (match Dispatch(cfg, d).reply
                case Some(r) => if Delivers(s.sends) then Encode(r) else []
                case None => [])
    ensures Receive(ProcessPacket(cfg), s, Encode(d)).stub.connected <==>
      Classify(d) != Detach && (Dispatch(cfg, d).reply.None? || Delivers(s.sends))
    ensures Receive(ProcessPacket(cfg), s, Encode(d)).stub.framer.state == NoPacket
  {
    EncodedPacketHandled(ProcessPacket(cfg), s, d);
    HandleWire(ProcessPacket(cfg), true, s.sends, d);
  }

  /** A query is answered on the wire with '+' and its framed fixed reply, and
      the session stays open, unless the reply's send fails: then only '+'
      got through and the client is closed. */
  lemma QueryExchange(cfg: Config, s: Stub, q: Query, d: seq<Byte>)
    requires s.connected && s.framer.state == NoPacket
    requires Encodable(d) && HASH !in d && Asks(q, d)
    ensures FitsAll(s.framer, Encode(d))
    ensures Wire(Receive(ProcessPacket(cfg), s, Encode(d)).actions) ==
      [PLUS] + (if Delivers(s.sends) then Encode(QueryReply(q)) else [])
    ensures Receive(ProcessPacket(cfg), s, Encode(d)).stub.connected == Delivers(s.sends)
  {
    DispatchQuery(cfg, q, d);
    Exchange(cfg, s, d);
  }

  /** The bytes of the `qSupported` packet. */
  lemma SupportedBytes(d: seq<Byte>)
    requires d == Str("qSupported")
    ensures Encodable(d) && HASH !in d && Asks(Supported, d)
  {
    assert StartsWith(d, QueryText(Supported));
  }

  /** A client that sends `$qSupported#37` gets '+' and then the framed
      `PacketSize=1024`, and the session stays open, as long as the reply's
      send gets through. */
  lemma SupportedExchange(cfg: Config, s: Stub, d: seq<Byte>)
    requires s.connected && s.framer.state == NoPacket
    requires d == Str("qSupported")
    ensures FitsAll(s.framer, Encode(d))
    ensures Wire(Receive(ProcessPacket(cfg), s, Encode(d)).actions) ==
      [PLUS] + (if Delivers(s.sends) then Encode(Str("PacketSize=1024")) else [])
    ensures Receive(ProcessPacket(cfg), s, Encode(d)).stub.connected == Delivers(s.sends)
  {
    SupportedBytes(d);
    QueryExchange(cfg, s, Supported, d);
  }

  /** A client that sends a `D` packet (such as `$D#44`) gets '+' and the
      framed "OK" (if that send gets through); then the session is closed
      with the framer in `NoPacket` either way. */
  lemma DetachExchange(cfg: Config, s: Stub, d: seq<Byte>)
    requires s.connected && s.framer.state == NoPacket
    requires Encodable(d) && HASH !in d && |d| > 0 && d[0] == Ascii('D')
    ensures FitsAll(s.framer, Encode(d))
    ensures Wire(Receive(ProcessPacket(cfg), s, Encode(d)).actions) ==
      [PLUS] + (if Delivers(s.sends) then Encode(Str("OK")) else [])
    ensures !Receive(ProcessPacket(cfg), s, Encode(d)).stub.connected
    ensures Receive(ProcessPacket(cfg), s, Encode(d)).stub.framer.state == NoPacket
  {
    LetterReplies(cfg, d);
    Exchange(cfg, s, d);
  }

  /** Bytes that follow a detach in the same chunk are still framed. A '$'
      there leaves the stub without a client but inside a packet, and the
      next accepted client starts from that state, not from a fresh one. */
  lemma DetachLeavesPacketOpen(cfg: Config, s: Stub, d: seq<Byte>)
    requires s.connected && s.framer.state == NoPacket
    requires Encodable(d) && HASH !in d && |d| > 0 && d[0] == Ascii('D')
    ensures FitsAll(s.framer, Encode(d) + [DOLLAR])
    ensures var r := Receive(ProcessPacket(cfg), s, Encode(d) + [DOLLAR]);
      && !r.stub.connected
      && r.stub.framer.state == InPacket && r.stub.framer.packet == []
      && Tick(ProcessPacket(cfg), r.stub, Transport(true, WouldBlock)).stub == r.stub.(connected := true)
  {
    var h := ProcessPacket(cfg);
    DetachExchange(cfg, s, d);
    DollarOpens(h, s, Encode(d));
  }

  /** The consequence for the next client: its first packet, however well
      formed, is dispatched with the stale '$' in front, is not recognised,
      and is answered with nothing but '+'. */
  lemma StaleFrameSwallowsNextCommand(cfg: Config, f: Framer, sends: seq<bool>, d: seq<Byte>)
    requires f.state == InPacket && f.packet == []
    requires Encodable(d) && HASH !in d
    ensures FitsAll(f, Encode(d))
    ensures var r := Receive(ProcessPacket(cfg), Stub(f, true, sends), Encode(d));
      && Payloads(r.actions) == [[DOLLAR] + d]
      && Wire(r.actions) == [PLUS]
  {
    var h := ProcessPacket(cfg);
    var p := [DOLLAR] + d;
    EncodedPacketMidPacket(h, Stub(f, true, sends), d);
    StrayDollar(p);
    UnknownIgnored(cfg, p);
    HandleWire(h, true, sends, p);
    HandlePayloads(h, true, sends, p);
  }

  /** The frame of "OK", as `D`, `H`, `z` and `Z` are answered on the wire. */
  lemma OkWire()
    ensures Encode(Str("OK")) == Str("$OK#9a")
  {
    var d := Str("OK");
    assert Sum(d) == 0x9a by {
      assert d[..1] == [0x4f];
      assert Sum(d[..1]) == Sum([]) + 0x4f;
    }
    assert Hex2(0x9a) == Str("9a");
  }

  /** The frame of the `qSupported` query a debugger opens with. */
  lemma SupportedWire()
    ensures Encode(Str("qSupported")) == Str("$qSupported#37")
  {
    SupportedFrame(Str("qSupported"), Str("37"), Str("$qSupported#37"));
  }

  /** `SupportedWire` with the literals named, which keeps the proof small. */
  lemma SupportedFrame(d: seq<Byte>, hh: seq<Byte>, w: seq<Byte>)
    requires d == Str("qSupported") && hh == Str("37") && w == Str("$qSupported#37")
    ensures Encodable(d) && Encode(d) == w
  {
    SupportedSum(d);
    assert Hex2(0x37) == hh;
    SupportedText(d, hh, w);
  }

  /** The literal frame, taken apart. */
  lemma SupportedText(d: seq<Byte>, hh: seq<Byte>, w: seq<Byte>)
    requires d == Str("qSupported") && hh == Str("37") && w == Str("$qSupported#37")
    ensures w == [DOLLAR] + d + [HASH] + hh
  {
    assert "$qSupported#37" == "$" + "qSupported" + "#" + "37";
    StrAppend("$", "qSupported");
    StrAppend("$" + "qSupported", "#");
    StrAppend("$" + "qSupported" + "#", "37");
  }

  /** The byte sum of `qSupported`. */
  lemma SupportedSum(d: seq<Byte>)
    requires d == Str("qSupported")
    ensures Sum(d) == 0x437
  {
    SumAppend(d[..5], d[5..]);
    assert d == d[..5] + d[5..];
    assert d[..5] == [0x71, 0x53, 0x75, 0x70, 0x70];
    assert d[5..] == [0x6f, 0x72, 0x74, 0x65, 0x64];
    SumString5(d[..5], 0x71, 0x53, 0x75, 0x70, 0x70);
    SumString5(d[5..], 0x6f, 0x72, 0x74, 0x65, 0x64);
  }

  /** The sum of five given bytes. */
  lemma SumString5(s: seq<Byte>, a: Byte, b: Byte, c: Byte, d: Byte, e: Byte)
    requires s == [a, b, c, d, e]
    ensures Sum(s) == a + b + c + d + e
  {
    assert s[..4] == [a, b, c, d];
    assert [a, b, c, d][..3] == [a, b, c];
    assert [a, b, c][..2] == [a, b];
    assert [a, b][..1] == [a];
    assert [a][..0] == [];
    assert Sum([a]) == a;
    assert Sum([a, b]) == a + b;
    assert Sum([a, b, c]) == a + b + c;
    assert Sum([a, b, c, d]) == a + b + c + d;
  }

  /** For `z` and `Z`, the reply's send has rewritten the packet buffer before
      control falls through to the diagnostic, so the diagnostic prints the
      framed "OK", not the command, whether or not a client is connected. */
  lemma BreakpointDiagnostic(cfg: Config, connected: bool, sends: seq<bool>, d: seq<Byte>, t: seq<Byte>)
    requires |d| > 0 && (d[0] == Ascii('z') || d[0] == Ascii('Z'))
    ensures Diagnosed(t) in Handle(ProcessPacket(cfg), connected, sends, d) <==> t == Str("$OK#9a")
  {
    BreakpointsIgnored(cfg, d);
    HandleDiagnoses(ProcessPacket(cfg), connected, sends, d, t);
    OkWire();
  }

  /** An unknown command is printed as received, up to its first NUL. */
  lemma UnknownDiagnostic(cfg: Config, connected: bool, sends: seq<bool>, d: seq<Byte>, t: seq<Byte>)
    requires Classify(d) == Unknown
    ensures Diagnosed(t) in Handle(ProcessPacket(cfg), connected, sends, d) <==> t == CText(d)
  {
    UnknownIgnored(cfg, d);
    HandleDiagnoses(ProcessPacket(cfg), connected, sends, d, t);
  }

  /** No other command prints the diagnostic. */
  lemma OnlyUnknownAndBreakpointsDiagnose(cfg: Config, connected: bool, sends: seq<bool>, d: seq<Byte>, t: seq<Byte>)
    requires Classify(d) !in {Unknown, ClearBreak, SetBreak}
    ensures Diagnosed(t) !in Handle(ProcessPacket(cfg), connected, sends, d)
  {
    HandleDiagnoses(ProcessPacket(cfg), connected, sends, d, t);
  }
}
