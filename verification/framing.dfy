/** The packet framer of `_gdbstub_recv`: a byte-at-a-time state machine that
    reassembles `$<payload>#<hh>` packets, keeps a running additive checksum
    of the payload, and hands every completed packet on, whether or not the
    trailer agrees with that checksum. */
module Framing {
  import opened Wrappers
  import opened Sequences
  import opened Bytes
  import opened Encoder

  /** The size of the stub's packet buffer. */
  const BUFFER_LENGTH := 4096

  /** `gdbstate_t`. */
  datatype State = NoPacket | InPacket | InChecksum

  /** The framing fields of `struct gdbstub`: the state, the payload collected
      so far (`packet`/`packet_length`), its running checksum, and the trailer
      digits collected so far (`checksum`/`checksum_length`). The fields keep
      their last values while the state is `NoPacket`. */
  datatype Framer = Framer(state: State, packet: seq<Byte>, checksum: Byte, digits: seq<Byte>)

  /** A completed packet: its payload, the value its trailer parses to (if it
      parses), and the running checksum the stub computed. */
  datatype Frame = Frame(payload: seq<Byte>, claimed: Option<Byte>, running: Byte) {
    /** The trailer agrees with the payload. */
    predicate Intact() {
      claimed == Some(running)
    }
  }

  /** The result of consuming one byte. */
  datatype Stepped = Stepped(next: Framer, frame: Option<Frame>)

  /** The framer of a freshly initialised stub. */
  const INIT: Framer := Framer(NoPacket, [], 0, [])

  /** The invariant the framer keeps: the running checksum is that of the
      buffered payload, the payload leaves room for its NUL terminator, and at
      most one trailer digit is pending. */
  predicate Valid(f: Framer) {
    && f.checksum == Checksum(f.packet)
    && |f.packet| < BUFFER_LENGTH
    && (f.state == InChecksum ==> |f.digits| < 2)
  }

  /** Consuming `c` does not write past the packet buffer: an appended payload
      byte still leaves room for the terminator stored before dispatch. */
  predicate Fits(f: Framer, c: Byte) {
    f.state == InPacket && c != HASH ==> |f.packet| + 1 < BUFFER_LENGTH
  }

  /** One iteration of the receive loop's `switch`. */
  function Step(f: Framer, c: Byte): (r: Stepped)
    requires Fits(f, c)
    ensures r.frame.Some? <==> f.state == InChecksum && |f.digits| == 1
    ensures r.frame.Some? ==> r.frame.value.payload == f.packet && r.next.state == NoPacket
    ensures r.frame.Some? ==> r.frame.value.claimed == ParseHex2(f.digits[0], c)
    ensures r.next.state == NoPacket ==> r.next.packet == f.packet
  {
    match f.state
    case NoPacket =>
      // Anything but '$' is dropped; the 0x03 interrupt is a no-op as well.
      if c == DOLLAR then Stepped(Framer(InPacket, [], 0, f.digits), None)
      else Stepped(f, None)
    case InPacket =>
      if c == HASH then Stepped(f.(state := InChecksum, digits := []), None)
      else Stepped(f.(packet := f.packet + [c], checksum := (f.checksum + c) % 256), None)
    case InChecksum =>
      var digits := f.digits + [c];
      if |digits| == 2 then
        // The trailer is parsed but never compared: the packet is dispatched
        // and the framer goes back to `NoPacket` either way.
        Stepped(f.(state := NoPacket, digits := digits),
                Some(Frame(f.packet, ParseHex2(digits[0], digits[1]), f.checksum)))
      else
        Stepped(f.(digits := digits), None)
  }

  /** Every step keeps the invariant. */
  lemma StepValid(f: Framer, c: Byte)
    requires Valid(f) && Fits(f, c)
    ensures Valid(Step(f, c).next)
    ensures Step(f, c).frame.Some? ==> Step(f, c).frame.value.running == Checksum(Step(f, c).frame.value.payload)
  {
    if f.state == InPacket && c != HASH {
      ChecksumSnoc(f.packet, c);
    }
  }

  /** Idle and accumulating behaviour, byte by byte. */
  lemma StepCases(f: Framer, c: Byte)
    requires Fits(f, c)
    ensures f.state == NoPacket && c != DOLLAR ==> Step(f, c) == Stepped(f, None)
    ensures f.state == NoPacket && c == DOLLAR ==>
      Step(f, c).next.state == InPacket && Step(f, c).next.packet == [] && Step(f, c).next.checksum == 0
    ensures f.state == InPacket && c != HASH ==>
      Step(f, c).next.state == InPacket && Step(f, c).next.packet == f.packet + [c] && Step(f, c).frame == None
    ensures f.state == InPacket && c == HASH ==>
      Step(f, c).next.state == InChecksum && Step(f, c).next.digits == [] && Step(f, c).frame == None
  {
  }

  /** Every step of `bs`, started from `f`, stays inside the packet buffer. */
  predicate FitsAll(f: Framer, bs: seq<Byte>)
    decreases |bs|
  {
    |bs| == 0 || (Fits(f, bs[0]) && FitsAll(Step(f, bs[0]).next, bs[1..]))
  }

  /** The framer after a chunk of bytes, and the packets completed in it. */
  datatype Fed = Fed(last: Framer, frames: seq<Frame>)

  /** The receive loop: `Step` folded over the bytes of a chunk. */
  function Feed(f: Framer, bs: seq<Byte>): (r: Fed)
    requires FitsAll(f, bs)
    decreases |bs|
  {
    if |bs| == 0 then Fed(f, [])
    else
      var s := Step(f, bs[0]);
      var rest := Feed(s.next, bs[1..]);
      Fed(rest.last, (if s.frame.Some? then [s.frame.value] else []) + rest.frames)
  }

  /** Feeding keeps the invariant, and every packet handed on carries the
      checksum of its own payload. */
  lemma {:induction false} FeedValid(f: Framer, bs: seq<Byte>)
    requires Valid(f) && FitsAll(f, bs)
    ensures Valid(Feed(f, bs).last)
    ensures forall i :: 0 <= i < |Feed(f, bs).frames| ==>
      Feed(f, bs).frames[i].running == Checksum(Feed(f, bs).frames[i].payload)
    decreases |bs|
  {
    if |bs| > 0 {
      StepValid(f, bs[0]);
      FeedValid(Step(f, bs[0]).next, bs[1..]);
    }
  }

  /** Splitting a chunk in two changes nothing: feeding `a + b` at once is
      feeding `a`, then `b` from where `a` left the framer. */
  lemma {:induction false} FeedSplit(f: Framer, a: seq<Byte>, b: seq<Byte>)
    requires FitsAll(f, a + b)
    ensures FitsAll(f, a) && FitsAll(Feed(f, a).last, b)
    ensures Feed(f, a + b) ==
      Fed(Feed(Feed(f, a).last, b).last, Feed(f, a).frames + Feed(Feed(f, a).last, b).frames)
    decreases |a|
  {
    if |a| == 0 {
      EmptyLeft(b);
      EmptyLeft(Feed(f, b).frames);
    } else {
      Uncons(a, b);
      var st := Step(f, a[0]);
      FeedSplit(st.next, a[1..], b);
      var fa := Feed(st.next, a[1..]);
      var fb := Feed(fa.last, b);
      var head := if st.frame.Some? then [st.frame.value] else [];
      assert Feed(f, a + b) == Fed(Feed(st.next, a[1..] + b).last, head + Feed(st.next, a[1..] + b).frames);
      assert Feed(f, a) == Fed(fa.last, head + fa.frames);
      Associative(head, fa.frames, fb.frames);
    }
  }

  /** The converse bound: if both halves fit in turn, so does the whole. */
  lemma {:induction false} FitsAllJoin(f: Framer, a: seq<Byte>, b: seq<Byte>)
    requires FitsAll(f, a) && FitsAll(Feed(f, a).last, b)
    ensures FitsAll(f, a + b)
    decreases |a|
  {
    if |a| == 0 {
      EmptyLeft(b);
    } else {
      Uncons(a, b);
      FitsAllJoin(Step(f, a[0]).next, a[1..], b);
    }
  }

  /** Payload bytes without a '#' are simply accumulated. */
  lemma {:induction false} FeedPayload(f: Framer, d: seq<Byte>)
    requires f.state == InPacket && HASH !in d
    requires |f.packet| + |d| < BUFFER_LENGTH
    ensures FitsAll(f, d)
    ensures Feed(f, d) == Fed(f.(packet := f.packet + d, checksum := (f.checksum + Sum(d)) % 256), [])
    decreases |d|
  {
    if |d| > 0 {
      var c, rest := d[0], d[1..];
      Cons(d);
      assert c in d;
      var f' := f.(packet := f.packet + [c], checksum := (f.checksum + c) % 256);
      assert Step(f, c) == Stepped(f', None);
      FeedPayload(f', rest);
      Associative(f.packet, [c], rest);
      SumAppend([c], rest);
      SumSingleton(c);
      ModAdd(f.checksum + c, Sum(rest));
    }
  }

  /** The '#' and two trailer digits that close a packet complete exactly one
      frame, whatever the digits are, and leave the framer in `NoPacket`. */
  lemma Trailer(f: Framer, x: Byte, y: Byte)
    requires f.state == InPacket
    ensures FitsAll(f, [HASH, x, y])
    ensures Feed(f, [HASH, x, y]).frames == [Frame(f.packet, ParseHex2(x, y), f.checksum)]
    ensures Feed(f, [HASH, x, y]).last == f.(state := NoPacket, digits := [x, y])
  {
    var f1 := Step(f, HASH).next;
    assert f1.state == InChecksum && f1.digits == [];
    var f2 := Step(f1, x).next;
    assert f2.state == InChecksum && f2.digits == [x] && f2.packet == f.packet;
    var s3 := Step(f2, y);
    assert s3.frame == Some(Frame(f.packet, ParseHex2(x, y), f.checksum));
    assert [y][1..] == [];
    assert Feed(f2, [y]) == Fed(s3.next, [s3.frame.value]);
    assert [x, y][1..] == [y];
    assert Feed(f1, [x, y]) == Feed(f2, [y]);
    assert [HASH, x, y][1..] == [x, y];
  }

  /** Round trip: from `NoPacket`, the encoding of a payload without '#' is
      framed into exactly that payload, once, and its trailer parses to the
      checksum the framer accumulated. */
  lemma EncodeThenFeed(f: Framer, d: seq<Byte>)
    requires f.state == NoPacket
    requires Encodable(d) && HASH !in d
    ensures FitsAll(f, Encode(d))
    ensures Feed(f, Encode(d)).frames == [Frame(d, Some(Checksum(d)), Checksum(d))]
    ensures Feed(f, Encode(d)).frames[0].Intact()
    ensures Feed(f, Encode(d)).last.state == NoPacket
  {
    var hx := Hex2(Checksum(d));
    var tail := [HASH, hx[0], hx[1]];
    assert Encode(d) == [DOLLAR] + (d + tail);
    var f1 := Step(f, DOLLAR).next;
    FeedPayload(f1, d);
    var f2 := Feed(f1, d).last;
    assert f2.packet == d && f2.checksum == Checksum(d);
    Trailer(f2, hx[0], hx[1]);
    FitsAllJoin(f1, d, tail);
    FeedSplit(f1, d, tail);
    assert (Encode(d))[1..] == d + tail;
  }

  /** An encoded packet arriving while the framer is still inside an earlier,
      unfinished packet is not framed on its own: its '$' and payload are
      appended to the bytes already buffered, and the result is dispatched as
      one packet. */
  lemma EncodeMidPacket(f: Framer, d: seq<Byte>)
    requires f.state == InPacket
    requires Encodable(d) && HASH !in d
    requires |f.packet| + |d| + 1 < BUFFER_LENGTH
    ensures FitsAll(f, Encode(d))
    ensures |Feed(f, Encode(d)).frames| == 1
    ensures Feed(f, Encode(d)).frames[0].payload == f.packet + [DOLLAR] + d
    ensures Feed(f, Encode(d)).last.state == NoPacket
  {
    var hx := Hex2(Checksum(d));
    var tail := [HASH, hx[0], hx[1]];
    var body := [DOLLAR] + d;
    assert Encode(d) == body + tail;
    assert HASH !in body;
    FeedPayload(f, body);
    var f2 := Feed(f, body).last;
    assert f2.packet == f.packet + [DOLLAR] + d;
    Trailer(f2, hx[0], hx[1]);
    FitsAllJoin(f, body, tail);
    FeedSplit(f, body, tail);
  }
}
