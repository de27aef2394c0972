/** The packet encoder, `_gdbstub_send`: a reply payload wrapped as
    `$<data>#<hh>`, `hh` the checksum in two lowercase hex digits. */
module Encoder {
  import opened Wrappers
  import opened Bytes

  /** The size `snprintf` is given for the outgoing packet. */
  const PACKET_LENGTH := 2048

  /** A payload the encoder frames without truncation: a C string (the
      source measures it with `strlen`) whose framed form, four bytes longer,
      leaves room for `snprintf`'s terminator. */
  predicate Encodable(data: seq<Byte>) {
    IsCString(data) && |data| + 4 < PACKET_LENGTH
  }

  /** A reply the stub can send. */
  type Payload = d: seq<Byte> | Encodable(d) witness []

  /** The wire form of `data`. */
  function Encode(data: seq<Byte>): (w: seq<Byte>)
    requires Encodable(data)
    ensures |w| == |data| + 4 < PACKET_LENGTH
    ensures w[0] == DOLLAR && w[1..|data| + 1] == data && w[|data| + 1] == HASH
    ensures IsLowerHex(w[|w| - 2]) && IsLowerHex(w[|w| - 1])
    ensures ParseHex2(w[|w| - 2], w[|w| - 1]) == Some(Checksum(data))
  {
    [DOLLAR] + data + [HASH] + Hex2(Checksum(data))
  }

  /** Two payloads that are permutations of each other get the same trailer. */
  lemma PermutedPayloadSameTrailer(a: seq<Byte>, b: seq<Byte>)
    requires Encodable(a) && Encodable(b)
    requires multiset(a) == multiset(b)
    ensures Encode(a)[|a| + 2..] == Encode(b)[|b| + 2..]
  {
    ChecksumPermutation(a, b);
    assert Encode(a)[|a| + 2..] == Hex2(Checksum(a));
    assert Encode(b)[|b| + 2..] == Hex2(Checksum(b));
  }

  /** The encoding is injective: the payload is recoverable from the wire form. */
  lemma EncodeInjective(a: seq<Byte>, b: seq<Byte>)
    requires Encodable(a) && Encodable(b)
    requires Encode(a) == Encode(b)
    ensures a == b
  {
    assert |a| == |b|;
    assert a == Encode(a)[1..|a| + 1];
  }
}
