/** Bytes as the stub's `uint8_t` buffers hold them, ASCII text, the additive
    checksum of the Remote Serial Protocol, and the two hex digits that carry
    it on the wire. */
module Bytes {
  import opened Wrappers
  import opened Sequences

  /** One 8-bit value. */
  type Byte = b: int | 0 <= b < 256

  /** The framing characters. */
  const DOLLAR: Byte := 0x24  // '$' opens a packet
  const HASH: Byte := 0x23    // '#' closes the payload; two hex digits follow
  const PLUS: Byte := 0x2b    // '+' acknowledges a packet
  const NUL: Byte := 0        // the C string terminator

  /** The byte of an ASCII character. */
  function Ascii(ch: char): (b: Byte)
    requires ch as int < 128
    ensures b as char == ch
  {
    ch as int
  }

  /** ASCII text as bytes. The contract only unfolds the definition, so that
      proofs about literals can read single bytes. */
  function Str(s: string): (r: seq<Byte>)
    ensures |r| == |s|
    ensures forall i :: 0 <= i < |s| ==> r[i] == (s[i] as int) % 256
  {
    seq(|s|, i requires 0 <= i < |s| => (s[i] as int) % 256)
  }

  /** The bytes of joined text are the bytes of the parts. */
  lemma StrAppend(a: string, b: string)
    ensures Str(a + b) == Str(a) + Str(b)
  {
    assert forall i :: 0 <= i < |a + b| ==> Str(a + b)[i] == (Str(a) + Str(b))[i] by {
      forall i | 0 <= i < |a + b|
        ensures Str(a + b)[i] == (Str(a) + Str(b))[i]
      {
        if i < |a| {
          assert (a + b)[i] == a[i];
        } else {
          assert (a + b)[i] == b[i - |a|];
        }
      }
    }
  }

  /** Bytes a `const char *` can carry: nothing inside is the terminator. */
  predicate IsCString(s: seq<Byte>) {
    forall i :: 0 <= i < |s| ==> s[i] != NUL
  }

  /** What `%s` prints from a buffer: the bytes before its first NUL. */
  function CText(s: seq<Byte>): (t: seq<Byte>)
    ensures IsCString(t) && t <= s
    ensures |t| < |s| ==> s[|t|] == NUL
    decreases |s|
  {
    if |s| == 0 || s[0] == NUL then [] else [s[0]] + CText(s[1..])
  }

  /** `p` begins with the bytes of `prefix`: what `strncmp(p, prefix, |prefix|) == 0`
      decides when `prefix` holds no NUL. */
  predicate StartsWith(p: seq<Byte>, prefix: seq<Byte>) {
    |prefix| <= |p| && p[..|prefix|] == prefix
  }

  /** The plain sum of the byte values. */
  function Sum(s: seq<Byte>): nat
    decreases |s|
  {
    if |s| == 0 then 0 else Sum(s[..|s| - 1]) + s[|s| - 1]
  }

  /** The RSP checksum: the byte sum modulo 256, as a `uint8_t` accumulator
      wraps it. */
  function Checksum(s: seq<Byte>): Byte {
    Sum(s) % 256
  }

  /** The sum of a concatenation is the sum of the parts. */
  lemma {:induction false} SumAppend(a: seq<Byte>, b: seq<Byte>)
    ensures Sum(a + b) == Sum(a) + Sum(b)
    decreases |b|
  {
    if |b| == 0 {
      assert a + b == a;
    } else {
      var b' := b[..|b| - 1];
      assert (a + b)[..|a + b| - 1] == a + b';
      SumAppend(a, b');
    }
  }

  /** Appending one byte adds it to the running checksum, modulo 256: the
      step the receive loop takes for every payload byte. */
  lemma ChecksumSnoc(s: seq<Byte>, c: Byte)
    ensures Checksum(s + [c]) == (Checksum(s) + c) % 256
  {
    assert (s + [c])[..|s|] == s;
  }

  /** A single byte sums to itself. */
  lemma SumSingleton(c: Byte)
    ensures Sum([c]) == c
  {
    assert [c][..0] == [];
  }

  /** Reducing a partial sum modulo 256 first does not change the result. */
  lemma ModAdd(a: int, b: int)
    ensures ((a % 256) + b) % 256 == (a + b) % 256
  {
  }

  /** Removing the byte at `j` takes exactly that byte off the sum. */
  lemma SumRemove(s: seq<Byte>, j: nat)
    requires j < |s|
    ensures Sum(s) == Sum(s[..j] + s[j + 1..]) + s[j]
  {
    var front, x, back := s[..j], s[j], s[j + 1..];
    Around(s, j);
    SumAppend(front, [x] + back);
    SumAppend([x], back);
    SumAppend(front, back);
    SumSingleton(x);
  }

  /** Taking the element at `j` out of a sequence takes one copy of it out of
      its multiset. */
  lemma MultisetRemove(s: seq<Byte>, j: nat)
    requires j < |s|
    ensures multiset(s[..j] + s[j + 1..]) == multiset(s) - multiset{s[j]}
  {
    assert s == s[..j] + [s[j]] + s[j + 1..];
  }

  /** The sum depends only on which bytes occur how often, not on their order. */
  lemma {:induction false} SumPermutation(a: seq<Byte>, b: seq<Byte>)
    requires multiset(a) == multiset(b)
    ensures Sum(a) == Sum(b)
    decreases |a|
  {
    if |a| == 0 {
      assert |b| == |multiset(b)| == 0;
    } else {
      var n := |a| - 1;
      var x := a[n];
      assert x in multiset(b) by {
        assert x in multiset(a);
      }
      var j :| 0 <= j < |b| && b[j] == x;
      MultisetRemove(a, n);
      MultisetRemove(b, j);
      assert a[..n] + a[n + 1..] == a[..n];
      SumPermutation(a[..n], b[..j] + b[j + 1..]);
      SumRemove(b, j);
    }
  }

  /** The checksum is the same for every permutation of the same bytes. */
  lemma ChecksumPermutation(a: seq<Byte>, b: seq<Byte>)
    requires multiset(a) == multiset(b)
    ensures Checksum(a) == Checksum(b)
  {
    SumPermutation(a, b);
  }

  /** The lowercase hex digit of a nibble, as `%x` prints it. */
  function HexDigit(n: int): (d: Byte)
    requires 0 <= n < 16
    ensures HexValue(d) == Some(n)
  {
    if n < 10 then 0x30 + n else 0x61 + (n - 10)
  }

  /** The value of a hex digit as `%x` reads it, either case; `None` for any
      other byte. */
  function HexValue(d: Byte): Option<int> {
    if 0x30 <= d <= 0x39 then Some(d - 0x30)       // '0'..'9'
    else if 0x61 <= d <= 0x66 then Some(d - 0x61 + 10)  // 'a'..'f'
    else if 0x41 <= d <= 0x46 then Some(d - 0x41 + 10)  // 'A'..'F'
    else None
  }

  /** The lowercase hex digits '0'..'9', 'a'..'f'. */
  predicate IsLowerHex(d: Byte) {
    0x30 <= d <= 0x39 || 0x61 <= d <= 0x66
  }

  /** A byte as `%02x` prints it: always two lowercase digits. */
  function Hex2(v: Byte): (r: seq<Byte>)
    ensures |r| == 2 && IsLowerHex(r[0]) && IsLowerHex(r[1])
    ensures ParseHex2(r[0], r[1]) == Some(v)
  {
    [HexDigit(v / 16), HexDigit(v % 16)]
  }

  /** The two checksum characters read as one byte, when both are hex digits. */
  function ParseHex2(d0: Byte, d1: Byte): (r: Option<Byte>)
    ensures r.Some? <==> HexValue(d0).Some? && HexValue(d1).Some?
  {
    match (HexValue(d0), HexValue(d1))
    case (Some(hi), Some(lo)) => Some(hi * 16 + lo)
    case _ => None
  }
}
