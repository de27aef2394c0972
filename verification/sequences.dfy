/** Facts about sequence concatenation, stated once so that the inductive
    proofs elsewhere can use them without reasoning about elements. */
module Sequences {
  lemma Associative<T>(x: seq<T>, y: seq<T>, z: seq<T>)
    ensures x + (y + z) == (x + y) + z
  {
  }

  /** The head and the tail of a concatenation whose left part is not empty. */
  lemma Uncons<T>(a: seq<T>, b: seq<T>)
    requires |a| > 0
    ensures (a + b)[0] == a[0] && (a + b)[1..] == a[1..] + b
  {
  }

  /** A non-empty sequence is its head followed by its tail. */
  lemma Cons<T>(a: seq<T>)
    requires |a| > 0
    ensures a == [a[0]] + a[1..]
  {
  }

  /** The head and the tail of a sequence built from its head. */
  lemma Uncons1<T>(x: T, rest: seq<T>)
    ensures ([x] + rest)[0] == x && ([x] + rest)[1..] == rest
  {
  }

  /** A sequence is what comes before position `j`, the element there, and
      what comes after. */
  lemma Around<T>(a: seq<T>, j: nat)
    requires j < |a|
    ensures a == a[..j] + ([a[j]] + a[j + 1..])
  {
    assert a[..j] + ([a[j]] + a[j + 1..]) == a[..j] + a[j..];
    assert a[..j] + a[j..] == a;
  }

  lemma EmptyLeft<T>(b: seq<T>)
    ensures [] + b == b
  {
  }

  lemma EmptyRight<T>(a: seq<T>)
    ensures a + [] == a
  {
  }
}
