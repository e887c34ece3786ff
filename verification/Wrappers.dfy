/** What several modules share: optional values, parsed numbers, bytes, and taking an element out of a sequence. */
module Wrappers {
  datatype Option<+T> = None | Some(value: T)

  /** What `parseInt` gives. */
  datatype Number = NaN | Num(n: int)

  type byte = b: int | 0 <= b < 256

  type Bytes = seq<byte>

  function Without<T>(q: seq<T>, i: nat): seq<T>
    requires i < |q|
  {
    q[..i] + q[i + 1..]
  }

  lemma Around<T>(q: seq<T>, i: nat)
    requires i < |q|
    ensures q == q[..i] + [q[i]] + q[i + 1..]
  {
  }

  lemma SameHeadAndTail<T>(a: seq<T>, b: seq<T>)
    requires a != [] && b != [] && a[0] == b[0] && a[1..] == b[1..]
    ensures a == b
  {
    assert a == [a[0]] + a[1..] && b == [b[0]] + b[1..];
  }

  lemma WithoutIsPart<T>(q: seq<T>, i: nat)
    requires i < |q|
    ensures forall x | x in Without(q, i) :: x in q
  {
  }
}
