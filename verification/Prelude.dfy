/** Vocabulary shared by every component: optional values, event times and bounded spans. */
module Prelude {

  datatype Option<+T> = None | Some(value: T)

  datatype Result<+T> = Success(value: T) | Failure(error: string)

  /** An event time. `Never` is the clock's largest time point, which no current time reaches. */
  datatype Ready = Never | At(time: nat) {
    predicate By(now: nat) {
      At? && time <= now
    }

    predicate AtMost(other: Ready) {
      other.Never? || (At? && time <= other.time)
    }
  }

  function Min(a: int, b: int): int {
    if a <= b then a else b
  }

  /** The aligned block of `size` addresses that holds `address`. */
  function BlockOf(address: nat, size: nat): (b: nat)
    requires size >= 1
    ensures b * size <= address < b * size + size
  {
    address / size
  }

  lemma MulMonotone(a: nat, b: nat, m: nat)
    requires a <= b
    ensures a * m <= b * m
  {
  }

  lemma NextMultiple(k: nat, m: nat)
    ensures (k + 1) * m == k * m + m
  {
  }

  /** The length of the longest prefix of at most `width` elements that all satisfy `p`. */
  function Span<T>(s: seq<T>, width: nat, p: T -> bool): (n: nat)
    ensures n <= |s| && n <= width
    ensures forall i :: 0 <= i < n ==> p(s[i])
    ensures n < |s| && n < width ==> !p(s[n])
  {
    if s == [] || width == 0 || !p(s[0]) then 0
    else 1 + Span(s[1..], width - 1, p)
  }

  /** Binary search for the end of the prefix that satisfies `p`; the caller owes that the
      elements satisfying `p` come first. */
  method PartitionPoint<T>(s: seq<T>, p: T -> bool) returns (n: nat)
    requires forall i, j :: 0 <= i < j < |s| && p(s[j]) ==> p(s[i])
    ensures n <= |s|
    ensures forall i :: 0 <= i < n ==> p(s[i])
    ensures forall i :: n <= i < |s| ==> !p(s[i])
  {
    n := 0;
    var hi := |s|;
    while n < hi
      invariant 0 <= n <= hi <= |s|
      invariant forall i :: 0 <= i < n ==> p(s[i])
      invariant forall i :: hi <= i < |s| ==> !p(s[i])
    {
      var mid := n + (hi - n) / 2;
      if p(s[mid]) {
        n := mid + 1;
      } else {
        hi := mid;
      }
    }
  }
}
