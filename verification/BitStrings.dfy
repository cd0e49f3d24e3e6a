/** Bit strings, least significant bit first: their value, their parity at a stride, and the
    extents that slice them. */
module BitStrings {
  import opened Prelude

  type Bits = seq<bool>

  const ADDRESS_BITS: nat := 64

  function Bit(b: bool): nat {
    if b then 1 else 0
  }

  function Pow2(n: nat): (p: nat)
    ensures p >= 1
  {
    if n == 0 then 1 else 2 * Pow2(n - 1)
  }

  /** The unsigned value of a bit string. */
  function ToNat(b: Bits): nat {
    if b == [] then 0 else Bit(b[0]) + 2 * ToNat(b[1..])
  }

  /** The low `w` bits of a number. */
  function FromNat(n: nat, w: nat): (b: Bits)
    ensures |b| == w
  {
    if w == 0 then [] else [n % 2 == 1] + FromNat(n / 2, w - 1)
  }

  lemma {:induction false} ToNatRange(b: Bits)
    ensures ToNat(b) < Pow2(|b|)
  {
    if b != [] {
      ToNatRange(b[1..]);
    }
  }

  lemma {:induction false} ToNatInjective(a: Bits, b: Bits)
    requires |a| == |b| && ToNat(a) == ToNat(b)
    ensures a == b
  {
    if a != [] {
      assert ToNat(a) % 2 == Bit(a[0]) && ToNat(b) % 2 == Bit(b[0]);
      ToNatInjective(a[1..], b[1..]);
      assert a == [a[0]] + a[1..] && b == [b[0]] + b[1..];
    }
  }

  lemma {:induction false} FromNatRoundTrip(n: nat, w: nat)
    requires n < Pow2(w)
    ensures ToNat(FromNat(n, w)) == n
  {
    if w > 0 {
      FromNatRoundTrip(n / 2, w - 1);
      assert FromNat(n, w)[1..] == FromNat(n / 2, w - 1);
    }
  }

  /** The value of a concatenation: the first string holds the low bits. */
  lemma {:induction false} ToNatConcat(a: Bits, b: Bits)
    ensures ToNat(a + b) == ToNat(a) + Pow2(|a|) * ToNat(b)
  {
    if a == [] {
      assert a + b == b;
    } else {
      ToNatConcat(a[1..], b);
      assert (a + b)[1..] == a[1..] + b;
      DoubleProduct(Pow2(|a| - 1), ToNat(b));
    }
  }

  lemma DoubleProduct(p: nat, x: nat)
    ensures 2 * (p * x) == (2 * p) * x
  {
  }

  // ---- parity at a stride ----------------------------------------------------------------

  /** Parity of the bits below `n` whose position is `r` modulo `seg`. */
  function Parity(bits: Bits, seg: nat, r: nat, n: nat): bool
    requires n <= |bits| && seg >= 1
  {
    if n == 0 then false else Parity(bits, seg, r, n - 1) != (bits[n - 1] && (n - 1) % seg == r)
  }

  lemma ModSegment(k: nat, seg: nat, j: nat)
    requires seg >= 1 && j < seg
    ensures (k * seg + j) % seg == j
  {
    var p := k * seg + j;
    var d, m := p / seg, p % seg;
    assert p == d * seg + m;
    NextMultiple(k, seg);
    NextMultiple(d, seg);
    if d > k {
      MulMonotone(k + 1, d, seg);
    } else if d < k {
      MulMonotone(d + 1, k, seg);
    }
  }

  lemma {:induction false} ParityStep(bits: Bits, seg: nat, r: nat, k: nat, n: nat)
    requires seg >= 1 && k * seg <= n <= (k + 1) * seg && n <= |bits|
    ensures Parity(bits, seg, r, n)
         == (Parity(bits, seg, r, k * seg) != (r < seg && k * seg + r < n && bits[k * seg + r]))
    decreases n
  {
    if n > k * seg {
      ParityStep(bits, seg, r, k, n - 1);
      assert (k + 1) * seg == k * seg + seg;
      ModSegment(k, seg, n - 1 - k * seg);
    }
  }

  /** Flipping one bit flips the parity it belongs to. */
  lemma {:induction false} ParityFlip(h: Bits, a: nat, seg: nat, r: nat, n: nat)
    requires a < |h| && n <= |h| && seg >= 1
    ensures Parity(h[a := !h[a]], seg, r, n) == (Parity(h, seg, r, n) != (a < n && a % seg == r))
  {
    if n > 0 {
      ParityFlip(h, a, seg, r, n - 1);
    }
  }

  lemma EmptyParity(bits: Bits, seg: nat)
    requires seg >= 1
    ensures forall r: nat :: !Parity(bits, seg, r, 0)
  {
  }

  // ---- extents ---------------------------------------------------------------------------

  datatype Extent = Extent(lower: nat, upper: nat)

  /** The part of a slice that an extent relative to it selects; an extent that reaches past
      the slice is cut off. */
  function Slice(b: Bits, e: Extent): (r: Bits)
    requires e.lower <= e.upper
    ensures |r| <= e.upper - e.lower
  {
    b[Min(e.lower, |b|)..Min(e.upper, |b|)]
  }

  function Sum(sizes: seq<nat>, k: nat): nat
    requires k <= |sizes|
  {
    if k == 0 then 0 else Sum(sizes, k - 1) + sizes[k - 1]
  }

  lemma {:induction false} SumMonotone(sizes: seq<nat>, i: nat, j: nat)
    requires i <= j <= |sizes|
    ensures Sum(sizes, i) <= Sum(sizes, j)
  {
    if i < j {
      SumMonotone(sizes, i, j - 1);
    }
  }

  /** The extent of field `k` when the fields lie one above the other. */
  function FieldExtent(sizes: seq<nat>, k: nat): Extent
    requires k < |sizes|
  {
    Extent(Sum(sizes, k), Sum(sizes, k + 1))
  }

  /** Lays fields of the given sizes one above the other: partial sums, then adjacent pairs. */
  method MakeContiguousExtentSet(sizes: seq<nat>) returns (extents: seq<Extent>)
    ensures |extents| == |sizes|
    ensures forall k :: 0 <= k < |sizes| ==> extents[k] == FieldExtent(sizes, k)
  {
    var bounds: seq<nat> := [0];
    for k := 0 to |sizes|
      invariant |bounds| == k + 1 && forall i :: 0 <= i <= k ==> bounds[i] == Sum(sizes, i)
    {
      bounds := bounds + [bounds[k] + sizes[k]];
    }
    extents := [];
    for k := 0 to |sizes|
      invariant |extents| == k && forall i :: 0 <= i < k ==> extents[i] == FieldExtent(sizes, i)
    {
      extents := extents + [Extent(bounds[k], bounds[k + 1])];
    }
  }

  /** Slicing an address into contiguous fields. */
  function Fields(sizes: seq<nat>, a: Bits): (f: seq<Bits>)
    ensures |f| == |sizes|
  {
    seq(|sizes|, k requires 0 <= k < |sizes| => Slice(a, FieldExtent(sizes, k)))
  }

  lemma FieldIs(sizes: seq<nat>, a: Bits, k: nat)
    requires k < |sizes| && Sum(sizes, |sizes|) <= |a|
    ensures Sum(sizes, k) <= Sum(sizes, k + 1) <= |a|
    ensures Fields(sizes, a)[k] == a[Sum(sizes, k)..Sum(sizes, k + 1)] && |Fields(sizes, a)[k]| == sizes[k]
  {
    SumMonotone(sizes, k + 1, |sizes|);
  }

  ghost function Concat(f: seq<Bits>, k: nat): Bits
    requires k <= |f|
  {
    if k == 0 then [] else Concat(f, k - 1) + f[k - 1]
  }

  /** The fields tile the address: together, in order, they are its low bits. */
  lemma {:induction false} FieldsTile(sizes: seq<nat>, k: nat, a: Bits)
    requires k <= |sizes| && Sum(sizes, |sizes|) <= |a|
    ensures Sum(sizes, k) <= |a| && Concat(Fields(sizes, a), k) == a[..Sum(sizes, k)]
  {
    if k > 0 {
      FieldsTile(sizes, k - 1, a);
      FieldIs(sizes, a, k - 1);
      assert a[..Sum(sizes, k)] == a[..Sum(sizes, k - 1)] + a[Sum(sizes, k - 1)..Sum(sizes, k)];
    }
  }

  lemma {:induction false} ConcatLength(f: seq<Bits>, sizes: seq<nat>, k: nat)
    requires k <= |f| == |sizes| && forall i :: 0 <= i < |f| ==> |f[i]| == sizes[i]
    ensures |Concat(f, k)| == Sum(sizes, k)
  {
    if k > 0 {
      ConcatLength(f, sizes, k - 1);
    }
  }

  /** Slicing a concatenation of fields gives each field back. */
  lemma {:induction false} ConcatSlices(f: seq<Bits>, sizes: seq<nat>, k: nat, i: nat, rest: Bits)
    requires i < k <= |f| == |sizes| && forall j :: 0 <= j < |f| ==> |f[j]| == sizes[j]
    ensures Slice(Concat(f, k) + rest, FieldExtent(sizes, i)) == f[i]
  {
    ConcatLength(f, sizes, k);
    ConcatLength(f, sizes, k - 1);
    if i == k - 1 {
      assert Concat(f, k) + rest == Concat(f, i) + f[i] + rest;
    } else {
      ConcatSlices(f, sizes, k - 1, i, f[k - 1] + rest);
      assert Concat(f, k) + rest == Concat(f, k - 1) + (f[k - 1] + rest);
    }
  }
}
