/** The DRAM address mapping: contiguous fields of the physical address, with the channel,
    bankgroup and bank fields permuted by row bits. */
module DramMapping {
  import opened Prelude
  import opened BitStrings

  /** Width of each field, lowest field first. */
  datatype Geometry = Geometry(offset: nat, channel: nat, bankgroup: nat, bank: nat, column: nat, rank: nat, row: nat) {
    function Sizes(): seq<nat> {
      [offset, channel, bankgroup, bank, column, rank, row]
    }

    function BitSize(): nat {
      Sum(Sizes(), 7)
    }

    function RowLower(): nat {
      Sum(Sizes(), 6)
    }

    predicate Valid() {
      BitSize() <= ADDRESS_BITS && bankgroup + bank >= 1
    }
  }

  /** Where an address lives. */
  datatype Location = Location(offset: Bits, channel: Bits, bankgroup: Bits, bank: Bits, column: Bits, rank: Bits, row: Bits)

  // ---- swizzling -------------------------------------------------------------------------

  function Xor(p: Bits, x: Bits): (r: Bits)
    requires |x| <= |p|
    ensures |r| == |p|
  {
    seq(|p|, i requires 0 <= i < |p| => p[i] != (i < |x| && x[i]))
  }

  /** The permuted field: bit `i` is flipped once for every set row bit at `off + i` modulo `seg`. */
  function Swizzled(row: Bits, seg: nat, off: nat, field: Bits): (r: Bits)
    requires seg >= 1
    ensures |r| == |field|
  {
    seq(|field|, i requires 0 <= i < |field| => field[i] != Parity(row, seg, off + i, |row|))
  }

  /** The bits of the row that round `start / seg` selects for a field of the given width. */
  function Chunk(row: Bits, start: nat, seg: nat, off: nat, width: nat): (c: Bits)
    ensures |c| <= width
  {
    Slice(Slice(row, Extent(start, start + seg)), Extent(off, off + width))
  }

  lemma ChunkBit(row: Bits, start: nat, seg: nat, off: nat, width: nat, i: nat)
    requires i < width
    ensures i < |Chunk(row, start, seg, off, width)| <==> off + i < seg && start + off + i < |row|
    ensures i < |Chunk(row, start, seg, off, width)| ==> Chunk(row, start, seg, off, width)[i] == row[start + off + i]
  {
    var segment := Slice(row, Extent(start, start + seg));
    if i < |Chunk(row, start, seg, off, width)| {
      assert Chunk(row, start, seg, off, width)[i] == segment[off + i] == row[start + off + i];
    }
  }

  /** What one round does to bit `i`: `start` is where segment `k` begins. */
  lemma SegmentBit(row: Bits, seg: nat, off: nat, width: nat, k: nat, start: nat, i: nat)
    requires seg >= 1 && start == k * seg && i < width
    ensures Parity(row, seg, off + i, Min(|row|, start + seg))
         == (Parity(row, seg, off + i, Min(|row|, start))
             != (i < |Chunk(row, start, seg, off, width)| && Chunk(row, start, seg, off, width)[i]))
  {
    ChunkBit(row, start, seg, off, width, i);
    hide Chunk, Parity;
    NextMultiple(k, seg);
    if start <= |row| {
      ParityStep(row, seg, off + i, k, Min(|row|, start + seg));
    }
  }

  /** One round of the permutation: the selected bits of segment `k` of the row. */
  lemma SegmentStep(row: Bits, seg: nat, off: nat, field: Bits, p: Bits, k: nat, start: nat)
    requires seg >= 1 && |p| == |field| && start == k * seg
    requires forall i :: 0 <= i < |field| ==> p[i] == (field[i] != Parity(row, seg, off + i, Min(|row|, start)))
    ensures forall i :: 0 <= i < |field| ==>
      Xor(p, Chunk(row, start, seg, off, |field|))[i] == (field[i] != Parity(row, seg, off + i, Min(|row|, start + seg)))
  {
    hide Parity, Chunk;
    forall i | 0 <= i < |field|
      ensures Xor(p, Chunk(row, start, seg, off, |field|))[i]
           == (field[i] != Parity(row, seg, off + i, Min(|row|, start + seg)))
    {
      SegmentBit(row, seg, off, |field|, k, start, i);
    }
  }

  /** Permutes `field` with the row bits of `address`: each round takes one segment of the row
      and flips the field by the bits at `off`. The loop bound is the row's absolute upper
      extent, as in the source, and a segment that reaches past the row is cut off. */
  method SwizzleBits(row: Bits, rowUpper: nat, seg: nat, off: nat, field: Bits) returns (p: Bits)
    requires seg >= 1 && |row| <= rowUpper && rowUpper - |row| + 1 >= seg
    ensures p == Swizzled(row, seg, off, field)
  {
    hide Parity, Xor, Chunk;
    p := field;
    var lower := 0;
    ghost var k := 0;
    EmptyParity(row, seg);
    while lower + seg <= rowUpper
      invariant lower == k * seg && lower <= rowUpper && |p| == |field|
      invariant forall i :: 0 <= i < |field| ==> p[i] == (field[i] != Parity(row, seg, off + i, Min(|row|, lower)))
      decreases rowUpper - lower
    {
      SegmentStep(row, seg, off, field, p, k, lower);
      p := Xor(p, Chunk(row, lower, seg, off, |field|));
      NextMultiple(k, seg);
      lower := lower + seg;
      k := k + 1;
    }
    assert Min(|row|, lower) == |row|;
  }

  /** Swizzling with the same row twice gives the field back. */
  lemma SwizzleInvolution(row: Bits, seg: nat, off: nat, field: Bits)
    requires seg >= 1
    ensures Swizzled(row, seg, off, Swizzled(row, seg, off, field)) == field
  {
  }

  // ---- the mapping -----------------------------------------------------------------------

  function RawFields(g: Geometry, a: Bits): (l: Location)
    requires g.Valid() && |a| == ADDRESS_BITS
  {
    var f := Fields(g.Sizes(), a);
    Location(f[0], f[1], f[2], f[3], f[4], f[5], f[6])
  }

  /** Permutes the channel by single row bits, the bankgroup and bank by consecutive groups. */
  function Permuted(g: Geometry, l: Location): Location
    requires g.bankgroup + g.bank >= 1
  {
    var seg := g.bankgroup + g.bank;
    l.(channel := Swizzled(l.row, 1, 0, l.channel),
       bankgroup := Swizzled(l.row, seg, 0, l.bankgroup),
       bank := Swizzled(l.row, seg, g.bankgroup, l.bank))
  }

  function Decode(g: Geometry, a: Bits): Location
    requires g.Valid() && |a| == ADDRESS_BITS
  {
    Permuted(g, RawFields(g, a))
  }

  ghost predicate InRange(g: Geometry, l: Location) {
    && |l.offset| == g.offset && |l.channel| == g.channel && |l.bankgroup| == g.bankgroup && |l.bank| == g.bank
    && |l.column| == g.column && |l.rank| == g.rank && |l.row| == g.row
  }

  function Parts(l: Location): seq<Bits> {
    [l.offset, l.channel, l.bankgroup, l.bank, l.column, l.rank, l.row]
  }

  function Zeros(n: nat): (b: Bits)
    ensures |b| == n
  {
    seq(n, _ => false)
  }

  /** The address that lives at `l`. */
  ghost function Encode(g: Geometry, l: Location): Bits
    requires g.Valid()
  {
    Concat(Parts(Permuted(g, l)), 7) + Zeros(ADDRESS_BITS - g.BitSize())
  }

  lemma RawInRange(g: Geometry, a: Bits)
    requires g.Valid() && |a| == ADDRESS_BITS
    ensures InRange(g, RawFields(g, a)) && InRange(g, Decode(g, a))
    ensures Parts(RawFields(g, a)) == Fields(g.Sizes(), a)
  {
    hide Sum, Swizzled;
    FieldIs(g.Sizes(), a, 0);
    FieldIs(g.Sizes(), a, 1);
    FieldIs(g.Sizes(), a, 2);
    FieldIs(g.Sizes(), a, 3);
    FieldIs(g.Sizes(), a, 4);
    FieldIs(g.Sizes(), a, 5);
    FieldIs(g.Sizes(), a, 6);
  }

  lemma PermutedTwice(g: Geometry, l: Location)
    requires g.bankgroup + g.bank >= 1
    ensures Permuted(g, Permuted(g, l)) == l
  {
    SwizzleInvolution(l.row, 1, 0, l.channel);
    SwizzleInvolution(l.row, g.bankgroup + g.bank, 0, l.bankgroup);
    SwizzleInvolution(l.row, g.bankgroup + g.bank, g.bankgroup, l.bank);
  }

  /** Every in-range location is hit: decoding its encoding gives it back. */
  lemma DecodeEncode(g: Geometry, l: Location)
    requires g.Valid() && InRange(g, l)
    ensures |Encode(g, l)| == ADDRESS_BITS && Decode(g, Encode(g, l)) == l
  {
    var parts := Parts(Permuted(g, l));
    var sizes := g.Sizes();
    assert forall i :: 0 <= i < 7 ==> |parts[i]| == sizes[i];
    ConcatLength(parts, sizes, 7);
    forall i | 0 <= i < 7 ensures Slice(Encode(g, l), FieldExtent(sizes, i)) == parts[i] {
      ConcatSlices(parts, sizes, 7, i, Zeros(ADDRESS_BITS - g.BitSize()));
    }
    assert RawFields(g, Encode(g, l)) == Permuted(g, l);
    PermutedTwice(g, l);
  }

  /** No two addresses below the memory size share a location: encoding the location of an
      address gives its low bits back. */
  lemma EncodeDecode(g: Geometry, a: Bits)
    requires g.Valid() && |a| == ADDRESS_BITS
    ensures Encode(g, Decode(g, a)) == a[..g.BitSize()] + Zeros(ADDRESS_BITS - g.BitSize())
  {
    RawInRange(g, a);
    PermutedTwice(g, RawFields(g, a));
    FieldsTile(g.Sizes(), 7, a);
  }

  /** The mapping is injective on addresses below the memory size. */
  lemma MappingIsInjective(g: Geometry, a: Bits, b: Bits)
    requires g.Valid() && |a| == |b| == ADDRESS_BITS && Decode(g, a) == Decode(g, b)
    requires a[g.BitSize()..] == b[g.BitSize()..]
    ensures a == b
  {
    EncodeDecode(g, a);
    EncodeDecode(g, b);
    var n := g.BitSize();
    assert a[..n] == Encode(g, Decode(g, a))[..n] && b[..n] == Encode(g, Decode(g, b))[..n];
    assert a == a[..n] + a[n..] && b == b[..n] + b[n..];
  }

  ghost predicate OneRowBit(l: Location, m: Location, r: nat) {
    r < |l.row| && m == l.(row := l.row[r := !l.row[r]])
  }

  /** What one row bit permutes: the lowest bit of the channel, and exactly one bit of the
      bankgroup and bank taken together, whose place is the row bit's modulo their width. */
  lemma RowBitFlips(g: Geometry, l: Location, m: Location, r: nat)
    requires g.Valid() && InRange(g, l) && OneRowBit(l, m, r)
    ensures var p, q, seg := Permuted(g, l), Permuted(g, m), g.bankgroup + g.bank;
      && |q.channel| == |p.channel| && |q.bankgroup| == |p.bankgroup| && |q.bank| == |p.bank|
      && (forall i :: 0 <= i < |p.channel| ==> q.channel[i] == (p.channel[i] != (i == 0)))
      && (forall i :: 0 <= i < |p.bankgroup| ==> q.bankgroup[i] == (p.bankgroup[i] != (r % seg == i)))
      && (forall i :: 0 <= i < |p.bank| ==> q.bank[i] == (p.bank[i] != (r % seg == g.bankgroup + i)))
      && q.offset == l.offset && q.column == l.column && q.rank == l.rank && q.row == m.row
  {
    var seg := g.bankgroup + g.bank;
    forall i: nat ensures Parity(m.row, 1, i, |l.row|) == (Parity(l.row, 1, i, |l.row|) != (i == 0)) {
      ParityFlip(l.row, r, 1, i, |l.row|);
    }
    forall i: nat
      ensures Parity(m.row, seg, i, |l.row|) == (Parity(l.row, seg, i, |l.row|) != (r % seg == i))
    {
      ParityFlip(l.row, r, seg, i, |l.row|);
    }
    hide Parity;
  }

  /** Rows whose numbers differ in one bit lie in different banks, and in different channels if
      there is more than one, at the same column. */
  lemma NeighbourRowsApart(g: Geometry, l: Location, m: Location, r: nat)
    requires g.Valid() && InRange(g, l) && OneRowBit(l, m, r)
    ensures Permuted(g, m).bankgroup != Permuted(g, l).bankgroup || Permuted(g, m).bank != Permuted(g, l).bank
    ensures Permuted(g, m).channel != Permuted(g, l).channel <==> g.channel > 0
  {
    RowBitFlips(g, l, m, r);
    hide Permuted;
    var seg := g.bankgroup + g.bank;
    var p, q := Permuted(g, l), Permuted(g, m);
    assert |p.bankgroup| == g.bankgroup && |p.bank| == g.bank && |p.channel| == g.channel by {
      PermutedInRange(g, l);
    }
    if r % seg < g.bankgroup {
      assert q.bankgroup[r % seg] != p.bankgroup[r % seg];
    } else {
      assert q.bank[r % seg - g.bankgroup] != p.bank[r % seg - g.bankgroup];
    }
    if g.channel > 0 {
      assert q.channel[0] != p.channel[0];
    }
  }

  lemma PermutedInRange(g: Geometry, l: Location)
    requires g.Valid() && InRange(g, l)
    ensures InRange(g, Permuted(g, l))
  {
  }

  // ---- the bank array --------------------------------------------------------------------

  function Banks(g: Geometry): nat {
    Pow2(g.bank)
  }

  function Bankgroups(g: Geometry): nat {
    Pow2(g.bankgroup)
  }

  function Ranks(g: Geometry): nat {
    Pow2(g.rank)
  }

  /** Row-major position: `low` within group `high` of the given width. */
  function Position(high: nat, width: nat, low: nat): nat {
    high * width + low
  }

  function BankgroupRequestIndex(g: Geometry, a: Bits): nat
    requires g.Valid() && |a| == ADDRESS_BITS
  {
    Position(ToNat(Decode(g, a).rank), Bankgroups(g), ToNat(Decode(g, a).bankgroup))
  }

  function BankRequestIndex(g: Geometry, a: Bits): nat
    requires g.Valid() && |a| == ADDRESS_BITS
  {
    Position(BankgroupRequestIndex(g, a), Banks(g), ToNat(Decode(g, a).bank))
  }

  function BankCount(g: Geometry): nat {
    Pow2(g.bank + g.bankgroup + g.rank)
  }

  /** The bank array has one entry for every rank, bankgroup and bank. */
  lemma BankCountIs(g: Geometry)
    ensures BankCount(g) == Ranks(g) * Bankgroups(g) * Banks(g)
  {
    Pow2Sum(g.bank + g.bankgroup, g.rank);
    Pow2Sum(g.bank, g.bankgroup);
    Commute(Pow2(g.bank), Pow2(g.bankgroup), Pow2(g.rank));
  }

  lemma Commute(a: nat, b: nat, c: nat)
    ensures a * b * c == c * b * a
  {
  }

  lemma {:induction false} Pow2Sum(m: nat, n: nat)
    ensures Pow2(m + n) == Pow2(m) * Pow2(n)
  {
    if m > 0 {
      Pow2Sum(m - 1, n);
      DoubleProduct(Pow2(m - 1), Pow2(n));
    }
  }

  lemma ConcatPosition(a: Bits, b: Bits)
    ensures ToNat(a + b) == Position(ToNat(b), Pow2(|a|), ToNat(a))
  {
    hide ToNat, Pow2;
    ToNatConcat(a, b);
  }

  /** The bank index is the number whose bits are bank, bankgroup and rank. */
  lemma BankIndexBits(g: Geometry, a: Bits)
    requires g.Valid() && |a| == ADDRESS_BITS
    ensures BankRequestIndex(g, a) == ToNat(Decode(g, a).bank + Decode(g, a).bankgroup + Decode(g, a).rank)
  {
    RawInRange(g, a);
    var l := Decode(g, a);
    hide Decode, ToNat, Pow2, Position;
    ConcatPosition(l.bankgroup, l.rank);
    ConcatPosition(l.bank, l.bankgroup + l.rank);
    assert l.bank + l.bankgroup + l.rank == l.bank + (l.bankgroup + l.rank);
  }

  lemma BankIndexInRange(g: Geometry, a: Bits)
    requires g.Valid() && |a| == ADDRESS_BITS
    ensures BankRequestIndex(g, a) < BankCount(g)
  {
    hide Decode, RawFields, ToNat, Pow2, Position, BankRequestIndex;
    RawInRange(g, a);
    BankIndexBits(g, a);
    ToNatRange(Decode(g, a).bank + Decode(g, a).bankgroup + Decode(g, a).rank);
  }

  lemma BankgroupIndexInRange(g: Geometry, a: Bits)
    requires g.Valid() && |a| == ADDRESS_BITS
    ensures BankgroupRequestIndex(g, a) < Pow2(g.bankgroup + g.rank)
  {
    hide Decode, RawFields, ToNat, Pow2, Position;
    RawInRange(g, a);
    ConcatPosition(Decode(g, a).bankgroup, Decode(g, a).rank);
    ToNatRange(Decode(g, a).bankgroup + Decode(g, a).rank);
  }

  /** The index is equal exactly when rank, bankgroup and bank are. */
  lemma BankIndexInjective(g: Geometry, a: Bits, b: Bits)
    requires g.Valid() && |a| == |b| == ADDRESS_BITS
    ensures BankRequestIndex(g, a) == BankRequestIndex(g, b) <==>
      (Decode(g, a).rank == Decode(g, b).rank && Decode(g, a).bankgroup == Decode(g, b).bankgroup
       && Decode(g, a).bank == Decode(g, b).bank)
  {
    RawInRange(g, a);
    RawInRange(g, b);
    BankIndexBits(g, a);
    BankIndexBits(g, b);
    hide Decode, RawFields, ToNat, Pow2, Position, BankRequestIndex;
    SameIndex(g, Decode(g, a), Decode(g, b));
  }

  lemma SameIndex(g: Geometry, l: Location, m: Location)
    requires InRange(g, l) && InRange(g, m)
    ensures ToNat(l.bank + l.bankgroup + l.rank) == ToNat(m.bank + m.bankgroup + m.rank) <==>
      (l.rank == m.rank && l.bankgroup == m.bankgroup && l.bank == m.bank)
  {
    hide ToNat;
    var x, y := l.bank + l.bankgroup + l.rank, m.bank + m.bankgroup + m.rank;
    if ToNat(x) == ToNat(y) {
      ToNatInjective(x, y);
      SplitParts(l, m, g);
    }
  }

  lemma SplitParts(l: Location, m: Location, g: Geometry)
    requires InRange(g, l) && InRange(g, m)
    requires l.bank + l.bankgroup + l.rank == m.bank + m.bankgroup + m.rank
    ensures l.bank == m.bank && l.bankgroup == m.bankgroup && l.rank == m.rank
  {
    var x, y := l.bank + l.bankgroup + l.rank, m.bank + m.bankgroup + m.rank;
    assert x[..g.bank] == l.bank && y[..g.bank] == m.bank;
    assert x[g.bank..g.bank + g.bankgroup] == l.bankgroup && y[g.bank..g.bank + g.bankgroup] == m.bankgroup;
    assert x[g.bank + g.bankgroup..] == l.rank && y[g.bank + g.bankgroup..] == m.rank;
  }

  lemma IndexLocation(g: Geometry, x: Bits) returns (l: Location)
    requires |x| == g.bank + g.bankgroup + g.rank
    ensures InRange(g, l) && l.bank + l.bankgroup + l.rank == x
  {
    l := Location(Zeros(g.offset), Zeros(g.channel), x[g.bank..g.bank + g.bankgroup], x[..g.bank], Zeros(g.column),
                  x[g.bank + g.bankgroup..], Zeros(g.row));
  }

  /** Every entry of the bank array is the index of some address. */
  lemma BankIndexSurjective(g: Geometry, n: nat) returns (a: Bits)
    requires g.Valid() && n < BankCount(g)
    ensures |a| == ADDRESS_BITS && BankRequestIndex(g, a) == n
  {
    var w := g.bank + g.bankgroup + g.rank;
    var x := FromNat(n, w);
    FromNatRoundTrip(n, w);
    hide Encode, Decode, RawFields, ToNat, FromNat, Pow2, Position, InRange, BankRequestIndex;
    var l := IndexLocation(g, x);
    DecodeEncode(g, l);
    a := Encode(g, l);
    BankIndexBits(g, a);
  }

  // ---- the getters -----------------------------------------------------------------------

  lemma RowAboveBanks(g: Geometry)
    ensures g.BitSize() == g.RowLower() + g.row && g.RowLower() >= g.bankgroup + g.bank
  {
    var s := g.Sizes();
    assert Sum(s, 3) == Sum(s, 2) + g.bankgroup;
    assert Sum(s, 4) == Sum(s, 3) + g.bank;
    SumMonotone(s, 4, 6);
  }

  method GetChannel(g: Geometry, a: Bits) returns (channel: nat)
    requires g.Valid() && |a| == ADDRESS_BITS
    ensures channel == ToNat(Decode(g, a).channel) < Pow2(g.channel)
  {
    hide Swizzled;
    RawInRange(g, a);
    RowAboveBanks(g);
    var raw := RawFields(g, a);
    var bits := SwizzleBits(raw.row, g.BitSize(), 1, 0, raw.channel);
    ToNatRange(bits);
    channel := ToNat(bits);
  }

  method GetBankgroup(g: Geometry, a: Bits) returns (bankgroup: nat)
    requires g.Valid() && |a| == ADDRESS_BITS
    ensures bankgroup == ToNat(Decode(g, a).bankgroup) < Pow2(g.bankgroup)
  {
    hide Swizzled;
    RawInRange(g, a);
    RowAboveBanks(g);
    var raw := RawFields(g, a);
    var bits := SwizzleBits(raw.row, g.BitSize(), g.bankgroup + g.bank, 0, raw.bankgroup);
    ToNatRange(bits);
    bankgroup := ToNat(bits);
  }

  method GetBank(g: Geometry, a: Bits) returns (bank: nat)
    requires g.Valid() && |a| == ADDRESS_BITS
    ensures bank == ToNat(Decode(g, a).bank) < Pow2(g.bank)
  {
    hide Swizzled;
    RawInRange(g, a);
    RowAboveBanks(g);
    var raw := RawFields(g, a);
    var bits := SwizzleBits(raw.row, g.BitSize(), g.bankgroup + g.bank, g.bankgroup, raw.bank);
    ToNatRange(bits);
    bank := ToNat(bits);
  }

  // ---- the slicer ------------------------------------------------------------------------

  ghost predicate IsPow2(n: nat) {
    exists k: nat :: Pow2(k) == n
  }

  /** The position of the highest set bit, by repeated halving. */
  method Lg2(n: nat) returns (r: nat)
    ensures n == 0 ==> r == 0
    ensures n > 0 ==> Pow2(r) <= n < 2 * Pow2(r)
  {
    r := 0;
    var m := n;
    while m / 2 > 0
      invariant n > 0 ==> m > 0 && Bracket(m, Pow2(r), n)
      invariant n == 0 ==> m == 0 && r == 0
      decreases m
    {
      HalveBounds(n, m, Pow2(r));
      m := m / 2;
      r := r + 1;
    }
  }

  ghost predicate Bracket(m: nat, p: nat, n: nat) {
    m * p <= n < (m + 1) * p
  }

  lemma HalveBounds(n: nat, m: nat, p: nat)
    requires Bracket(m, p, n)
    ensures Bracket(m / 2, 2 * p, n)
  {
    var h, b := m / 2, m % 2;
    assert m == 2 * h + b;
    assert (2 * h + b) * p == h * (2 * p) + b * p;
    assert (2 * h + b + 1) * p == h * (2 * p) + b * p + p;
    assert (h + 1) * (2 * p) == h * (2 * p) + 2 * p;
    assert b == 0 || b == 1;
  }

  lemma {:induction false} Pow2Grows(i: nat, j: nat)
    requires i < j
    ensures 2 * Pow2(i) <= Pow2(j)
  {
    if i < j - 1 {
      Pow2Grows(i, j - 1);
    }
  }

  /** The geometry whose fields have the given numbers of entries. The source checks the field
      sizes against the parameters, which holds exactly for powers of two. */
  method MakeSlicer(channelWidth: nat, prefSize: nat, channels: nat, bankgroups: nat, banks: nat, columns: nat,
                    ranks: nat, rows: nat) returns (g: Geometry)
    requires prefSize > 0
    ensures channels > 0 ==> (Pow2(g.channel) == channels <==> IsPow2(channels))
    ensures bankgroups > 0 ==> (Pow2(g.bankgroup) == bankgroups <==> IsPow2(bankgroups))
    ensures banks > 0 ==> (Pow2(g.bank) == banks <==> IsPow2(banks))
    ensures ranks > 0 ==> (Pow2(g.rank) == ranks <==> IsPow2(ranks))
    ensures rows > 0 ==> (Pow2(g.row) == rows <==> IsPow2(rows))
    ensures columns >= prefSize ==> (Pow2(g.column) == columns / prefSize <==> IsPow2(columns / prefSize))
    ensures channelWidth > 0 ==> (Pow2(g.offset) == channelWidth * prefSize <==> IsPow2(channelWidth * prefSize))
  {
    var offset := Lg2(channelWidth * prefSize);
    var channel := Lg2(channels);
    var bankgroup := Lg2(bankgroups);
    var bank := Lg2(banks);
    var column := Lg2(columns / prefSize);
    var rank := Lg2(ranks);
    var row := Lg2(rows);
    ExactLg2();
    g := Geometry(offset, channel, bankgroup, bank, column, rank, row);
  }

  lemma ExactLg2()
    ensures forall n: nat, r: nat :: n > 0 && Pow2(r) <= n < 2 * Pow2(r) ==> (Pow2(r) == n <==> IsPow2(n))
  {
    forall n: nat, r: nat | n > 0 && Pow2(r) <= n < 2 * Pow2(r) ensures Pow2(r) == n <==> IsPow2(n) {
      if IsPow2(n) {
        var k: nat :| Pow2(k) == n;
        if k < r {
          Pow2Grows(k, r);
        } else if r < k {
          Pow2Grows(r, k);
        }
      }
    }
  }

  /** A collision is a pair of addresses that differ at most in the offset field. */
  predicate IsCollision(g: Geometry, a: Bits, b: Bits) {
    g.offset <= |a| && g.offset <= |b| && a[g.offset..] == b[g.offset..]
  }
}
