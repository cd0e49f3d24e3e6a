/** What the hashes of TAGE depend on: no bit that they read is ignored, and no other is read. */
module TageHashing {
  import opened BitStrings
  import opened FoldedHistory
  import opened TagePrediction

  lemma FromToNat(r: Bits)
    ensures FromNat(ToNat(r), |r|) == r
  {
    ToNatRange(r);
    FromNatRoundTrip(ToNat(r), |r|);
    ToNatInjective(FromNat(ToNat(r), |r|), r);
  }

  function IndexBits(ip: Bits, history: Bits, path: Bits, comp: nat): (r: Bits)
    requires 1 <= comp <= TABLES && |ip| == DIGITS && |history| == HISTORY_BITS && |path| == PATH_BITS
    ensures |r| == 10
  {
    FromNat(IndexOf(ip, history, path, comp), 10)
  }

  /** Each bit of the index combines two bits of the address, one of the path, and the parity of
      the outcomes of the component's history whose age is that bit's number modulo ten. */
  lemma IndexBitIs(ip: Bits, history: Bits, path: Bits, comp: nat, b: nat)
    requires 1 <= comp <= TABLES && |ip| == DIGITS && |history| == HISTORY_BITS && |path| == PATH_BITS && b < 10
    ensures IndexBits(ip, history, path, comp)[b] == (((ip[b] != ip[b + 10]) != Parity(history, 10, b, HistoryLength(comp))) != path[b])
  {
    var r := XorWord(XorWord(XorWord(ip[..INDEX_BITS], ip[INDEX_BITS..2 * INDEX_BITS]),
                             Fold(history, HistoryLength(comp), INDEX_BITS)), path[..INDEX_BITS]);
    FromToNat(r);
  }

  /** Each bit of the tag combines a bit of the address and two parities of the history, at two
      strides. */
  lemma TagBitIs(ip: Bits, history: Bits, comp: nat, b: nat)
    requires 1 <= comp <= TABLES && |ip| == DIGITS && |history| == HISTORY_BITS && b < TagWidth(comp)
    ensures FromNat(TagHash(ip, history, comp), TagWidth(comp))[b] ==
      ((ip[b] != Parity(history, TagWidth(comp), b, HistoryLength(comp)))
       != (b > 0 && Parity(history, TagWidth(comp) - 1, b - 1, HistoryLength(comp))))
  {
    FromToNat(TagBits(ip, history, comp));
  }

  /** Two branches that differ in one of the twenty low address bits are apart in every table
      under the same history. */
  lemma IndexSeparates(ip: Bits, history: Bits, path: Bits, comp: nat, b: nat)
    requires 1 <= comp <= TABLES && |ip| == DIGITS && |history| == HISTORY_BITS && |path| == PATH_BITS && b < DIGITS
    ensures IndexOf(ip[b := !ip[b]], history, path, comp) != IndexOf(ip, history, path, comp) <==> b < 20
  {
    hide IndexOf, Fold, HistoryLength, FromNat;
    var ip' := ip[b := !ip[b]];
    if b < 20 {
      IndexBitIs(ip, history, path, comp, b % 10);
      IndexBitIs(ip', history, path, comp, b % 10);
    } else {
      SameIndex(ip, history, path, ip', history, path, comp);
    }
  }

  lemma SameIndex(ip: Bits, history: Bits, path: Bits, ip': Bits, history': Bits, path': Bits, comp: nat)
    requires 1 <= comp <= TABLES && |ip| == |ip'| == DIGITS && |history| == |history'| == HISTORY_BITS
    requires |path| == |path'| == PATH_BITS && ip[..20] == ip'[..20] && path[..10] == path'[..10]
    requires history[..HistoryLength(comp)] == history'[..HistoryLength(comp)]
    ensures IndexOf(ip', history', path', comp) == IndexOf(ip, history, path, comp)
  {
    FoldPrefix(history, history', HistoryLength(comp), INDEX_BITS);
    assert ip[..10] == ip[..20][..10] && ip[10..20] == ip[..20][10..];
    assert ip'[..10] == ip'[..20][..10] && ip'[10..20] == ip'[..20][10..];
  }

  /** A different outcome anywhere in a component's history moves the branch to another entry of
      its table; older outcomes do not matter. */
  lemma HistorySeparates(ip: Bits, history: Bits, path: Bits, comp: nat, a: nat)
    requires 1 <= comp <= TABLES && |ip| == DIGITS && |history| == HISTORY_BITS && |path| == PATH_BITS && a < HISTORY_BITS
    ensures IndexOf(ip, history[a := !history[a]], path, comp) != IndexOf(ip, history, path, comp) <==> a < HistoryLength(comp)
  {
    hide IndexOf, Fold, HistoryLength, FromNat;
    var h' := history[a := !history[a]];
    if a < HistoryLength(comp) {
      ParityFlip(history, a, 10, a % 10, HistoryLength(comp));
      IndexBitIs(ip, history, path, comp, a % 10);
      IndexBitIs(ip, h', path, comp, a % 10);
    } else {
      assert h'[..HistoryLength(comp)] == history[..HistoryLength(comp)];
      SameIndex(ip, history, path, ip, h', path, comp);
    }
  }

  /** The tag tells apart branches whose addresses differ in a low bit; of a different outcome it
      takes notice unless the two folds cancel. */
  lemma TagSeparates(ip: Bits, history: Bits, comp: nat, b: nat, a: nat)
    requires 1 <= comp <= TABLES && |ip| == DIGITS && |history| == HISTORY_BITS && b < DIGITS && a < HISTORY_BITS
    ensures TagHash(ip[b := !ip[b]], history, comp) != TagHash(ip, history, comp) <==> b < TagWidth(comp)
    ensures TagHash(ip, history[a := !history[a]], comp) != TagHash(ip, history, comp)
        <==> a < HistoryLength(comp) && a % TagWidth(comp) != a % (TagWidth(comp) - 1) + 1
  {
    AddressInTag(ip, history, comp, b);
    OutcomeInTag(ip, history, comp, a);
  }

  lemma AddressInTag(ip: Bits, history: Bits, comp: nat, b: nat)
    requires 1 <= comp <= TABLES && |ip| == DIGITS && |history| == HISTORY_BITS && b < DIGITS
    ensures TagHash(ip[b := !ip[b]], history, comp) != TagHash(ip, history, comp) <==> b < TagWidth(comp)
  {
    var w := TagWidth(comp);
    var ip' := ip[b := !ip[b]];
    if b < w {
      hide TagHash, Fold, HistoryLength, TagWidth, FromNat;
      TagBitIs(ip, history, comp, b);
      TagBitIs(ip', history, comp, b);
    } else {
      assert ip'[..w] == ip[..w];
    }
  }

  lemma OutcomeInTag(ip: Bits, history: Bits, comp: nat, a: nat)
    requires 1 <= comp <= TABLES && |ip| == DIGITS && |history| == HISTORY_BITS && a < HISTORY_BITS
    ensures TagHash(ip, history[a := !history[a]], comp) != TagHash(ip, history, comp)
        <==> a < HistoryLength(comp) && a % TagWidth(comp) != a % (TagWidth(comp) - 1) + 1
  {
    var w, n := TagWidth(comp), HistoryLength(comp);
    var h' := history[a := !history[a]];
    hide HistoryLength, TagWidth, Fold, FromNat, XorWord;
    if a < n && a % w != a % (w - 1) + 1 {
      hide TagHash;
      OutcomeBit(ip, history, comp, a, a % w);
    } else {
      forall b | 0 <= b < w ensures TagBits(ip, h', comp)[b] == TagBits(ip, history, comp)[b] {
        OutcomeBit(ip, history, comp, a, b);
      }
      assert TagBits(ip, h', comp) == TagBits(ip, history, comp);
    }
  }

  lemma OutcomeBit(ip: Bits, history: Bits, comp: nat, a: nat, b: nat)
    requires 1 <= comp <= TABLES && |ip| == DIGITS && |history| == HISTORY_BITS && a < HISTORY_BITS && b < TagWidth(comp)
    ensures var w, n := TagWidth(comp), HistoryLength(comp);
      var h' := history[a := !history[a]];
      && (TagBits(ip, h', comp)[b] == TagBits(ip, history, comp)[b] <==> !(a < n && (a % w == b) != (b > 0 && a % (w - 1) == b - 1)))
      && FromNat(TagHash(ip, h', comp), w) == TagBits(ip, h', comp)
      && FromNat(TagHash(ip, history, comp), w) == TagBits(ip, history, comp)
  {
    var w, n := TagWidth(comp), HistoryLength(comp);
    var h' := history[a := !history[a]];
    FromToNat(TagBits(ip, h', comp));
    FromToNat(TagBits(ip, history, comp));
    ParityFlip(history, a, w, b, n);
    if b > 0 {
      ParityFlip(history, a, w - 1, b - 1, n);
    }
  }

  /** Histories grow with the component, from four outcomes to all but the last bit. */
  lemma HistoriesGrow(c: nat, d: nat)
    requires 1 <= c < d <= TABLES
    ensures HistoryLength(c) < HistoryLength(d) && HistoryLength(1) == 4 && HistoryLength(TABLES) == HISTORY_BITS - 1
    ensures TagWidth(c) <= TagWidth(d)
  {
  }
}
