/** Two implementations of the same folded branch history: the hash that TAGE recomputes bit by
    bit, and the shift register that packs the history into machine words. */
module FoldedHistory {
  import opened Prelude
  import opened BitStrings

  const DIGITS: nat := 64

  // ---- the hash --------------------------------------------------------------------------

  /** The history after one more outcome; the newest is first and the oldest is lost. */
  function Pushed(h: Bits, b: bool): (r: Bits)
    ensures |r| == |h|
  {
    ([b] + h)[..|h|]
  }

  /** Folds the newest `length` outcomes into `width` bits: bit `b` is the parity of the
      outcomes whose age is `b` modulo `width`. */
  function Fold(h: Bits, length: nat, width: nat): (r: Bits)
    requires length <= |h| && width >= 1
    ensures |r| == width
  {
    seq(width, b requires 0 <= b < width => Parity(h, width, b, length))
  }

  /** The hash as TAGE computes it. */
  method GhistHash(h: Bits, inSize: nat, outSize: nat) returns (hash: Bits)
    requires inSize <= |h| && outSize >= 1
    ensures hash == Fold(h, inSize, outSize)
  {
    hash := seq(outSize, _ => false);
    for i := 0 to inSize
      invariant hash == Fold(h, i, outSize)
    {
      ghost var before := hash;
      if h[i] {
        var pos := i % outSize;
        hash := hash[pos := !hash[pos]];
      }
      forall b | 0 <= b < outSize ensures hash[b] == Fold(h, i + 1, outSize)[b] {
        assert before[b] == Parity(h, outSize, b, i);
      }
    }
  }

  /** Rotates left by one: the top bit becomes the lowest. */
  function RotateLeft(b: Bits): (r: Bits)
    requires |b| >= 1
    ensures |r| == |b|
  {
    [b[|b| - 1]] + b[..|b| - 1]
  }

  function FlipAt(b: Bits, i: nat, flip: bool): (r: Bits)
    requires i < |b|
    ensures |r| == |b|
  {
    b[i := b[i] != flip]
  }

  lemma NextResidue(i: nat, w: nat)
    requires w >= 1
    ensures (i + 1) % w == if i % w == w - 1 then 0 else i % w + 1
  {
    var k := i / w;
    NextMultiple(k, w);
    assert i == k * w + i % w;
    if i % w == w - 1 {
      ModSegment(k + 1, w, 0);
    } else {
      ModSegment(k, w, i % w + 1);
    }
  }

  function Previous(b: nat, w: nat): nat
    requires b < w
  {
    if b == 0 then w - 1 else b - 1
  }

  lemma {:induction false} ParityPushed(h: Bits, ins: bool, w: nat, b: nat, n: nat)
    requires b < w && 1 <= n <= |h|
    ensures Parity(Pushed(h, ins), w, b, n) == ((ins && b == 0) != Parity(h, w, Previous(b, w), n - 1))
    decreases n
  {
    if n == 1 {
      assert Parity(Pushed(h, ins), w, b, 1) == (Parity(Pushed(h, ins), w, b, 0) != (Pushed(h, ins)[0] && 0 % w == b));
      assert Parity(h, w, Previous(b, w), 0) == false;
    } else {
      ParityPushed(h, ins, w, b, n - 1);
      NextResidue(n - 2, w);
      assert Pushed(h, ins)[n - 1] == h[n - 2];
    }
  }

  /** One more outcome rotates the hash by one, adds the new outcome at the bottom and takes
      the one that leaves out at position `length` modulo `width`. */
  lemma PushRotates(h: Bits, ins: bool, length: nat, width: nat)
    requires 1 <= length <= |h| && width >= 1
    ensures Fold(Pushed(h, ins), length, width)
         == FlipAt(FlipAt(RotateLeft(Fold(h, length, width)), 0, ins), length % width, h[length - 1])
  {
    var f := Fold(h, length, width);
    var r := FlipAt(FlipAt(RotateLeft(f), 0, ins), length % width, h[length - 1]);
    forall b | 0 <= b < width ensures Fold(Pushed(h, ins), length, width)[b] == r[b] {
      ParityPushed(h, ins, width, b, length);
      NextResidue(length - 1, width);
      assert RotateLeft(f)[b] == f[Previous(b, width)] == Parity(h, width, Previous(b, width), length);
    }
  }

  /** Only the newest `length` outcomes matter. */
  lemma {:induction false} ParityPrefix(h: Bits, g: Bits, w: nat, b: nat, n: nat)
    requires w >= 1 && n <= |h| && n <= |g| && h[..n] == g[..n]
    ensures Parity(h, w, b, n) == Parity(g, w, b, n)
  {
    if n > 0 {
      assert h[n - 1] == h[..n][n - 1] == g[..n][n - 1];
      assert h[..n - 1] == h[..n][..n - 1] && g[..n - 1] == g[..n][..n - 1];
      ParityPrefix(h, g, w, b, n - 1);
    }
  }

  lemma FoldPrefix(h: Bits, g: Bits, length: nat, width: nat)
    requires width >= 1 && length <= |h| && length <= |g| && h[..length] == g[..length]
    ensures Fold(h, length, width) == Fold(g, length, width)
  {
    forall b | 0 <= b < width ensures Parity(h, width, b, length) == Parity(g, width, b, length) {
      ParityPrefix(h, g, width, b, length);
    }
  }

  function PushAll(h: Bits, outcomes: seq<bool>, n: nat): (r: Bits)
    requires n <= |outcomes|
    ensures |r| == |h|
  {
    if n == 0 then h else Pushed(PushAll(h, outcomes, n - 1), outcomes[n - 1])
  }

  lemma {:induction false} PrefixesAgree(h: Bits, g: Bits, outcomes: seq<bool>, n: nat)
    requires |g| <= |h| && h[..|g|] == g && n <= |outcomes|
    ensures PushAll(h, outcomes, n)[..|g|] == PushAll(g, outcomes, n)
  {
    if n > 0 {
      PrefixesAgree(h, g, outcomes, n - 1);
      var x, y := PushAll(h, outcomes, n - 1), PushAll(g, outcomes, n - 1);
      assert forall i :: 0 <= i < |y| ==> x[i] == y[i];
    }
  }

  /** After any outcomes a register of exactly `length` bits folds to the hash of the longer
      history that TAGE keeps. */
  lemma HistoriesAgree(capacity: nat, length: nat, width: nat, outcomes: seq<bool>)
    requires length <= capacity && width >= 1
    ensures Fold(PushAll(seq(capacity, _ => false), outcomes, |outcomes|), length, width)
         == Fold(PushAll(seq(length, _ => false), outcomes, |outcomes|), length, width)
  {
    var h, g := seq(capacity, _ => false), seq(length, _ => false);
    assert h[..length] == g;
    PrefixesAgree(h, g, outcomes, |outcomes|);
    FoldPrefix(PushAll(h, outcomes, |outcomes|), PushAll(g, outcomes, |outcomes|), length, width);
  }

  // ---- machine words ---------------------------------------------------------------------

  function ZeroWord(): (w: Bits)
    ensures |w| == DIGITS && forall k :: 0 <= k < DIGITS ==> !w[k]
  {
    seq(DIGITS, _ => false)
  }

  function XorWord(x: Bits, y: Bits): (r: Bits)
    requires |x| == |y|
    ensures |r| == |x| && forall k :: 0 <= k < |x| ==> r[k] == (x[k] != y[k])
  {
    seq(|x|, k requires 0 <= k < |x| => x[k] != y[k])
  }

  function ShiftRight(x: Bits, n: nat): (r: Bits)
    ensures |r| == |x| && forall k :: 0 <= k < |x| ==> r[k] == (k + n < |x| && x[k + n])
  {
    seq(|x|, k requires 0 <= k < |x| => k + n < |x| && x[k + n])
  }

  /** Shifts left by one and puts `lsb` at the bottom. */
  function ShiftIn(x: Bits, lsb: bool): (r: Bits)
    ensures |r| == |x| && forall k :: 0 <= k < |x| ==> r[k] == if k == 0 then lsb else x[k - 1]
  {
    seq(|x|, k requires 0 <= k < |x| => if k == 0 then lsb else x[k - 1])
  }

  /** Keeps the low `n` bits. */
  function Masked(x: Bits, n: nat): (r: Bits)
    ensures |r| == |x| && forall k :: 0 <= k < |x| ==> r[k] == (k < n && x[k])
  {
    seq(|x|, k requires 0 <= k < |x| => k < n && x[k])
  }

  /** The word holds the outcomes whose age is at least `base`, `len` of them. */
  ghost predicate Represents(h: Bits, word: Bits, base: nat, len: nat) {
    |word| == DIGITS && forall k :: 0 <= k < DIGITS ==> word[k] == (k < len && base + k < |h| && h[base + k])
  }

  // ---- folding the words -----------------------------------------------------------------

  lemma {:induction false} ParityXor(x: Bits, y: Bits, w: nat, b: nat, n: nat)
    requires |x| == |y| && w >= 1 && n <= |x|
    ensures Parity(XorWord(x, y), w, b, n) == (Parity(x, w, b, n) != Parity(y, w, b, n))
  {
    if n > 0 {
      ParityXor(x, y, w, b, n - 1);
    }
  }

  lemma {:induction false} ParityZeros(x: Bits, w: nat, b: nat, m: nat, n: nat)
    requires w >= 1 && m <= n <= |x| && forall k :: m <= k < n ==> !x[k]
    ensures Parity(x, w, b, n) == Parity(x, w, b, m)
    decreases n
  {
    if m < n {
      ParityZeros(x, w, b, m, n - 1);
    }
  }

  lemma ModShift(c: nat, w: nat, k: nat)
    requires w >= 1
    ensures (c * w + k) % w == k % w
  {
    var d := k / w;
    assert (c + d) * w == c * w + d * w by { MulAdd(c, d, w); }
    ModSegment(c + d, w, k % w);
  }

  lemma MulAdd(c: nat, d: nat, w: nat)
    ensures (c + d) * w == c * w + d * w
  {
  }

  /** The outcomes of one word, counted from a base that is a multiple of the width. */
  lemma {:induction false} ParityWord(h: Bits, word: Bits, base: nat, c: nat, len: nat, w: nat, b: nat, k: nat)
    requires w >= 1 && base == c * w && base <= |h| && k <= len <= DIGITS && Represents(h, word, base, len)
    ensures Parity(h, w, b, Min(|h|, base + k)) == (Parity(h, w, b, base) != Parity(word, w, b, k))
    decreases k
  {
    if k > 0 {
      ParityWord(h, word, base, c, len, w, b, k - 1);
      ModShift(c, w, k - 1);
    }
  }

  /** The exclusive or of the first `n` words. */
  function Joined(words: seq<Bits>, n: nat): (r: Bits)
    requires n <= |words| && forall i :: 0 <= i < |words| ==> |words[i]| == DIGITS
    ensures |r| == DIGITS
  {
    if n == 0 then ZeroWord() else XorWord(Joined(words, n - 1), words[n - 1])
  }

  /** Word `i` holds the `len` outcomes from `i * len` on. */
  ghost predicate AllRepresent(h: Bits, words: seq<Bits>, len: nat) {
    forall i :: 0 <= i < |words| ==> Represents(h, words[i], i * len, len)
  }

  lemma Regroup(i: nat, per: nat, w: nat)
    ensures i * (per * w) == (i * per) * w
  {
  }

  /** What word `i` adds to the parity of the history. */
  lemma WordParity(h: Bits, words: seq<Bits>, len: nat, per: nat, w: nat, b: nat, i: nat)
    requires w >= 1 && len == per * w <= DIGITS && i < |words| && AllRepresent(h, words, len) && i * len <= |h|
    ensures |words[i]| == DIGITS
    ensures Parity(h, w, b, Min(|h|, i * len + len)) == (Parity(h, w, b, i * len) != Parity(words[i], w, b, DIGITS))
  {
    hide Parity;
    Regroup(i, per, w);
    MulMonotone(0, i, len);
    assert Represents(h, words[i], i * len, len);
    ParityWord(h, words[i], i * len, i * per, len, w, b, len);
    ParityZeros(words[i], w, b, len, DIGITS);
  }

  /** Joining the words keeps the parity at the stride. */
  lemma {:induction false} JoinedParity(h: Bits, words: seq<Bits>, len: nat, per: nat, w: nat, b: nat, n: nat)
    requires w >= 1 && len == per * w <= DIGITS && n <= |words| && AllRepresent(h, words, len)
    requires n > 0 ==> (n - 1) * len <= |h|
    ensures forall i :: 0 <= i < |words| ==> |words[i]| == DIGITS
    ensures Parity(Joined(words, n), w, b, DIGITS) == Parity(h, w, b, Min(|h|, n * len))
  {
    if n == 0 {
      ParityZeros(ZeroWord(), w, b, 0, DIGITS);
    } else {
      hide Parity, AllRepresent, Represents, XorWord, ZeroWord;
      NextMultiple(n - 1, len);
      if n > 1 {
        NextMultiple(n - 2, len);
      }
      JoinedParity(h, words, len, per, w, b, n - 1);
      WordParity(h, words, len, per, w, b, n - 1);
      ParityXor(Joined(words, n - 1), words[n - 1], w, b, DIGITS);
    }
  }

  /** How many values a history of this length needs. */
  function ValueCount(length: nat, valueLen: nat): nat
    requires valueLen >= 1
  {
    length / valueLen + if length % valueLen != 0 then 1 else 0
  }

  /** Every value but a partial last one is full. */
  lemma ValueBase(length: nat, valueLen: nat, i: nat)
    requires valueLen >= 1 && i < ValueCount(length, valueLen)
    ensures i * valueLen <= length
    ensures i < length / valueLen ==> i * valueLen + valueLen <= length
    ensures i == length / valueLen ==> length - i * valueLen == length % valueLen != 0
  {
    var d := length / valueLen;
    assert length == d * valueLen + length % valueLen;
    MulMonotone(i, d, valueLen);
    if i < d {
      MulMonotone(i + 1, d, valueLen);
      NextMultiple(i, valueLen);
    }
  }

  lemma ValuesCover(length: nat, valueLen: nat)
    requires valueLen >= 1
    ensures length <= ValueCount(length, valueLen) * valueLen
  {
    var d := length / valueLen;
    assert length == d * valueLen + length % valueLen;
    NextMultiple(d, valueLen);
  }

  /** One more outcome shifts every word; the last one is cut to the length of the history. */
  lemma ShiftWord(h: Bits, ins: bool, word: Bits, base: nat, len: nat, lsb: bool)
    requires Represents(h, word, base, len) && 1 <= len <= DIGITS && base <= |h|
    requires lsb == if base == 0 then ins else base - 1 < |h| && h[base - 1]
    ensures base + len <= |h| ==> Represents(Pushed(h, ins), Masked(ShiftIn(word, lsb), len), base, len)
    ensures |h| < base + len ==> Represents(Pushed(h, ins), Masked(Masked(ShiftIn(word, lsb), len), |h| - base), base, len)
  {
    var h', word' := Pushed(h, ins), Masked(ShiftIn(word, lsb), len);
    forall k | 0 <= k < len && base + k < |h| ensures word'[k] == h'[base + k] {
    }
  }

  lemma PerValue(w: nat)
    requires 1 <= w <= DIGITS
    ensures DIGITS / w >= 1 && w <= (DIGITS / w) * w <= DIGITS < (DIGITS / w + 1) * w
  {
    var d := DIGITS / w;
    NextMultiple(d, w);
    MulMonotone(1, d, w);
  }

  class FoldedShiftRegister {
    const wordLen: nat
    const length: nat
    const words: array<Bits>
    ghost var history: Bits

    function PerWord(): nat
      requires wordLen >= 1
    {
      DIGITS / wordLen
    }

    function ValueLen(): nat
      requires wordLen >= 1
    {
      PerWord() * wordLen
    }

    ghost predicate Valid()
      reads this, words
    {
      && 1 <= wordLen <= DIGITS && 1 <= ValueLen() <= DIGITS && |history| == length
      && words.Length == ValueCount(length, ValueLen())
      && AllRepresent(history, words[..], ValueLen())
    }

    constructor (wordLen: nat, length: nat)
      requires 1 <= wordLen <= DIGITS
      ensures Valid() && this.wordLen == wordLen && this.length == length && fresh(words)
      ensures history == seq(length, _ => false)
    {
      PerValue(wordLen);
      this.wordLen, this.length := wordLen, length;
      words := new Bits[ValueCount(length, DIGITS / wordLen * wordLen)](_ => ZeroWord());
      history := seq(length, _ => false);
      new;
      InitialWords(history, words[..], ValueLen());
    }

    /** Inserts the newest outcome. */
    method PushBack(ins: bool)
      requires Valid()
      modifies this`history, words
      ensures Valid() && history == Pushed(old(history), ins)
    {
      hide AllRepresent, Pushed, Masked, ShiftIn;
      ghost var before := words[..];
      var len := ValueLen();
      WordSizes(history, before, len);
      var msbs := [ins];
      for i := 0 to words.Length
        invariant |msbs| == i + 1 && msbs[0] == ins
        invariant forall j :: 1 <= j <= i ==> msbs[j] == before[j - 1][len - 1]
      {
        msbs := msbs + [words[i][len - 1]];
      }
      for i := 0 to words.Length
        modifies words
        invariant forall j :: 0 <= j < i ==> words[j] == Masked(ShiftIn(before[j], msbs[j]), len)
        invariant forall j :: i <= j < words.Length ==> words[j] == before[j]
      {
        words[i] := Masked(ShiftIn(words[i], msbs[i]), len);
      }
      if length % len != 0 {
        words[words.Length - 1] := Masked(words[words.Length - 1], length % len);
      }
      forall i | 0 <= i < words.Length ensures words[i] == NextWord(before[i], msbs[i], i, length, len) {
        LastIndex(length, len, i);
        hide ValueCount;
      }
      hide NextWord, ValueCount;
      PushWords(history, ins, before, msbs, words[..], len);
      history := Pushed(history, ins);
    }

    /** The words folded into one. */
    method Value() returns (result: Bits)
      requires Valid()
      ensures result == Fold(history, length, wordLen) + seq(DIGITS - wordLen, _ => false)
    {
      hide ValueCount, AllRepresent, Parity, Fold, FoldedUpTo, XorWord, ShiftRight;
      FoldOfJoined(history, words[..], ValueLen(), PerWord(), wordLen);
      JoinedZeros(history, words[..], ValueLen(), words.Length);
      var joined := ZeroWord();
      for i := 0 to words.Length
        invariant joined == Joined(words[..], i)
      {
        joined := XorWord(joined, words[i]);
      }
      ghost var all := joined;
      result := Unpack(joined);
      ResultIs(history, wordLen, all, result);
      result := Masked(result, wordLen);
    }

    /** Folds the words packed in `joined` onto the lowest one. */
    method Unpack(packed: Bits) returns (result: Bits)
      requires 1 <= wordLen <= DIGITS && ValueLen() <= DIGITS && |packed| == DIGITS
      requires forall k :: ValueLen() <= k < DIGITS ==> !packed[k]
      ensures |result| == DIGITS && forall b :: 0 <= b < wordLen ==> result[b] == Parity(packed, wordLen, b, DIGITS)
    {
      hide Parity, FoldedUpTo, XorWord;
      FirstShift(packed, wordLen);
      result := packed;
      var joined := packed;
      ghost var shifts := 0;
      ShiftNone(packed, wordLen);
      if PerWord() > 1 {
        for i := 0 to PerWord() + 1
          invariant shifts == i && joined == ShiftRight(packed, shifts * wordLen) && |result| == DIGITS
          invariant FoldedUpTo(packed, result, wordLen, shifts + 1)
        {
          ShiftTwice(packed, shifts, wordLen);
          joined := ShiftRight(joined, wordLen);
          NextShift(packed, result, wordLen, shifts + 1);
          result := XorWord(result, joined);
          shifts := shifts + 1;
        }
      }
      LastShift(packed, result, wordLen, PerWord(), ValueLen(), shifts + 1);
    }
  }

  lemma ShiftNone(x: Bits, w: nat)
    ensures ShiftRight(x, 0 * w) == x
  {
  }

  lemma ShiftTwice(x: Bits, n: nat, w: nat)
    ensures ShiftRight(ShiftRight(x, n * w), w) == ShiftRight(x, (n + 1) * w)
  {
    NextMultiple(n, w);
  }

  lemma PushWords(h: Bits, ins: bool, before: seq<Bits>, msbs: seq<bool>, after: seq<Bits>, len: nat)
    requires 1 <= len <= DIGITS && |before| == ValueCount(|h|, len) == |after|
    requires AllRepresent(h, before, len)
    requires |msbs| == |before| + 1 && msbs[0] == ins
    requires forall i :: 0 <= i < |before| ==> |before[i]| == DIGITS
    requires forall i :: 1 <= i <= |before| ==> msbs[i] == before[i - 1][len - 1]
    requires forall i :: 0 <= i < |before| ==> after[i] == NextWord(before[i], msbs[i], i, |h|, len)
    ensures AllRepresent(Pushed(h, ins), after, len)
  {
    hide ValueCount, AllRepresent, Represents, NextWord, Pushed;
    forall i | 0 <= i < |after| ensures Represents(Pushed(h, ins), after[i], i * len, len) {
      MsbIs(h, ins, before, msbs, len, i);
      PushWord(h, ins, before[i], msbs[i], i, len);
    }
    Represented(Pushed(h, ins), after, len);
  }

  lemma Represented(h: Bits, words: seq<Bits>, len: nat)
    requires forall i :: 0 <= i < |words| ==> Represents(h, words[i], i * len, len)
    ensures AllRepresent(h, words, len)
  {
    hide Represents;
  }

  /** Word `i` after a push: the last word is cut if it is partial. */
  function NextWord(word: Bits, lsb: bool, i: nat, length: nat, len: nat): (r: Bits)
    requires len >= 1
    ensures |r| == |word|
  {
    var shifted := Masked(ShiftIn(word, lsb), len);
    if i == length / len then Masked(shifted, length % len) else shifted
  }

  lemma PushWord(h: Bits, ins: bool, word: Bits, lsb: bool, i: nat, len: nat)
    requires 1 <= len <= DIGITS && i < ValueCount(|h|, len) && Represents(h, word, i * len, len)
    requires lsb == if i * len == 0 then ins else i * len - 1 < |h| && h[i * len - 1]
    ensures Represents(Pushed(h, ins), NextWord(word, lsb, i, |h|, len), i * len, len)
  {
    ValueBase(|h|, len, i);
    ShiftWord(h, ins, word, i * len, len, lsb);
    hide Represents, Masked, ShiftIn, Pushed;
  }

  lemma WordSizes(h: Bits, words: seq<Bits>, len: nat)
    requires AllRepresent(h, words, len)
    ensures forall i :: 0 <= i < |words| ==> |words[i]| == DIGITS
  {
  }

  /** Only a partial last value is ever cut. */
  lemma LastIndex(length: nat, len: nat, i: nat)
    requires len >= 1 && i < ValueCount(length, len)
    ensures i == length / len <==> length % len != 0 && i == ValueCount(length, len) - 1
  {
  }

  /** What word `i` takes in is the outcome just before its own. */
  lemma MsbIs(h: Bits, ins: bool, before: seq<Bits>, msbs: seq<bool>, len: nat, i: nat)
    requires 1 <= len <= DIGITS && |before| == ValueCount(|h|, len) && i < |before|
    requires AllRepresent(h, before, len)
    requires |msbs| == |before| + 1 && msbs[0] == ins
    requires forall j :: 0 <= j < |before| ==> |before[j]| == DIGITS
    requires forall j :: 1 <= j <= |before| ==> msbs[j] == before[j - 1][len - 1]
    ensures Represents(h, before[i], i * len, len)
    ensures msbs[i] == if i * len == 0 then ins else i * len - 1 < |h| && h[i * len - 1]
  {
    if i > 0 {
      NextMultiple(i - 1, len);
      MulMonotone(0, i - 1, len);
      assert Represents(h, before[i - 1], (i - 1) * len, len);
    }
  }

  /** The joined words carry the fold of the whole history. */
  lemma FoldOfJoined(h: Bits, words: seq<Bits>, len: nat, per: nat, w: nat)
    requires w >= 1 && 1 <= len == per * w <= DIGITS && |words| == ValueCount(|h|, len)
    requires AllRepresent(h, words, len)
    ensures forall i :: 0 <= i < |words| ==> |words[i]| == DIGITS
    ensures forall b :: 0 <= b < w ==> Parity(Joined(words, |words|), w, b, DIGITS) == Fold(h, |h|, w)[b]
  {
    if |words| > 0 {
      ValueBase(|h|, len, |words| - 1);
    }
    ValuesCover(|h|, len);
    forall b | 0 <= b < w ensures Parity(Joined(words, |words|), w, b, DIGITS) == Fold(h, |h|, w)[b] {
      JoinedParity(h, words, len, per, w, b, |words|);
    }
  }

  /** Bit `b` of the result is the parity of the bits of `all` up to word `n`. */
  ghost predicate FoldedUpTo(all: Bits, result: Bits, w: nat, n: nat) {
    w >= 1 && |all| == |result| == DIGITS
    && forall b :: 0 <= b < w && b < DIGITS ==> result[b] == Parity(all, w, b, Min(DIGITS, n * w))
  }

  lemma FirstShift(all: Bits, w: nat)
    requires 1 <= w <= DIGITS && |all| == DIGITS
    ensures FoldedUpTo(all, all, w, 1)
  {
    forall b | 0 <= b < w ensures all[b] == Parity(all, w, b, Min(DIGITS, 1 * w)) {
      ParityStep(all, w, b, 0, w);
    }
  }

  lemma NextShift(all: Bits, result: Bits, w: nat, n: nat)
    requires FoldedUpTo(all, result, w, n)
    ensures FoldedUpTo(all, XorWord(result, ShiftRight(all, n * w)), w, n + 1)
  {
    NextMultiple(n, w);
    hide Parity, XorWord, ShiftRight;
    forall b | 0 <= b < w && b < DIGITS
      ensures XorWord(result, ShiftRight(all, n * w))[b] == Parity(all, w, b, Min(DIGITS, (n + 1) * w))
    {
      if n * w <= DIGITS {
        ParityStep(all, w, b, n, Min(DIGITS, (n + 1) * w));
      }
    }
  }

  lemma {:induction false} JoinedZeros(h: Bits, words: seq<Bits>, len: nat, n: nat)
    requires AllRepresent(h, words, len) && n <= |words|
    ensures forall i :: 0 <= i < |words| ==> |words[i]| == DIGITS
    ensures forall k :: len <= k < DIGITS ==> !Joined(words, n)[k]
  {
    if n > 0 {
      JoinedZeros(h, words, len, n - 1);
      assert Represents(h, words[n - 1], (n - 1) * len, len);
    }
  }

  /** Enough shifts fold every bit in. */
  lemma LastShift(all: Bits, result: Bits, w: nat, per: nat, len: nat, n: nat)
    requires FoldedUpTo(all, result, w, n) && 1 <= w <= DIGITS && n >= per && len == per * w <= DIGITS
    requires forall k :: len <= k < DIGITS ==> !all[k]
    ensures forall b :: 0 <= b < w ==> result[b] == Parity(all, w, b, DIGITS)
  {
    MulMonotone(per, n, w);
    hide Parity;
    forall b | 0 <= b < w ensures result[b] == Parity(all, w, b, DIGITS) {
      ParityZeros(all, w, b, Min(DIGITS, n * w), DIGITS);
    }
  }

  lemma InitialWords(h: Bits, words: seq<Bits>, len: nat)
    requires forall k :: 0 <= k < |h| ==> !h[k]
    requires forall i :: 0 <= i < |words| ==> words[i] == ZeroWord()
    ensures AllRepresent(h, words, len)
  {
    forall i | 0 <= i < |words| ensures Represents(h, words[i], i * len, len) {
      MulMonotone(0, i, len);
    }
  }

  /** The result read off the folded word. */
  lemma ResultIs(h: Bits, w: nat, all: Bits, result: Bits)
    requires 1 <= w <= DIGITS && |all| == DIGITS && |result| == DIGITS
    requires forall b :: 0 <= b < w ==> Parity(all, w, b, DIGITS) == Fold(h, |h|, w)[b]
    requires forall b :: 0 <= b < w ==> result[b] == Parity(all, w, b, DIGITS)
    ensures Masked(result, w) == Fold(h, |h|, w) + seq(DIGITS - w, _ => false)
  {
  }
}
