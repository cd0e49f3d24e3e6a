/** The TAGE predictor: tagged tables indexed by ever longer histories, above a bimodal table. */
module TagePrediction {
  import opened BitStrings
  import opened FoldedHistory

  const TABLES: nat := 12
  const ENTRIES: nat := 1024
  const BIMODAL_ENTRIES: nat := 16384
  const INDEX_BITS: nat := 10
  const BIMODAL_BITS: nat := 14
  const HISTORY_BITS: nat := 641
  const PATH_BITS: nat := 16
  const WEAKLY_TAKEN: nat := 4
  const WEAKLY_NOT_TAKEN: nat := 3
  const MAX_PRED: nat := 7
  const MAX_USEFUL: nat := 3
  const MAX_USE_ALT: nat := 15
  const RESET_INTERVAL: nat := 524288

  function HistoryLength(comp: nat): (n: nat)
    requires 1 <= comp <= TABLES
    ensures n < HISTORY_BITS
  {
    [4, 6, 10, 16, 25, 40, 64, 101, 160, 254, 403, 640][comp - 1]
  }

  function TagWidth(comp: nat): (n: nat)
    requires 1 <= comp <= TABLES
    ensures 7 <= n <= 15
  {
    [7, 7, 8, 8, 9, 10, 11, 12, 12, 13, 14, 15][comp - 1]
  }

  datatype TageEntry = TageEntry(pred: nat, tag: nat, useful: nat) {
    predicate Taken() {
      pred > MAX_PRED / 2
    }

    predicate LooksNew() {
      (pred == WEAKLY_NOT_TAKEN || pred == WEAKLY_TAKEN) && useful == 0
    }
  }

  type Tables = seq<seq<TageEntry>>

  /** What the last lookup found; component -1 stands for none. */
  datatype BranchInfo = BranchInfo(provider: int, providerIndex: nat, providerPred: bool,
                                   alt: int, altIndex: nat, altPred: bool, ultimate: bool, bimodal: nat)

  datatype State = State(tables: Tables, bimodal: seq<nat>, branches: nat, path: Bits, history: Bits, useAlt: nat)

  ghost predicate Shaped(t: Tables) {
    |t| == TABLES && forall c :: 0 <= c < TABLES ==> |t[c]| == ENTRIES
  }

  ghost predicate ValidState(s: State) {
    && Shaped(s.tables) && |s.bimodal| == BIMODAL_ENTRIES && |s.path| == PATH_BITS && |s.history| == HISTORY_BITS
    && s.branches < RESET_INTERVAL
  }

  /** One step up or down, saturating. */
  function Nudge(x: nat, up: bool, max: nat): nat {
    if up then if x < max then x + 1 else max
    else if x > 0 then x - 1 else 0
  }

  // ---- hashing ---------------------------------------------------------------------------

  function TagBits(ip: Bits, history: Bits, comp: nat): (r: Bits)
    requires 1 <= comp <= TABLES && |ip| == DIGITS && |history| == HISTORY_BITS
    ensures |r| == TagWidth(comp)
  {
    var w, n := TagWidth(comp), HistoryLength(comp);
    XorWord(ip[..w], XorWord(Fold(history, n, w), [false] + Fold(history, n, w - 1)))
  }

  function TagHash(ip: Bits, history: Bits, comp: nat): nat
    requires 1 <= comp <= TABLES && |ip| == DIGITS && |history| == HISTORY_BITS
  {
    ToNat(TagBits(ip, history, comp))
  }

  function IndexOf(ip: Bits, history: Bits, path: Bits, comp: nat): (r: nat)
    requires 1 <= comp <= TABLES && |ip| == DIGITS && |history| == HISTORY_BITS && |path| == PATH_BITS
    ensures r < ENTRIES
  {
    var r := XorWord(XorWord(XorWord(ip[..INDEX_BITS], ip[INDEX_BITS..2 * INDEX_BITS]),
                             Fold(history, HistoryLength(comp), INDEX_BITS)), path[..INDEX_BITS]);
    ToNatRange(r);
    TableSizes();
    ToNat(r)
  }

  lemma TableSizes()
    ensures Pow2(INDEX_BITS) == ENTRIES && Pow2(BIMODAL_BITS) == BIMODAL_ENTRIES
  {
    assert Pow2(4) == 16;
    assert Pow2(8) == 256;
    assert Pow2(12) == 4096;
  }

  function BimodalIndex(ip: Bits): (r: nat)
    requires |ip| == DIGITS
    ensures r < BIMODAL_ENTRIES
  {
    ToNatRange(ip[..BIMODAL_BITS]);
    TableSizes();
    ToNat(ip[..BIMODAL_BITS])
  }

  // ---- prediction ------------------------------------------------------------------------

  function IndexIn(s: State, ip: Bits, comp: nat): (r: nat)
    requires 1 <= comp <= TABLES && |ip| == DIGITS && |s.history| == HISTORY_BITS && |s.path| == PATH_BITS
    ensures r < ENTRIES
  {
    IndexOf(ip, s.history, s.path, comp)
  }

  /** The entry that component `comp` offers for the branch. */
  function EntryFor(s: State, ip: Bits, comp: nat): TageEntry
    requires ValidState(s) && 1 <= comp <= TABLES && |ip| == DIGITS
  {
    s.tables[comp - 1][IndexIn(s, ip, comp)]
  }

  predicate Matches(s: State, ip: Bits, comp: nat)
    requires ValidState(s) && 1 <= comp <= TABLES && |ip| == DIGITS
  {
    EntryFor(s, ip, comp).tag == TagHash(ip, s.history, comp)
  }

  /** The longest matching component among the first `n`. */
  function Longest(s: State, ip: Bits, n: nat): (c: int)
    requires ValidState(s) && n <= TABLES && |ip| == DIGITS
    ensures c == -1 || (1 <= c <= n && Matches(s, ip, c))
    ensures forall i :: 1 <= i <= n && i > c ==> !Matches(s, ip, i)
  {
    if n == 0 then -1 else if Matches(s, ip, n) then n else Longest(s, ip, n - 1)
  }

  ghost function Provider(s: State, ip: Bits): int
    requires ValidState(s) && |ip| == DIGITS
  {
    Longest(s, ip, TABLES)
  }

  ghost function Alternate(s: State, ip: Bits): int
    requires ValidState(s) && |ip| == DIGITS
  {
    if Provider(s, ip) == -1 then -1 else Longest(s, ip, Provider(s, ip) - 1)
  }

  predicate BimodalTaken(counter: nat) {
    counter > 1
  }

  /** The direction that component `comp` predicts; the bimodal table stands in for none. */
  ghost function Direction(s: State, ip: Bits, comp: int): bool
    requires ValidState(s) && |ip| == DIGITS && -1 <= comp <= TABLES && comp != 0
  {
    if comp == -1 then BimodalTaken(s.bimodal[BimodalIndex(ip)]) else EntryFor(s, ip, comp).Taken()
  }

  /** The provider decides, unless its entry looks new and the alternate has done better. */
  ghost function Ultimate(s: State, ip: Bits): bool
    requires ValidState(s) && |ip| == DIGITS
  {
    var p := Provider(s, ip);
    if p != -1 && EntryFor(s, ip, p).LooksNew() && s.useAlt > 7 then Direction(s, ip, Alternate(s, ip)) else Direction(s, ip, p)
  }

  /** The lookup's record agrees with the tables. */
  ghost predicate Describes(info: BranchInfo, s: State, ip: Bits)
    requires ValidState(s) && |ip| == DIGITS
  {
    && info.provider == Provider(s, ip) && info.alt == Alternate(s, ip)
    && (info.provider != -1 ==> info.providerIndex == IndexIn(s, ip, info.provider))
    && (info.alt != -1 ==> info.altIndex == IndexIn(s, ip, info.alt))
    && (info.provider != -1 ==> info.providerPred == Direction(s, ip, info.provider))
    && (info.alt != -1 ==> info.altPred == Direction(s, ip, info.alt))
    && info.bimodal == s.bimodal[BimodalIndex(ip)]
    && info.ultimate == Ultimate(s, ip)
  }

  // ---- learning --------------------------------------------------------------------------

  /** The tables with the entry of component `comp` at `i` replaced. */
  function Put(t: Tables, comp: nat, i: nat, e: TageEntry): (t': Tables)
    requires Shaped(t) && 1 <= comp <= TABLES && i < ENTRIES
    ensures Shaped(t')
  {
    t[comp - 1 := t[comp - 1][i := e]]
  }

  function Trained(e: TageEntry, taken: bool): TageEntry {
    e.(pred := Nudge(e.pred, taken, MAX_PRED))
  }

  function Judged(e: TageEntry, good: bool): TageEntry {
    e.(useful := Nudge(e.useful, good, MAX_USEFUL))
  }

  /** Counters after the outcome: the provider's, the alternate's while the provider is not yet
      useful, and the provider's usefulness when it made a difference. */
  ghost function TrainTables(s: State, ip: Bits, taken: bool): (t: Tables)
    requires ValidState(s) && |ip| == DIGITS
    ensures Shaped(t)
  {
    var p, a := Provider(s, ip), Alternate(s, ip);
    if p == -1 then s.tables
    else
      var e := EntryFor(s, ip, p);
      var trained := Trained(e, taken);
      var judged := if Ultimate(s, ip) != Direction(s, ip, a) then Judged(trained, Ultimate(s, ip) == taken) else trained;
      var t := Put(s.tables, p, IndexIn(s, ip, p), judged);
      if e.useful == 0 && a != -1 then Put(t, a, IndexIn(s, ip, a), Trained(EntryFor(s, ip, a), taken)) else t
  }

  ghost function TrainBimodal(s: State, ip: Bits, taken: bool): (b: seq<nat>)
    requires ValidState(s) && |ip| == DIGITS
    ensures |b| == BIMODAL_ENTRIES
  {
    var i := BimodalIndex(ip);
    if Provider(s, ip) == -1 then s.bimodal[i := Nudge(s.bimodal[i], taken, 3)] else s.bimodal
  }

  ghost function TrainUseAlt(s: State, ip: Bits, taken: bool): nat
    requires ValidState(s) && |ip| == DIGITS
  {
    var p := Provider(s, ip);
    var alt := Direction(s, ip, Alternate(s, ip));
    if p != -1 && EntryFor(s, ip, p).LooksNew() && Direction(s, ip, p) != alt
    then Nudge(s.useAlt, alt == taken, MAX_USE_ALT) else s.useAlt
  }

  /** Where the search for a free entry starts: past the provider, and one or two further on
      with odds a half and a quarter. */
  function FirstCandidate(provider: int, draw: nat): (c: nat)
    requires -1 <= provider < TABLES && provider != 0
    ensures provider < c && 1 <= c <= TABLES + 1
  {
    var r := draw % Pow2(TABLES - provider);
    DrawBits(TABLES - provider, draw);
    var next := if provider == -1 then 1 else provider + 1;
    if r % 2 == 1 then if r / 2 % 2 == 1 then next + 2 else next + 1 else next
  }

  /** The longest component but one can skip at most one. */
  lemma DrawBits(n: nat, draw: nat)
    requires n >= 1
    ensures n == 1 ==> draw % Pow2(n) / 2 % 2 == 0
  {
  }

  /** The first component from `c` on whose entry is not useful, or the number past the last. */
  ghost function FirstFree(s: State, ip: Bits, t: Tables, c: nat): (r: nat)
    requires ValidState(s) && Shaped(t) && |ip| == DIGITS && 1 <= c <= TABLES + 1
    ensures c <= r <= TABLES + 1
    ensures r <= TABLES ==> t[r - 1][IndexIn(s, ip, r)].useful == 0
    ensures forall i :: c <= i < r ==> t[i - 1][IndexIn(s, ip, i)].useful != 0
    decreases TABLES + 1 - c
  {
    if c == TABLES + 1 || t[c - 1][IndexIn(s, ip, c)].useful == 0 then c else FirstFree(s, ip, t, c + 1)
  }

  /** Every candidate from `c` on becomes less useful, up to component `n`. */
  ghost function WearDown(s: State, ip: Bits, t: Tables, c: nat, n: nat): (t': Tables)
    requires ValidState(s) && Shaped(t) && |ip| == DIGITS && 1 <= c && n <= TABLES
    ensures Shaped(t')
  {
    if n < c then t
    else
      var t1 := WearDown(s, ip, t, c, n - 1);
      Put(t1, n, IndexIn(s, ip, n), Judged(t1[n - 1][IndexIn(s, ip, n)], false))
  }

  function Fresh(s: State, ip: Bits, comp: nat, taken: bool): TageEntry
    requires ValidState(s) && 1 <= comp <= TABLES && |ip| == DIGITS
  {
    TageEntry(if taken then WEAKLY_TAKEN else WEAKLY_NOT_TAKEN, TagHash(ip, s.history, comp), 0)
  }

  ghost predicate Mispredicted(s: State, ip: Bits, taken: bool)
    requires ValidState(s) && |ip| == DIGITS
  {
    Ultimate(s, ip) != taken && Provider(s, ip) < TABLES
  }

  ghost function AllocateTables(s: State, ip: Bits, taken: bool, t: Tables, draw: nat): (t': Tables)
    requires ValidState(s) && Shaped(t) && |ip| == DIGITS
    ensures Shaped(t')
  {
    if !Mispredicted(s, ip, taken) then t
    else
      var c := FirstCandidate(Provider(s, ip), draw);
      var f := FirstFree(s, ip, t, c);
      if f <= TABLES then Put(t, f, IndexIn(s, ip, f), Fresh(s, ip, f, taken)) else WearDown(s, ip, t, c, TABLES)
  }

  function LowBit(u: nat): nat {
    u % 2
  }

  /** The second bit of a two-bit counter. */
  function HighBit(u: nat): nat {
    u / 2 % 2 * 2
  }

  /** Twice per interval one bit of every usefulness counter is kept and the other cleared. */
  ghost predicate Swept(t: Tables, t': Tables, branches: nat)
    requires Shaped(t)
  {
    && Shaped(t')
    && forall c, i :: 0 <= c < TABLES && 0 <= i < ENTRIES ==>
      t'[c][i] == if branches == RESET_INTERVAL / 2 then t[c][i].(useful := LowBit(t[c][i].useful))
                  else if branches == RESET_INTERVAL then t[c][i].(useful := HighBit(t[c][i].useful)) else t[c][i]
  }

  /** The tables before the periodic sweep. */
  ghost function Learned(s: State, ip: Bits, taken: bool, draw: nat): (t: Tables)
    requires ValidState(s) && |ip| == DIGITS
    ensures Shaped(t)
  {
    AllocateTables(s, ip, taken, TrainTables(s, ip, taken), draw)
  }

  /** One outcome is learned under the history that predicted it; then the history moves on. */
  ghost predicate Learns(s: State, s': State, ip: Bits, taken: bool, draw: nat)
    requires ValidState(s) && |ip| == DIGITS
  {
    && Swept(Learned(s, ip, taken, draw), s'.tables, s.branches + 1)
    && s'.bimodal == TrainBimodal(s, ip, taken)
    && s'.useAlt == TrainUseAlt(s, ip, taken)
    && s'.branches == (if s.branches + 1 == RESET_INTERVAL then 0 else s.branches + 1)
    && s'.path == Pushed(s.path, ip[0])
    && s'.history == Pushed(s.history, taken)
  }

  // ---- what the predictor promises -------------------------------------------------------

  /** The provider is the longest matching component and the alternate the next one. */
  lemma TwoLongest(s: State, ip: Bits, comp: nat)
    requires ValidState(s) && |ip| == DIGITS && 1 <= comp <= TABLES && Matches(s, ip, comp)
    ensures comp <= Provider(s, ip) && Matches(s, ip, Provider(s, ip))
    ensures comp == Provider(s, ip) || (comp <= Alternate(s, ip) < Provider(s, ip) && Matches(s, ip, Alternate(s, ip)))
  {
    hide Matches;
  }

  lemma PutAt(t: Tables, comp: nat, i: nat, e: TageEntry, c: nat, j: nat)
    requires Shaped(t) && 1 <= comp <= TABLES && i < ENTRIES && 1 <= c <= TABLES && j < ENTRIES
    ensures Put(t, comp, i, e)[c - 1][j] == if c == comp && j == i then e else t[c - 1][j]
  {
  }

  /** Training touches only the provider's and the alternate's entry, and no tag. */
  lemma TrainAt(s: State, ip: Bits, taken: bool, c: nat, j: nat)
    requires ValidState(s) && |ip| == DIGITS && 1 <= c <= TABLES && j < ENTRIES
    ensures TrainTables(s, ip, taken)[c - 1][j].tag == s.tables[c - 1][j].tag
    ensures j != IndexIn(s, ip, c) || c > Provider(s, ip) ==> TrainTables(s, ip, taken)[c - 1][j] == s.tables[c - 1][j]
  {
    hide Longest, IndexOf, Direction, Ultimate;
    var p, a := Provider(s, ip), Alternate(s, ip);
    if p != -1 {
      var e := EntryFor(s, ip, p);
      var judged := if Ultimate(s, ip) != Direction(s, ip, a) then Judged(Trained(e, taken), Ultimate(s, ip) == taken) else Trained(e, taken);
      var i := IndexIn(s, ip, p);
      PutAt(s.tables, p, i, judged, c, j);
      if a != -1 {
        PutAt(Put(s.tables, p, i, judged), a, IndexIn(s, ip, a), Trained(EntryFor(s, ip, a), taken), c, j);
      }
      hide Put, EntryFor;
    }
  }

  lemma {:induction false} WearDownAt(s: State, ip: Bits, t: Tables, c: nat, n: nat, comp: nat, j: nat)
    requires ValidState(s) && Shaped(t) && |ip| == DIGITS && 1 <= c && n <= TABLES && 1 <= comp <= TABLES && j < ENTRIES
    ensures WearDown(s, ip, t, c, n)[comp - 1][j] ==
      if c <= comp <= n && j == IndexIn(s, ip, comp) then Judged(t[comp - 1][j], false) else t[comp - 1][j]
  {
    hide IndexOf;
    if n >= c {
      WearDownAt(s, ip, t, c, n - 1, comp, j);
      if comp == n {
        WearDownAt(s, ip, t, c, n - 1, n, IndexIn(s, ip, n));
      }
      var t1 := WearDown(s, ip, t, c, n - 1);
      PutAt(t1, n, IndexIn(s, ip, n), Judged(t1[n - 1][IndexIn(s, ip, n)], false), comp, j);
      hide Put;
    }
  }

  /** Allocation touches only the branch's own entries, in components past the provider. */
  lemma AllocateAt(s: State, ip: Bits, taken: bool, t: Tables, draw: nat, c: nat, j: nat)
    requires ValidState(s) && Shaped(t) && |ip| == DIGITS && 1 <= c <= TABLES && j < ENTRIES
    ensures j != IndexIn(s, ip, c) || c <= Provider(s, ip) ==> AllocateTables(s, ip, taken, t, draw)[c - 1][j] == t[c - 1][j]
  {
    if Mispredicted(s, ip, taken) {
      var first := FirstCandidate(Provider(s, ip), draw);
      var f := FirstFree(s, ip, t, first);
      hide FirstFree, FirstCandidate, Mispredicted, IndexOf, Longest, TagHash;
      if f <= TABLES {
        PutAt(t, f, IndexIn(s, ip, f), Fresh(s, ip, f, taken), c, j);
      } else {
        WearDownAt(s, ip, t, first, TABLES, c, j);
      }
      hide Put, WearDown;
    }
  }

  lemma SweptAt(t: Tables, t': Tables, branches: nat, c: nat, i: nat)
    requires Shaped(t) && Swept(t, t', branches) && c < TABLES && i < ENTRIES
    ensures Shaped(t') && t'[c][i].pred == t[c][i].pred && t'[c][i].tag == t[c][i].tag
    ensures branches != RESET_INTERVAL / 2 && branches != RESET_INTERVAL ==> t'[c][i] == t[c][i]
  {
  }

  /** Learning one branch changes each tagged table only where that branch is hashed to, apart
      from the periodic sweep of the usefulness counters. */
  lemma LearningIsLocal(s: State, s': State, ip: Bits, taken: bool, draw: nat, c: nat, j: nat)
    requires ValidState(s) && |ip| == DIGITS && Learns(s, s', ip, taken, draw)
    requires 1 <= c <= TABLES && j < ENTRIES && j != IndexIn(s, ip, c)
    ensures Shaped(s'.tables) && s'.tables[c - 1][j].pred == s.tables[c - 1][j].pred && s'.tables[c - 1][j].tag == s.tables[c - 1][j].tag
    ensures s.branches + 1 != RESET_INTERVAL / 2 && s.branches + 1 != RESET_INTERVAL ==> s'.tables[c - 1][j] == s.tables[c - 1][j]
  {
    hide Swept, TrainTables, AllocateTables, IndexIn;
    TrainAt(s, ip, taken, c, j);
    AllocateAt(s, ip, taken, TrainTables(s, ip, taken), draw, c, j);
    SweptAt(Learned(s, ip, taken, draw), s'.tables, s.branches + 1, c - 1, j);
  }

  /** Component `f` offers a free entry: the first one from the candidate on. */
  ghost predicate Allocates(s: State, ip: Bits, taken: bool, draw: nat, f: nat)
    requires ValidState(s) && |ip| == DIGITS
  {
    && Mispredicted(s, ip, taken) && FirstCandidate(Provider(s, ip), draw) <= f <= TABLES
    && EntryFor(s, ip, f).useful == 0
    && forall i :: FirstCandidate(Provider(s, ip), draw) <= i < f ==> EntryFor(s, ip, i).useful != 0
  }

  lemma AllocatedTables(s: State, ip: Bits, taken: bool, draw: nat, f: nat)
    requires ValidState(s) && |ip| == DIGITS && Allocates(s, ip, taken, draw, f)
    ensures Provider(s, ip) < f && 1 <= f
    ensures Learned(s, ip, taken, draw) == Put(TrainTables(s, ip, taken), f, IndexIn(s, ip, f), Fresh(s, ip, f, taken))
  {
    hide TrainTables, IndexOf, Longest, Mispredicted, TagHash, FirstCandidate;
    var t, first := TrainTables(s, ip, taken), FirstCandidate(Provider(s, ip), draw);
    forall i | first <= i <= f ensures t[i - 1][IndexIn(s, ip, i)] == EntryFor(s, ip, i) {
      TrainAt(s, ip, taken, i, IndexIn(s, ip, i));
    }
    assert FirstFree(s, ip, t, first) == f;
  }

  /** The branch's entries in components from `f` on, after `f` was allocated. */
  lemma AfterAllocation(s: State, s': State, ip: Bits, taken: bool, draw: nat, f: nat, c: nat)
    requires ValidState(s) && |ip| == DIGITS && Learns(s, s', ip, taken, draw) && Allocates(s, ip, taken, draw, f) && f <= c <= TABLES
    ensures Shaped(s'.tables)
    ensures c != f ==> s'.tables[c - 1][IndexIn(s, ip, c)].tag == EntryFor(s, ip, c).tag
    ensures c == f ==> s'.tables[f - 1][IndexIn(s, ip, f)].tag == TagHash(ip, s.history, f)
    ensures c == f ==> s'.tables[f - 1][IndexIn(s, ip, f)].Taken() == taken
  {
    hide IndexOf, TrainTables, TagBits, Fold, Allocates, Swept;
    AllocatedTables(s, ip, taken, draw, f);
    TrainAt(s, ip, taken, c, IndexIn(s, ip, c));
    PutAt(TrainTables(s, ip, taken), f, IndexIn(s, ip, f), Fresh(s, ip, f, taken), c, IndexIn(s, ip, c));
    hide Put, Learned;
    SweptAt(Learned(s, ip, taken, draw), s'.tables, s.branches + 1, c - 1, IndexIn(s, ip, c));
  }

  /** A mispredicted branch that finds a free entry gets it in a component longer than its
      provider, and under the same history that component now provides its prediction, which
      agrees with the outcome. */
  lemma AllocationTakesOver(s: State, s': State, ip: Bits, taken: bool, draw: nat, f: nat)
    requires ValidState(s) && |ip| == DIGITS && Learns(s, s', ip, taken, draw) && Allocates(s, ip, taken, draw, f)
    ensures Provider(s, ip) < f
    ensures var again := s'.(history := s.history, path := s.path);
      ValidState(again) && Provider(again, ip) == f && Direction(again, ip, f) == taken
  {
    var again := s'.(history := s.history, path := s.path);
    AllocatedTables(s, ip, taken, draw, f);
    hide TrainTables, Learned, IndexOf, TagBits, Allocates, Swept, TrainUseAlt, Fold, Put;
    AfterAllocation(s, s', ip, taken, draw, f, f);
    forall c | f < c <= TABLES ensures again.tables[c - 1][IndexIn(s, ip, c)].tag == EntryFor(s, ip, c).tag {
      AfterAllocation(s, s', ip, taken, draw, f, c);
    }
    LongestIs(s, again, ip, f);
  }

  lemma LongestIs(s: State, again: State, ip: Bits, f: nat)
    requires ValidState(s) && ValidState(again) && |ip| == DIGITS && 1 <= f <= TABLES && Provider(s, ip) < f
    requires again.history == s.history && again.path == s.path
    requires forall c :: f <= c <= TABLES ==>
      again.tables[c - 1][IndexIn(s, ip, c)].tag == if c == f then TagHash(ip, s.history, f) else EntryFor(s, ip, c).tag
    ensures Provider(again, ip) == f
  {
    hide IndexOf, TagHash;
    forall c | f < c <= TABLES ensures !Matches(again, ip, c) {
      assert !Matches(s, ip, c) && IndexIn(again, ip, c) == IndexIn(s, ip, c);
    }
    assert again.tables[f - 1][IndexIn(s, ip, f)].tag == TagHash(ip, s.history, f);
    assert IndexIn(again, ip, f) == IndexIn(s, ip, f);
    assert Matches(again, ip, f);
    var r := Longest(again, ip, TABLES);
    assert r >= f;
  }

  // ---- usefulness decays -----------------------------------------------------------------

  datatype Outcome = Outcome(ip: Bits, taken: bool, draw: nat)

  /** A run of the predictor: `ss` are the states between the outcomes. */
  ghost predicate Runs(ss: seq<State>, es: seq<Outcome>) {
    && |ss| == |es| + 1 && (forall k :: 0 <= k < |ss| ==> ValidState(ss[k])) && (forall k :: 0 <= k < |es| ==> |es[k].ip| == DIGITS)
    && forall k :: 0 <= k < |es| ==> Learns(ss[k], ss[k + 1], es[k].ip, es[k].taken, es[k].draw)
  }

  /** Outcome `k` does not make the entry more useful. */
  ghost predicate NotRaised(s: State, e: Outcome, c: nat, i: nat)
    requires ValidState(s) && |e.ip| == DIGITS && c < TABLES && i < ENTRIES
  {
    Learned(s, e.ip, e.taken, e.draw)[c][i].useful <= s.tables[c][i].useful
  }

  lemma {:induction false} StaysLow(ss: seq<State>, es: seq<Outcome>, c: nat, i: nat, n: nat)
    requires Runs(ss, es) && n <= |es| && n < RESET_INTERVAL / 2 && c < TABLES && i < ENTRIES
    requires ss[0].branches == RESET_INTERVAL / 2 && ss[0].tables[c][i].useful <= 1
    requires forall k :: 0 <= k < n ==> NotRaised(ss[k], es[k], c, i)
    ensures ss[n].branches == RESET_INTERVAL / 2 + n && ss[n].tables[c][i].useful <= 1
  {
    hide Learned, TrainBimodal, TrainUseAlt;
    if n > 0 {
      StaysLow(ss, es, c, i, n - 1);
      assert Learns(ss[n - 1], ss[n], es[n - 1].ip, es[n - 1].taken, es[n - 1].draw);
      assert NotRaised(ss[n - 1], es[n - 1], c, i);
      SweptAt(Learned(ss[n - 1], es[n - 1].ip, es[n - 1].taken, es[n - 1].draw), ss[n].tables, ss[n - 1].branches + 1, c, i);
    }
  }

  /** From one half-interval sweep to the next: an entry that no outcome makes more useful ends
      up not useful at all. */
  lemma UsefulnessDecays(before: State, ss: seq<State>, es: seq<Outcome>, first: Outcome, c: nat, i: nat)
    requires ValidState(before) && |first.ip| == DIGITS && c < TABLES && i < ENTRIES && before.branches + 1 == RESET_INTERVAL / 2
    requires Runs(ss, es) && |es| == RESET_INTERVAL / 2 && Learns(before, ss[0], first.ip, first.taken, first.draw)
    requires forall k :: 0 <= k < |es| ==> NotRaised(ss[k], es[k], c, i)
    ensures ss[|es|].tables[c][i].useful == 0
  {
    hide Learned, TrainBimodal, TrainUseAlt;
    assert ss[0].tables[c][i].useful <= 1;
    var n := |es| - 1;
    StaysLow(ss, es, c, i, n);
    assert NotRaised(ss[n], es[n], c, i);
    assert Learns(ss[n], ss[n + 1], es[n].ip, es[n].taken, es[n].draw);
    var t: Tables := Learned(ss[n], es[n].ip, es[n].taken, es[n].draw);
    var e: TageEntry := t[c][i];
    assert ss[n + 1].tables[c][i] == e.(useful := HighBit(e.useful));
  }
}
