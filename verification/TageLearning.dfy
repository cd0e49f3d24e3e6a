/** What TAGE learns: how counters move with an outcome, and what a run of outcomes teaches. */
module TageLearning {
  import opened BitStrings
  import opened FoldedHistory
  import opened TagePrediction

  /** `y` is one step from `x` towards the outcome, between 0 and `max`. */
  ghost predicate Follows(x: nat, y: nat, up: bool, max: nat) {
    && (up && x < max ==> y == x + 1)
    && (up && x >= max ==> y == max)
    && (!up && x > 0 ==> y == x - 1)
    && (!up && x == 0 ==> y == 0)
  }

  /** After training, before allocation and sweep. */
  lemma TrainedProvider(s: State, ip: Bits, taken: bool)
    requires ValidState(s) && |ip| == DIGITS && Provider(s, ip) != -1
    ensures var p := Provider(s, ip);
      var e, e' := EntryFor(s, ip, p), TrainTables(s, ip, taken)[p - 1][IndexIn(s, ip, p)];
      && Follows(e.pred, e'.pred, taken, 7) && e'.tag == e.tag
      && (Ultimate(s, ip) == Direction(s, ip, Alternate(s, ip)) ==> e'.useful == e.useful)
      && (Ultimate(s, ip) != Direction(s, ip, Alternate(s, ip)) ==> Follows(e.useful, e'.useful, Ultimate(s, ip) == taken, 3))
  {
    hide Longest, IndexOf, Direction, Ultimate;
    var p, a := Provider(s, ip), Alternate(s, ip);
    var e := EntryFor(s, ip, p);
    var judged := if Ultimate(s, ip) != Direction(s, ip, a) then Judged(Trained(e, taken), Ultimate(s, ip) == taken) else Trained(e, taken);
    var i := IndexIn(s, ip, p);
    PutAt(s.tables, p, i, judged, p, i);
    if a != -1 {
      PutAt(Put(s.tables, p, i, judged), a, IndexIn(s, ip, a), Trained(EntryFor(s, ip, a), taken), p, i);
    }
    hide Put, EntryFor;
  }

  lemma TrainedAlternate(s: State, ip: Bits, taken: bool)
    requires ValidState(s) && |ip| == DIGITS && Alternate(s, ip) != -1
    ensures var p, a := Provider(s, ip), Alternate(s, ip);
      var e, e' := EntryFor(s, ip, a), TrainTables(s, ip, taken)[a - 1][IndexIn(s, ip, a)];
      && e'.tag == e.tag && e'.useful == e.useful
      && (EntryFor(s, ip, p).useful == 0 ==> Follows(e.pred, e'.pred, taken, 7))
      && (EntryFor(s, ip, p).useful != 0 ==> e'.pred == e.pred)
  {
    hide Longest, IndexOf, Direction, Ultimate;
    var p, a := Provider(s, ip), Alternate(s, ip);
    var e := EntryFor(s, ip, p);
    var judged := if Ultimate(s, ip) != Direction(s, ip, a) then Judged(Trained(e, taken), Ultimate(s, ip) == taken) else Trained(e, taken);
    var i, j := IndexIn(s, ip, p), IndexIn(s, ip, a);
    PutAt(s.tables, p, i, judged, a, j);
    PutAt(Put(s.tables, p, i, judged), a, j, Trained(EntryFor(s, ip, a), taken), a, j);
    hide Put, EntryFor;
  }

  /** The provider's counter moves one step towards the outcome; its usefulness moves when its
      prediction and the alternate's differ, up if the branch was predicted right. */
  lemma ProviderLearns(s: State, s': State, ip: Bits, taken: bool, draw: nat)
    requires ValidState(s) && |ip| == DIGITS && Learns(s, s', ip, taken, draw) && Provider(s, ip) != -1
    ensures Shaped(s'.tables)
    ensures var p := Provider(s, ip);
      var e, e' := EntryFor(s, ip, p), s'.tables[p - 1][IndexIn(s, ip, p)];
      && Follows(e.pred, e'.pred, taken, 7) && e'.tag == e.tag
      && (s.branches + 1 != RESET_INTERVAL / 2 && s.branches + 1 != RESET_INTERVAL ==>
            && (Ultimate(s, ip) == Direction(s, ip, Alternate(s, ip)) ==> e'.useful == e.useful)
            && (Ultimate(s, ip) != Direction(s, ip, Alternate(s, ip)) ==> Follows(e.useful, e'.useful, Ultimate(s, ip) == taken, 3)))
  {
    hide TrainTables, AllocateTables, Swept, IndexOf, Ultimate, Direction, Longest, Follows, EntryFor;
    var p := Provider(s, ip);
    TrainedProvider(s, ip, taken);
    AllocateAt(s, ip, taken, TrainTables(s, ip, taken), draw, p, IndexIn(s, ip, p));
    SweptAt(Learned(s, ip, taken, draw), s'.tables, s.branches + 1, p - 1, IndexIn(s, ip, p));
  }

  /** The alternate's counter moves too while the provider is not useful, and only then. */
  lemma AlternateLearns(s: State, s': State, ip: Bits, taken: bool, draw: nat)
    requires ValidState(s) && |ip| == DIGITS && Learns(s, s', ip, taken, draw) && Alternate(s, ip) != -1
    ensures Shaped(s'.tables)
    ensures var p, a := Provider(s, ip), Alternate(s, ip);
      var e, e' := EntryFor(s, ip, a), s'.tables[a - 1][IndexIn(s, ip, a)];
      && e'.tag == e.tag
      && (EntryFor(s, ip, p).useful == 0 ==> Follows(e.pred, e'.pred, taken, 7))
      && (EntryFor(s, ip, p).useful != 0 ==> e'.pred == e.pred)
  {
    hide TrainTables, AllocateTables, Swept, IndexOf, Ultimate, Direction, Longest, Follows, EntryFor;
    var a := Alternate(s, ip);
    TrainedAlternate(s, ip, taken);
    AllocateAt(s, ip, taken, TrainTables(s, ip, taken), draw, a, IndexIn(s, ip, a));
    SweptAt(Learned(s, ip, taken, draw), s'.tables, s.branches + 1, a - 1, IndexIn(s, ip, a));
  }

  /** The bimodal counter of the branch moves exactly when no component matches; the register
      that prefers alternates moves exactly when a provider that looks new and its alternate
      disagree, up if the alternate was right. */
  lemma BaseLearns(s: State, s': State, ip: Bits, taken: bool, draw: nat)
    requires ValidState(s) && |ip| == DIGITS && Learns(s, s', ip, taken, draw)
    ensures |s'.bimodal| == BIMODAL_ENTRIES
    ensures Provider(s, ip) == -1 ==> Follows(s.bimodal[BimodalIndex(ip)], s'.bimodal[BimodalIndex(ip)], taken, 3)
    ensures forall i :: 0 <= i < BIMODAL_ENTRIES && (Provider(s, ip) != -1 || i != BimodalIndex(ip)) ==> s'.bimodal[i] == s.bimodal[i]
    ensures var p := Provider(s, ip);
      var alt := Direction(s, ip, Alternate(s, ip));
      if p != -1 && (EntryFor(s, ip, p).pred == 3 || EntryFor(s, ip, p).pred == 4) && EntryFor(s, ip, p).useful == 0
         && Direction(s, ip, p) != alt
      then Follows(s.useAlt, s'.useAlt, alt == taken, 15) else s'.useAlt == s.useAlt
  {
    hide Learned, Swept, BimodalIndex, Longest, IndexOf;
  }

  /** A provider that has been trained, or has proved useful, decides; one that looks new gives
      way to its alternate if alternates have done better. */
  lemma ProviderDecides(s: State, ip: Bits)
    requires ValidState(s) && |ip| == DIGITS && Provider(s, ip) != -1
    ensures var e := EntryFor(s, ip, Provider(s, ip));
      && (e.pred < 3 || e.pred > 4 || e.useful > 0 || s.useAlt <= 7 ==> Ultimate(s, ip) == (e.pred >= 4))
      && ((e.pred == 3 || e.pred == 4) && e.useful == 0 && s.useAlt > 7 ==> Ultimate(s, ip) == Direction(s, ip, Alternate(s, ip)))
  {
    hide Longest, IndexOf, BimodalIndex;
  }

  // ---- what runs teach ---------------------------------------------------------------------

  /** In this outcome, component `p` provides the prediction from entry `i`. */
  ghost predicate LearnsHere(s: State, e: Outcome, p: nat, i: nat)
    requires ValidState(s) && |e.ip| == DIGITS
  {
    1 <= p <= TABLES && Provider(s, e.ip) == p && IndexIn(s, e.ip, p) == i
  }

  ghost predicate Leaves(s: State, s': State, p: nat, i: nat)
    requires ValidState(s) && ValidState(s') && 1 <= p <= TABLES && i < ENTRIES
  {
    s'.tables[p - 1][i].pred == s.tables[p - 1][i].pred
  }

  /** How many of the first `n` outcomes entry `i` of component `p` provided the prediction for. */
  ghost function Lessons(ss: seq<State>, es: seq<Outcome>, p: nat, i: nat, n: nat): nat
    requires Runs(ss, es) && n <= |es|
  {
    if n == 0 then 0
    else
      assert ValidState(ss[n - 1]) && |es[n - 1].ip| == DIGITS;
      Lessons(ss, es, p, i, n - 1) + if LearnsHere(ss[n - 1], es[n - 1], p, i) then 1 else 0
  }

  /** Throughout the run the entry provides only for branches that end in `taken`, and is
      otherwise left alone. */
  ghost predicate OneSided(ss: seq<State>, es: seq<Outcome>, p: nat, i: nat, taken: bool)
    requires Runs(ss, es) && 1 <= p <= TABLES && i < ENTRIES
  {
    forall k :: 0 <= k < |es| ==> Teaches(ss[k], ss[k + 1], es[k], p, i, taken)
  }

  ghost predicate Teaches(s: State, s': State, e: Outcome, p: nat, i: nat, taken: bool) {
    && ValidState(s) && ValidState(s') && |e.ip| == DIGITS && 1 <= p <= TABLES && i < ENTRIES
    && if LearnsHere(s, e, p, i) then e.taken == taken else Leaves(s, s', p, i)
  }

  lemma {:induction false} CounterMoves(ss: seq<State>, es: seq<Outcome>, p: nat, i: nat, taken: bool, n: nat)
    requires Runs(ss, es) && n <= |es| && 1 <= p <= TABLES && i < ENTRIES && OneSided(ss, es, p, i, taken)
    requires ss[0].tables[p - 1][i].pred <= 7
    ensures ss[n].tables[p - 1][i].pred <= 7
    ensures taken ==> ss[n].tables[p - 1][i].pred >= 7 || ss[n].tables[p - 1][i].pred >= ss[0].tables[p - 1][i].pred + Lessons(ss, es, p, i, n)
    ensures !taken ==>
      ss[n].tables[p - 1][i].pred == 0 || ss[n].tables[p - 1][i].pred + Lessons(ss, es, p, i, n) <= ss[0].tables[p - 1][i].pred
  {
    hide Learns, IndexOf, Longest;
    if n > 0 {
      CounterMoves(ss, es, p, i, taken, n - 1);
      var s, s', e := ss[n - 1], ss[n], es[n - 1];
      assert Learns(s, s', e.ip, e.taken, e.draw) && Teaches(s, s', e, p, i, taken);
      if LearnsHere(s, e, p, i) {
        ProviderLearns(s, s', e.ip, e.taken, e.draw);
      }
    }
  }

  /** Four lessons with the same outcome suffice, whatever the counter was and whatever happens
      in between: the entry then predicts that outcome. */
  lemma FourLessons(ss: seq<State>, es: seq<Outcome>, p: nat, i: nat, taken: bool, ip: Bits)
    requires Runs(ss, es) && 1 <= p <= TABLES && i < ENTRIES && OneSided(ss, es, p, i, taken)
    requires ss[0].tables[p - 1][i].pred <= 7 && Lessons(ss, es, p, i, |es|) >= 4
    requires ValidState(ss[|es|]) && |ip| == DIGITS && Provider(ss[|es|], ip) == p && IndexIn(ss[|es|], ip, p) == i
    ensures Direction(ss[|es|], ip, p) == taken
  {
    hide IndexOf, Longest;
    CounterMoves(ss, es, p, i, taken, |es|);
  }

  /** Two outcomes of a branch that matches no component teach the bimodal table. */
  lemma TwoLessons(s: State, s': State, s'': State, ip: Bits, taken: bool, draw: nat, draw': nat)
    requires ValidState(s) && ValidState(s') && ValidState(s'') && |ip| == DIGITS && s.bimodal[BimodalIndex(ip)] <= 3
    requires Learns(s, s', ip, taken, draw) && Learns(s', s'', ip, taken, draw')
    requires Provider(s, ip) == -1 && Provider(s', ip) == -1 && Provider(s'', ip) == -1
    ensures Ultimate(s'', ip) == taken
  {
    hide Learned, Swept, BimodalIndex, Longest, IndexOf;
    BaseLearns(s, s', ip, taken, draw);
    BaseLearns(s', s'', ip, taken, draw');
  }

  /** The search for a free entry starts with the next longer component for half of the draws,
      the one after it for a quarter, and one further for the last quarter; with the longest but
      one providing, half of the draws find nothing. */
  lemma SearchStart(provider: int, draw: nat)
    requires -1 <= provider < TABLES && provider != 0
    ensures var next := if provider == -1 then 1 else provider + 1;
      && (draw % 4 in {0, 2} <==> FirstCandidate(provider, draw) == next)
      && (provider < TABLES - 1 ==> (draw % 4 == 1 <==> FirstCandidate(provider, draw) == next + 1))
      && (provider < TABLES - 1 ==> (draw % 4 == 3 <==> FirstCandidate(provider, draw) == next + 2))
      && (provider == TABLES - 1 ==> (draw % 4 in {1, 3} <==> FirstCandidate(provider, draw) == TABLES + 1))
  {
    hide FirstCandidate;
    CandidateIs(provider, draw);
    assert draw % 4 == draw % 2 + 2 * (draw / 2 % 2);
  }

  lemma CandidateIs(provider: int, draw: nat)
    requires -1 <= provider < TABLES && provider != 0
    ensures FirstCandidate(provider, draw) == (if provider == -1 then 1 else provider + 1)
      + if draw % 2 == 0 then 0 else if provider < TABLES - 1 && draw / 2 % 2 == 1 then 2 else 1
  {
    hide Pow2;
    LowBits(TABLES - provider, draw);
  }

  /** The last two binary digits of a draw do not depend on how many are kept. */
  lemma LowBits(n: nat, draw: nat)
    requires n >= 1
    ensures draw % Pow2(n) % 2 == draw % 2 && draw % Pow2(n) / 2 % 2 == if n == 1 then 0 else draw / 2 % 2
  {
    hide Pow2;
    if n == 1 {
      assert Pow2(1) == 2 by { TwoMore(0); }
    } else {
      TwoMore(n - 2);
      SameDigits(draw, Pow2(n), Pow2(n - 2));
    }
  }

  lemma TwoMore(n: nat)
    ensures Pow2(1) == 2 && Pow2(n + 2) == 4 * Pow2(n)
  {
    assert Pow2(n + 1) == 2 * Pow2(n);
  }

  lemma SameDigits(d: nat, m: nat, p: nat)
    requires m == 4 * p && m > 0
    ensures d % m % 2 == d % 2 && d % m / 2 % 2 == d / 2 % 2
  {
    var x, k := FourTimes(d, m, p);
    AddFours(d, x, k);
  }

  lemma FourTimes(d: nat, m: nat, p: nat) returns (x: nat, k: nat)
    requires m == 4 * p && m > 0
    ensures x == d % m && d == 4 * k + x
  {
    var q;
    x, q := Divided(d, m);
    k := Fourfold(m, p, q);
  }

  lemma Divided(d: nat, m: nat) returns (x: nat, q: nat)
    requires m > 0
    ensures x == d % m && d == m * q + x
  {
    x, q := d % m, d / m;
  }

  lemma Fourfold(m: nat, p: nat, q: nat) returns (k: nat)
    requires m == 4 * p
    ensures m * q == 4 * k
  {
    k := p * q;
  }

  lemma AddFours(d: nat, x: nat, k: nat)
    requires d == 4 * k + x
    ensures x % 2 == d % 2 && x / 2 % 2 == d / 2 % 2
  {
    assert d / 2 == 2 * k + x / 2;
  }

  /** The sweeps: at half of the interval the odd usefulness values drop to 1 and the even ones to
      0, at its end those of 2 and 3 drop to 2 and those below to 0; nothing else changes. */
  lemma SweepKeeps(t: Tables, t': Tables, branches: nat, c: nat, i: nat)
    requires Shaped(t) && Swept(t, t', branches) && c < TABLES && i < ENTRIES && t[c][i].useful <= 3
    ensures Shaped(t') && t'[c][i].pred == t[c][i].pred && t'[c][i].tag == t[c][i].tag
    ensures branches == RESET_INTERVAL / 2 ==> t'[c][i].useful == if t[c][i].useful == 1 || t[c][i].useful == 3 then 1 else 0
    ensures branches == RESET_INTERVAL ==> t'[c][i].useful == if t[c][i].useful >= 2 then 2 else 0
    ensures branches != RESET_INTERVAL / 2 && branches != RESET_INTERVAL ==> t'[c][i] == t[c][i]
  {
  }

  /** Counters stay in their range. */
  lemma CountersBounded(s: State, s': State, ip: Bits, taken: bool, draw: nat, c: nat, j: nat)
    requires ValidState(s) && |ip| == DIGITS && Learns(s, s', ip, taken, draw) && 1 <= c <= TABLES && j < ENTRIES
    requires forall d, i :: 0 <= d < TABLES && 0 <= i < ENTRIES ==> s.tables[d][i].pred <= 7
    ensures Shaped(s'.tables) && s'.tables[c - 1][j].pred <= 7
  {
    hide TrainTables, AllocateTables, Swept, IndexOf, Longest;
    BoundedTraining(s, ip, taken, c, j);
    AllocatedCounter(s, ip, taken, TrainTables(s, ip, taken), draw, c, j);
    SweptAt(Learned(s, ip, taken, draw), s'.tables, s.branches + 1, c - 1, j);
  }

  lemma BoundedTraining(s: State, ip: Bits, taken: bool, c: nat, j: nat)
    requires ValidState(s) && |ip| == DIGITS && 1 <= c <= TABLES && j < ENTRIES
    requires forall d, i :: 0 <= d < TABLES && 0 <= i < ENTRIES ==> s.tables[d][i].pred <= 7
    ensures TrainTables(s, ip, taken)[c - 1][j].pred <= 7
  {
    hide Longest, IndexOf, Direction, Ultimate;
    var p, a := Provider(s, ip), Alternate(s, ip);
    if p != -1 {
      var e := EntryFor(s, ip, p);
      var judged := if Ultimate(s, ip) != Direction(s, ip, a) then Judged(Trained(e, taken), Ultimate(s, ip) == taken) else Trained(e, taken);
      var i := IndexIn(s, ip, p);
      PutAt(s.tables, p, i, judged, c, j);
      if a != -1 {
        PutAt(Put(s.tables, p, i, judged), a, IndexIn(s, ip, a), Trained(EntryFor(s, ip, a), taken), c, j);
      }
      hide Put;
    }
  }

  lemma AllocatedCounter(s: State, ip: Bits, taken: bool, t: Tables, draw: nat, c: nat, j: nat)
    requires ValidState(s) && Shaped(t) && |ip| == DIGITS && 1 <= c <= TABLES && j < ENTRIES && t[c - 1][j].pred <= 7
    ensures AllocateTables(s, ip, taken, t, draw)[c - 1][j].pred <= 7
  {
    hide FirstFree, FirstCandidate, IndexOf, Longest, TagHash, Put, WearDown;
    if Mispredicted(s, ip, taken) {
      var first := FirstCandidate(Provider(s, ip), draw);
      var f := FirstFree(s, ip, t, first);
      if f <= TABLES {
        PutAt(t, f, IndexIn(s, ip, f), Fresh(s, ip, f, taken), c, j);
      } else {
        WearDownAt(s, ip, t, first, TABLES, c, j);
      }
    }
  }
}
