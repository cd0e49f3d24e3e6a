/** The TAGE predictor as the class that the simulator steps. */
module TageUnit {
  import opened Grids
  import opened BitStrings
  import opened FoldedHistory
  import opened TagePrediction

  class Tage {
    const table: array2<TageEntry>
    const bimodalTable: array<nat>
    var info: BranchInfo
    var branches: nat
    var path: Bits
    var history: Bits
    var useAlt: nat

    ghost function TablesView(): (t: Tables)
      requires table.Length0 == TABLES && table.Length1 == ENTRIES
      reads table
      ensures Shaped(t)
    {
      Rows(table)
    }

    ghost predicate Valid()
      reads this, table, bimodalTable
    {
      && table.Length0 == TABLES && table.Length1 == ENTRIES && bimodalTable.Length == BIMODAL_ENTRIES
      && |path| == PATH_BITS && |history| == HISTORY_BITS && branches < RESET_INTERVAL
    }

    ghost function View(): (s: State)
      requires Valid()
      reads this, table, bimodalTable
      ensures ValidState(s)
    {
      State(TablesView(), bimodalTable[..], branches, path, history, useAlt)
    }

    constructor ()
      ensures Valid() && fresh(table) && fresh(bimodalTable)
      ensures forall c, i :: 0 <= c < TABLES && 0 <= i < ENTRIES ==> View().tables[c][i] == TageEntry(0, 0, 0)
      ensures forall i :: 0 <= i < BIMODAL_ENTRIES ==> View().bimodal[i] == 2
      ensures branches == 0 && useAlt == 0 && path == seq(PATH_BITS, _ => false) && history == seq(HISTORY_BITS, _ => false)
    {
      table := new TageEntry[TABLES, ENTRIES]((c, i) => TageEntry(0, 0, 0));
      bimodalTable := new nat[BIMODAL_ENTRIES](_ => 2);
      info := BranchInfo(-1, 0, true, -1, 0, true, true, 2);
      branches, useAlt := 0, 0;
      path, history := seq(PATH_BITS, _ => false), seq(HISTORY_BITS, _ => false);
    }

    // ---- hashing ---------------------------------------------------------------------------

    method IndexHash(ip: Bits, comp: nat) returns (index: nat)
      requires Valid() && |ip| == DIGITS && 1 <= comp <= TABLES
      ensures index == IndexOf(ip, history, path, comp) < ENTRIES
    {
      var hash := GhistHash(history, HistoryLength(comp), INDEX_BITS);
      index := ToNat(XorWord(XorWord(XorWord(ip[..INDEX_BITS], ip[INDEX_BITS..2 * INDEX_BITS]), hash), path[..INDEX_BITS]));
    }

    method TagHashOf(ip: Bits, comp: nat) returns (tag: nat)
      requires Valid() && |ip| == DIGITS && 1 <= comp <= TABLES
      ensures tag == TagHash(ip, history, comp)
    {
      var w := TagWidth(comp);
      var hash := GhistHash(history, HistoryLength(comp), w);
      var shifted := GhistHash(history, HistoryLength(comp), w - 1);
      tag := ToNat(XorWord(ip[..w], XorWord(hash, [false] + shifted)));
    }

    // ---- prediction ------------------------------------------------------------------------

    /** Finds the two longest matching components and lets one of them predict. */
    method PredictBranch(ip: Bits) returns (taken: bool)
      requires Valid() && |ip| == DIGITS
      modifies this`info
      ensures Valid() && Describes(info, View(), ip) && taken == Ultimate(View(), ip)
    {
      hide IndexOf, TagHash, BimodalIndex;
      ghost var s := View();
      var base := bimodalTable[BimodalIndex(ip)];
      var provider, alt, pi, ai := FindComponents(ip);
      hide Longest;
      if provider == -1 {
        info := BranchInfo(-1, 0, true, -1, 0, true, BimodalTaken(base), base);
        return BimodalTaken(base);
      }
      var entry := table[provider - 1, pi];
      assert entry == EntryFor(s, ip, provider);
      var altPred := true;
      if alt != -1 {
        altPred := table[alt - 1, ai].Taken();
        assert table[alt - 1, ai] == EntryFor(s, ip, alt);
      }
      taken := entry.Taken();
      if entry.LooksNew() && useAlt > 7 {
        taken := if alt == -1 then BimodalTaken(base) else altPred;
      }
      info := BranchInfo(provider, pi, entry.Taken(), alt, ai, altPred, taken, base);
    }

    method FindComponents(ip: Bits) returns (provider: int, alt: int, pi: nat, ai: nat)
      requires Valid() && |ip| == DIGITS
      ensures provider == Provider(View(), ip) && alt == Alternate(View(), ip)
      ensures pi < ENTRIES && (provider != -1 ==> pi == IndexIn(View(), ip, provider))
      ensures ai < ENTRIES && (alt != -1 ==> ai == IndexIn(View(), ip, alt))
    {
      hide IndexOf, TagHash;
      ghost var s := View();
      provider, alt, pi, ai := -1, -1, 0, 0;
      for comp := 1 to TABLES + 1
        invariant provider == Longest(s, ip, comp - 1) && s == View()
        invariant alt == if provider == -1 then -1 else Longest(s, ip, provider - 1)
        invariant pi < ENTRIES && (provider != -1 ==> pi == IndexIn(s, ip, provider))
        invariant ai < ENTRIES && (alt != -1 ==> ai == IndexIn(s, ip, alt))
      {
        var index := IndexHash(ip, comp);
        var tag := TagHashOf(ip, comp);
        assert table[comp - 1, index] == EntryFor(s, ip, comp);
        if table[comp - 1, index].tag == tag {
          if provider != -1 {
            alt, ai := provider, pi;
          }
          provider, pi := comp, index;
        }
      }
    }

    // ---- learning --------------------------------------------------------------------------

    /** Learns the outcome of the branch that was looked up last; `draw` is the random number
        that places a new entry. */
    method LastBranchResult(ip: Bits, taken: bool, draw: nat)
      requires Valid() && |ip| == DIGITS && Describes(info, View(), ip)
      modifies this`branches, this`path, this`history, this`useAlt, table, bimodalTable
      ensures Valid() && Learns(old(View()), View(), ip, taken, draw)
    {
      hide Describes, TrainTables, AllocateTables, TrainBimodal, TrainUseAlt, Pushed, Swept;
      ghost var s := View();
      UpdateUseAlt(s, ip, taken);
      Train(s, ip, taken);
      Allocate(s, ip, taken, draw);
      branches := branches + 1;
      Sweep();
      if branches == RESET_INTERVAL {
        branches := 0;
      }
      path := Pushed(path, ip[0]);
      history := Pushed(history, taken);
    }

    ghost predicate Unchanged(s: State, t: Tables)
      reads this, table, bimodalTable
    {
      Valid() && ValidState(s) && TablesView() == t && branches == s.branches && path == s.path && history == s.history
    }

    method UpdateUseAlt(ghost s: State, ip: Bits, taken: bool)
      requires Valid() && |ip| == DIGITS && View() == s && Describes(info, s, ip)
      modifies this`useAlt
      ensures useAlt == TrainUseAlt(s, ip, taken)
    {
      hide IndexOf, Longest, BimodalIndex;
      if info.provider != -1 {
        var e := table[info.provider - 1, info.providerIndex];
        assert e == EntryFor(s, ip, info.provider);
        var altPred := if info.alt == -1 then BimodalTaken(info.bimodal) else info.altPred;
        if e.LooksNew() && info.providerPred != altPred {
          useAlt := Nudge(useAlt, altPred == taken, MAX_USE_ALT);
        }
      }
    }

    method SetEntry(comp: nat, i: nat, e: TageEntry)
      requires Valid() && 1 <= comp <= TABLES && i < ENTRIES
      modifies table
      ensures Valid() && TablesView() == Put(old(TablesView()), comp, i, e)
    {
      table[comp - 1, i] := e;
      OnePlace(old(TablesView()), TablesView(), comp - 1, i, e);
    }

    /** The counters of the provider, its alternate and the bimodal table. */
    method Train(ghost s: State, ip: Bits, taken: bool)
      requires Unchanged(s, s.tables) && |ip| == DIGITS && bimodalTable[..] == s.bimodal && Describes(info, s, ip)
      modifies table, bimodalTable
      ensures Unchanged(s, TrainTables(s, ip, taken)) && bimodalTable[..] == TrainBimodal(s, ip, taken)
    {
      hide IndexOf, Longest, BimodalIndex, Put;
      if info.provider == -1 {
        var i := BimodalIndex(ip);
        bimodalTable[i] := Nudge(bimodalTable[i], taken, 3);
        return;
      }
      var p, pi := info.provider, info.providerIndex;
      var e := table[p - 1, pi];
      assert e == EntryFor(s, ip, p);
      var altPred := if info.alt == -1 then BimodalTaken(info.bimodal) else info.altPred;
      assert altPred == Direction(s, ip, info.alt);
      var e' := Trained(e, taken);
      if info.ultimate != altPred {
        e' := Judged(e', info.ultimate == taken);
      }
      SetEntry(p, pi, e');
      if e.useful == 0 && info.alt != -1 {
        var a := table[info.alt - 1, info.altIndex];
        PutAt(s.tables, p, pi, e', info.alt, info.altIndex);
        assert a == EntryFor(s, ip, info.alt);
        SetEntry(info.alt, info.altIndex, Trained(a, taken));
      }
    }

    /** On a misprediction takes a free entry in a longer component, or wears the candidates
        down. */
    method Allocate(ghost s: State, ip: Bits, taken: bool, draw: nat)
      requires |ip| == DIGITS && ValidState(s) && Unchanged(s, TrainTables(s, ip, taken)) && Describes(info, s, ip)
      modifies table
      ensures Unchanged(s, Learned(s, ip, taken, draw))
    {
      hide TrainTables, Longest, Put, TagHash;
      ghost var t := TablesView();
      if info.ultimate != taken && info.provider < TABLES {
        var first := FirstCandidate(info.provider, draw);
        hide IndexOf;
        for comp := first to TABLES + 1
          invariant Unchanged(s, t) && FirstFree(s, ip, t, first) == FirstFree(s, ip, t, comp)
        {
          var index := IndexHash(ip, comp);
          if table[comp - 1, index].useful == 0 {
            var tag := TagHashOf(ip, comp);
            SetEntry(comp, index, TageEntry(if taken then WEAKLY_TAKEN else WEAKLY_NOT_TAKEN, tag, 0));
            return;
          }
        }
        WearCandidates(s, ip, t, first);
      }
    }

    method WearCandidates(ghost s: State, ip: Bits, ghost t: Tables, first: nat)
      requires |ip| == DIGITS && ValidState(s) && Unchanged(s, t) && 1 <= first <= TABLES + 1
      modifies table
      ensures Unchanged(s, WearDown(s, ip, t, first, TABLES))
    {
      hide IndexOf, Put;
      for comp := first to TABLES + 1
        invariant Unchanged(s, WearDown(s, ip, t, first, comp - 1))
      {
        var index := IndexHash(ip, comp);
        SetEntry(comp, index, Judged(table[comp - 1, index], false));
      }
    }

    /** The periodic sweep of the usefulness counters. */
    method Sweep()
      requires table.Length0 == TABLES && table.Length1 == ENTRIES
      modifies table
      ensures Swept(old(TablesView()), TablesView(), branches)
    {
      if branches == RESET_INTERVAL / 2 || branches == RESET_INTERVAL {
        ghost var t := TablesView();
        var low := branches == RESET_INTERVAL / 2;
        for c := 0 to TABLES
          invariant forall d, i :: 0 <= d < TABLES && 0 <= i < ENTRIES ==> table[d, i] == if d < c then SweptEntry(t[d][i], low) else t[d][i]
        {
          for j := 0 to ENTRIES
            invariant forall d, i :: 0 <= d < TABLES && 0 <= i < ENTRIES ==>
              table[d, i] == if d < c || (d == c && i < j) then SweptEntry(t[d][i], low) else t[d][i]
          {
            var e := table[c, j];
            table[c, j] := SweptEntry(e, low);
          }
        }
        forall d, i | 0 <= d < TABLES && 0 <= i < ENTRIES ensures TablesView()[d][i] == SweptEntry(t[d][i], low) {
          assert TablesView()[d][i] == table[d, i];
        }
      }
    }
  }

  function SweptEntry(e: TageEntry, low: bool): TageEntry {
    e.(useful := if low then LowBit(e.useful) else HighBit(e.useful))
  }
}
