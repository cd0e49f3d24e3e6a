/** Virtual memory: maps virtual pages and page-table entries to physical pages on first use. */
module VirtualMemoryUnit {
  import opened Prelude
  import opened PageAllocation

  /** What is left of a virtual page number above the tables below `level`. */
  function Prefix(vpage: nat, entries: nat, level: nat): nat
    requires entries >= 1 && level >= 1
    decreases level
  {
    if level == 1 then vpage else Prefix(vpage / entries, entries, level - 1)
  }

  /** How many pages an entry of a table at `level` covers. */
  function Reach(entries: nat, level: nat): nat
    requires level >= 1
    decreases level
  {
    if level == 1 then 1 else Reach(entries, level - 1) * entries
  }

  lemma Nest(v: nat, entries: nat, p: nat, r: nat)
    requires entries >= 1 && p * r <= v / entries < (p + 1) * r
    ensures p * (r * entries) <= v < (p + 1) * (r * entries)
  {
    var q := v / entries;
    assert q * entries <= v < (q + 1) * entries;
    MulMonotone(p * r, q, entries);
    MulMonotone(q + 1, (p + 1) * r, entries);
    assert p * r * entries == p * (r * entries) && (p + 1) * r * entries == (p + 1) * (r * entries);
  }

  /** An entry covers an aligned block of pages, the block of its number. */
  lemma {:induction false} PrefixBlock(vpage: nat, entries: nat, level: nat)
    requires entries >= 1 && level >= 1
    ensures Prefix(vpage, entries, level) * Reach(entries, level) <= vpage < (Prefix(vpage, entries, level) + 1) * Reach(entries, level)
    decreases level
  {
    if level > 1 {
      PrefixBlock(vpage / entries, entries, level - 1);
      Nest(vpage, entries, Prefix(vpage, entries, level), Reach(entries, level - 1));
    }
  }

  lemma OneBlock(v: nat, r: nat, p: nat, q: nat)
    requires p * r <= v < (p + 1) * r && q * r <= v < (q + 1) * r
    ensures p == q
  {
    if p < q {
      MulMonotone(p + 1, q, r);
    } else if q < p {
      MulMonotone(q + 1, p, r);
    }
  }

  /** Two virtual pages share an entry at a level exactly if they lie in one aligned block. */
  lemma SharedEntry(v: nat, w: nat, entries: nat, level: nat)
    requires entries >= 1 && level >= 1
    ensures Prefix(v, entries, level) == Prefix(w, entries, level) <==>
      exists p: nat :: InBlock(v, p, Reach(entries, level)) && InBlock(w, p, Reach(entries, level))
  {
    PrefixBlock(v, entries, level);
    PrefixBlock(w, entries, level);
    hide Prefix, Reach;
    var r := Reach(entries, level);
    if p: nat :| InBlock(v, p, r) && InBlock(w, p, r) {
      OneBlock(v, r, p, Prefix(v, entries, level));
      OneBlock(w, r, p, Prefix(w, entries, level));
    }
    if Prefix(v, entries, level) == Prefix(w, entries, level) {
      assert InBlock(v, Prefix(v, entries, level), r) && InBlock(w, Prefix(v, entries, level), r);
    }
  }

  /** Page `v` lies in block `p` of `r` pages. */
  ghost predicate InBlock(v: nat, p: nat, r: nat) {
    p * r <= v < (p + 1) * r
  }

  /** The entries that one table of the next level covers are at different offsets. */
  lemma {:induction false} OffsetsApart(v: nat, w: nat, entries: nat, level: nat)
    requires entries >= 1 && level >= 1 && Prefix(v, entries, level + 1) == Prefix(w, entries, level + 1)
    ensures Prefix(v, entries, level) == Prefix(w, entries, level) <==>
      Prefix(v, entries, level) % entries == Prefix(w, entries, level) % entries
    decreases level
  {
    if level > 1 {
      OffsetsApart(v / entries, w / entries, entries, level - 1);
    } else {
      assert v == v / entries * entries + v % entries && w == w / entries * entries + w % entries;
    }
  }

  const ENTRY_SIZE: nat := 8

  class VirtualMemory {
    const firstPage: nat
    const pageCount: nat
    const pageSize: nat
    const entries: nat
    const subs: nat
    const penalty: nat
    const randomized: bool
    var vmap: map<VPage, nat>
    var ptable: map<Entry, Frame>
    var free: seq<nat>
    var active: nat
    var next: nat

    /** History: how many pages were taken from the free list, and how many of them were opened
        for page tables and never used. */
    ghost var popped: nat
    ghost var wasted: nat

    function View(): State
      reads this
    {
      State(vmap, ptable, free, active, next)
    }

    ghost predicate Valid()
      reads this
    {
      && pageCount >= 1 && entries >= 1 && subs * (entries * ENTRY_SIZE) == pageSize
      && PageInv(View(), subs, firstPage, pageCount, popped, wasted)
    }

    constructor (firstPage: nat, pageCount: nat, pageSize: nat, entries: nat, subs: nat, penalty: nat, randomized: bool)
      requires pageCount >= 1 && entries >= 1 && subs >= 1 && subs * (entries * ENTRY_SIZE) == pageSize
      ensures Valid() && popped == 0 && vmap == map[] && ptable == map[] && |free| == pageCount
      ensures forall p :: p in free <==> InRange(p, firstPage, pageCount)
      ensures this.firstPage == firstPage && this.pageCount == pageCount && this.pageSize == pageSize
    {
      this.firstPage, this.pageCount, this.pageSize := firstPage, pageCount, pageSize;
      this.entries, this.subs, this.penalty, this.randomized := entries, subs, penalty, randomized;
      vmap, ptable, free, active, next, popped, wasted := map[], map[], [], 0, 0, 0, 0;
      new;
      PopulatePages();
      ShufflePages();
    }

    /** Fills the free list with every page above the first megabyte. */
    method PopulatePages()
      modifies this`free
      ensures |free| == pageCount && Distinct(free)
      ensures forall p :: p in free <==> InRange(p, firstPage, pageCount)
    {
      free := [];
      var base := firstPage;
      for i := 0 to pageCount
        modifies this`free
        invariant |free| == i && base == firstPage + i
        invariant forall j :: 0 <= j < i ==> free[j] == firstPage + j
      {
        free := free + [base];
        base := base + 1;
      }
      forall p: nat | InRange(p, firstPage, pageCount) ensures p in free {
        assert free[p - firstPage] == p;
      }
    }

    /** Rearranges the free list if the memory is randomized. */
    method ShufflePages()
      modifies this`free
      ensures multiset(free) == multiset(old(free)) && |free| == |old(free)|
      ensures forall p :: p in free <==> p in old(free)
      ensures Distinct(old(free)) ==> Distinct(free)
      ensures !randomized ==> free == old(free)
    {
      if randomized {
        var shuffled: seq<nat> := *;
        if multiset(shuffled) == multiset(free) {
          if Distinct(free) {
            Rearranged(free, shuffled);
          }
          assert |multiset(shuffled)| == |shuffled|;
          assert forall p :: p in shuffled <==> p in multiset(shuffled);
          assert forall p :: p in free <==> p in multiset(free);
          free := shuffled;
        }
      }
    }

    /** Removes the front page. When none is left all pages, used or not, become free. */
    method PpagePop()
      requires free != []
      modifies this`free, this`popped
      ensures PopOf(old(free), free, firstPage, pageCount) && popped == old(popped) + 1
    {
      free := free[1..];
      popped := popped + 1;
      if free == [] {
        PopulatePages();
        ShufflePages();
      }
    }

    /** In every reachable state: no page is shared as long as no more were taken than there are,
        and if one is shared then it is because more are needed than there are or some were
        opened for nothing. Without page tables this is exact. */
    lemma SharesWhenExhausted()
      requires Valid()
      ensures popped == Needed(View()) + wasted
      ensures popped <= pageCount ==> NoSharing(View())
      ensures NoSharing(View()) ==> Needed(View()) <= pageCount
      ensures wasted == 0 ==> (NoSharing(View()) <==> Needed(View()) <= pageCount)
      ensures ptable == map[] ==> (Injective(vmap) <==> |vmap| <= pageCount)
    {
      SharedWhen(View(), subs, firstPage, pageCount, popped, wasted);
    }

    /** As long as no more pages were taken than there are, no byte of a page table is one of
        another page table or of a data page. */
    lemma TablesApart(k: Entry, m: Entry, d: VPage, x: nat, y: nat)
      requires Valid() && popped <= pageCount && k in ptable && x < entries * ENTRY_SIZE
      ensures (m in ptable && y < entries * ENTRY_SIZE
               && BaseOf(ptable[k], pageSize, entries * ENTRY_SIZE) + x == BaseOf(ptable[m], pageSize, entries * ENTRY_SIZE) + y)
        ==> k == m && x == y
      ensures d in vmap && y < pageSize ==> BaseOf(ptable[k], pageSize, entries * ENTRY_SIZE) + x != vmap[d] * pageSize + y
    {
      hide NoSharing, BaseOf, FreeUnused, OpenUnused, PagesInRange;
      NoOverlap(View(), subs, pageSize, entries * ENTRY_SIZE, k, m, d, x, y);
    }

    /** The physical page of a virtual page, allocated on first use. */
    method VaToPa(cpu: nat, vpage: nat) returns (ppage: nat, delay: nat)
      requires Valid()
      modifies this`vmap, this`free, this`popped
      ensures Valid() && VPage(cpu, vpage) in vmap && ppage == vmap[VPage(cpu, vpage)]
      ensures forall k :: k in old(vmap) ==> k in vmap && vmap[k] == old(vmap)[k]
      ensures VPage(cpu, vpage) in old(vmap) ==> View() == old(View()) && delay == 0 && popped == old(popped)
      ensures VPage(cpu, vpage) !in old(vmap) ==>
        && delay == penalty && vmap == old(vmap)[VPage(cpu, vpage) := old(free)[0]]
        && popped == old(popped) + 1 && PopOf(old(free), free, firstPage, pageCount)
    {
      hide PageInv, PopOf;
      ghost var before := View();
      SomeFree(before, subs, firstPage, pageCount, popped, wasted);
      var key := VPage(cpu, vpage);
      var front := free[0];
      var fault := key !in vmap;
      if fault {
        vmap := vmap[key := front];
        PpagePop();
        FaultStep(before, View(), subs, firstPage, pageCount, popped - 1, wasted, key);
      }
      ppage := vmap[key];
      delay := if fault then penalty else 0;
    }

    /** The address of the page-table entry for a virtual page at a level, in a page-table page
        that is allocated on first use. A new physical page is opened whenever the last one is
        used up, even if nothing is allocated then. */
    method GetPtePa(cpu: nat, vpage: nat, level: nat) returns (paddr: nat, delay: nat)
      requires Valid() && level >= 1
      modifies this`ptable, this`free, this`active, this`next, this`popped, this`wasted
      ensures Valid() && EntryOf(cpu, vpage, level) in ptable
      ensures paddr == BaseOf(ptable[EntryOf(cpu, vpage, level)], pageSize, entries * ENTRY_SIZE)
                       + Prefix(vpage, entries, level) % entries * ENTRY_SIZE
      ensures paddr + ENTRY_SIZE <= BaseOf(ptable[EntryOf(cpu, vpage, level)], pageSize, entries * ENTRY_SIZE) + entries * ENTRY_SIZE
      ensures forall k :: k in old(ptable) ==> k in ptable && ptable[k] == old(ptable)[k]
      ensures EntryOf(cpu, vpage, level) in old(ptable) ==> ptable == old(ptable) && next == old(next) && delay == 0
      ensures EntryOf(cpu, vpage, level) !in old(ptable) ==>
        delay == penalty && ptable == old(ptable)[EntryOf(cpu, vpage, level) := Frame(active, old(next))]
      ensures active == if old(next) == 0 then old(free)[0] else old(active)
      ensures if old(next) == 0 then PopOf(old(free), free, firstPage, pageCount) else free == old(free)
      ensures popped == old(popped) + if old(next) == 0 then 1 else 0
      ensures wasted == old(wasted) + if old(next) == 0 && EntryOf(cpu, vpage, level) in old(ptable) then 1 else 0
    {
      hide PageInv, PopOf, Prefix, BaseOf, EntryOf;
      ghost var before := View();
      SomeFree(before, subs, firstPage, pageCount, popped, wasted);
      if next == 0 {
        active := free[0];
        PpagePop();
      }
      var key := EntryOf(cpu, vpage, level);
      var fault := key !in ptable;
      ghost var afterOpen := View();
      if fault {
        ptable := ptable[key := Frame(active, next)];
        next := NextSub(next, subs);
      }
      if before.next == 0 && fault {
        OpenTakeStep(before, afterOpen, subs, firstPage, pageCount, popped - 1, wasted, key);
      } else if before.next == 0 {
        WasteStep(before, afterOpen, subs, firstPage, pageCount, popped - 1, wasted);
        wasted := wasted + 1;
      } else if fault {
        TakeStep(before, subs, firstPage, pageCount, popped, wasted, key);
      }
      var offset := Prefix(vpage, entries, level) % entries;
      EntryInTable(Prefix(vpage, entries, level), entries);
      paddr := BaseOf(ptable[key], pageSize, entries * ENTRY_SIZE) + offset * ENTRY_SIZE;
      delay := if fault then penalty else 0;
    }

    function EntryOf(cpu: nat, vpage: nat, level: nat): Entry
      requires entries >= 1 && level >= 1
    {
      Entry(cpu, level, Prefix(vpage, entries, level))
    }
  }

  lemma SomeFree(s: State, subs: nat, first: nat, count: nat, popped: nat, wasted: nat)
    requires PageInv(s, subs, first, count, popped, wasted)
    ensures s.free != [] && s.next < subs
  {
  }

  /** In a memory of one page, the second page fault is given the page of the first. */
  method SecondFaultShares(firstPage: nat) returns (first: nat, second: nat)
    ensures first == second == firstPage
  {
    var memory := new VirtualMemory(firstPage, 1, 4096, 512, 1, 200, false);
    assert InRange(firstPage, firstPage, 1) && memory.free[0] in memory.free;
    var delay;
    first, delay := memory.VaToPa(0, 0);
    assert InRange(firstPage, firstPage, 1);
    ghost var refilled := memory.free;
    assert firstPage in refilled && refilled[0] in refilled;
    second, delay := memory.VaToPa(0, 1);
  }

  /** The entry's address lies in its own page-table page. */
  lemma EntryInTable(prefix: nat, entries: nat)
    requires entries >= 1
    ensures prefix % entries * ENTRY_SIZE + ENTRY_SIZE <= entries * ENTRY_SIZE
  {
  }
}
