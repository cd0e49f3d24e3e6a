/** Physical pages handed out for data and for page tables, and when they never overlap. */
module PageAllocation {
  import opened Prelude

  /** A page-table page: sub-page `sub` of a physical page. */
  datatype Frame = Frame(page: nat, sub: nat)

  /** A virtual page of a core, and an entry of its page table at some level. */
  datatype VPage = VPage(cpu: nat, page: nat)
  datatype Entry = Entry(cpu: nat, level: nat, prefix: nat)

  /** `free` is the list of free pages; `active` the page that is being divided for page
      tables, from sub-page `next` on, or used up if `next` is 0. */
  datatype State = State(vmap: map<VPage, nat>, ptable: map<Entry, Frame>, free: seq<nat>, active: nat, next: nat)

  ghost predicate Distinct(q: seq<nat>) {
    forall i, j :: 0 <= i < j < |q| ==> q[i] != q[j]
  }

  ghost predicate Injective<K(!new), V>(m: map<K, V>) {
    forall k, l :: k in m && l in m && m[k] == m[l] ==> k == l
  }

  /** No physical page serves two virtual pages, nor a virtual page and a page table, and no two
      entries have the same page-table page. */
  ghost predicate NoSharing(s: State) {
    && Injective(s.vmap) && Injective(s.ptable)
    && forall k, m :: k in s.vmap && m in s.ptable ==> s.vmap[k] != s.ptable[m].page
  }

  /** The open page holds nothing from sub-page `next` on, and no data. */
  ghost predicate OpenUnused(s: State) {
    && (forall k :: k in s.vmap ==> s.vmap[k] != s.active)
    && (forall k :: k in s.ptable && s.ptable[k].page == s.active ==> s.ptable[k].sub < s.next)
  }

  ghost predicate Unshared(s: State, subs: nat) {
    && NoSharing(s) && s.next < subs
    && (forall k :: k in s.ptable ==> s.ptable[k].sub < subs)
    && (s.next != 0 ==> OpenUnused(s))
  }

  ghost predicate FreeUnused(s: State) {
    && Distinct(s.free)
    && (forall k :: k in s.vmap ==> s.vmap[k] !in s.free)
    && (forall k :: k in s.ptable ==> s.ptable[k].page !in s.free)
    && (s.next != 0 ==> s.active !in s.free)
  }

  /** No page serves two purposes, and none that is in use is free. */
  ghost predicate Apart(s: State, subs: nat) {
    Unshared(s, subs) && FreeUnused(s)
  }

  lemma FrontGone(q: seq<nat>)
    requires Distinct(q) && q != []
    ensures Distinct(q[1..]) && q[0] !in q[1..] && forall x :: x in q[1..] ==> x in q
  {
  }

  /** A page fault takes the front page. */
  lemma DataStep(s: State, subs: nat, k: VPage)
    requires Apart(s, subs) && s.free != [] && k !in s.vmap
    ensures Apart(s.(vmap := s.vmap[k := s.free[0]], free := s.free[1..]), subs)
  {
    assert s.free[0] in s.free;
    FrontGone(s.free);
  }

  /** A new page is opened for page tables. */
  lemma OpenStep(s: State, subs: nat)
    requires Apart(s, subs) && s.free != [] && s.next == 0
    ensures var s' := s.(active := s.free[0], free := s.free[1..]);
      Apart(s', subs) && OpenUnused(s') && s'.active !in s'.free
  {
    assert s.free[0] in s.free;
    FrontGone(s.free);
  }

  /** The sub-page counter is as wide as it needs to be, so it wraps. */
  function NextSub(next: nat, subs: nat): (r: nat)
    requires next < subs
    ensures r == if next + 1 == subs then 0 else next + 1
  {
    (next + 1) % subs
  }

  /** The state after entry `k` took the next sub-page of the open page. */
  function TakenState(s: State, subs: nat, k: Entry): State
    requires s.next < subs
  {
    s.(ptable := s.ptable[k := Frame(s.active, s.next)], next := NextSub(s.next, subs))
  }

  /** The next sub-page of the open page is taken. */
  lemma FrameStep(s: State, subs: nat, k: Entry)
    requires Unshared(s, subs) && OpenUnused(s) && k !in s.ptable
    ensures Unshared(TakenState(s, subs, k), subs)
    ensures FreeUnused(s) && s.active !in s.free ==> FreeUnused(TakenState(s, subs, k))
  {
  }

  // ---- until when no page is shared --------------------------------------------------------

  predicate InRange(p: nat, first: nat, count: nat) {
    first <= p < first + count
  }

  /** The entries whose page-table page was the first of its physical page, with that page. */
  function Heads(ptable: map<Entry, Frame>): map<Entry, nat> {
    map k | k in ptable && ptable[k].sub == 0 :: ptable[k].page
  }

  /** The physical pages in use: one for each virtual page, one for each page that was opened
      for page tables. */
  function Needed(s: State): nat {
    |s.vmap| + |Heads(s.ptable)|
  }

  ghost predicate PagesInRange(s: State, first: nat, count: nat) {
    && (forall p :: p in s.free ==> InRange(p, first, count))
    && (forall k :: k in s.vmap ==> InRange(s.vmap[k], first, count))
    && (forall k :: k in s.ptable ==> InRange(s.ptable[k].page, first, count))
    && (s.next != 0 ==> InRange(s.active, first, count))
  }

  /** After `popped` pages were taken, `wasted` of them for nothing: no page in use is free as
      long as some have never been taken, and none is shared until all have been. */
  ghost predicate PageInv(s: State, subs: nat, first: nat, count: nat, popped: nat, wasted: nat) {
    && s.next < subs && s.free != [] && PagesInRange(s, first, count)
    && popped == Needed(s) + wasted
    && (popped < count ==> Apart(s, subs) && |s.free| == count - popped)
    && (popped == count ==> Unshared(s, subs))
    && (s.ptable == map[] ==> s.next == 0 && wasted == 0)
  }

  /** The front page is gone. When none is left all pages, used or not, become free. */
  ghost predicate PopOf(free: seq<nat>, free': seq<nat>, first: nat, count: nat) {
    && free != []
    && if |free| == 1 then |free'| == count && Distinct(free') && forall p :: p in free' <==> InRange(p, first, count)
       else free' == free[1..]
  }

  lemma PopRange(free: seq<nat>, free': seq<nat>, first: nat, count: nat)
    requires PopOf(free, free', first, count) && forall p :: p in free ==> InRange(p, first, count)
    ensures InRange(free[0], first, count) && forall p :: p in free' ==> InRange(p, first, count)
  {
  }

  lemma RangeTaken(s: State, subs: nat, first: nat, count: nat, k: Entry)
    requires PagesInRange(s, first, count) && InRange(s.active, first, count) && s.next < subs
    ensures PagesInRange(TakenState(s, subs, k), first, count)
  {
  }

  lemma HeadsTaken(ptable: map<Entry, Frame>, k: Entry, f: Frame)
    requires k !in ptable
    ensures |Heads(ptable[k := f])| == |Heads(ptable)| + if f.sub == 0 then 1 else 0
  {
    if f.sub == 0 {
      assert Heads(ptable[k := f]) == Heads(ptable)[k := f.page];
    } else {
      assert Heads(ptable[k := f]) == Heads(ptable);
    }
  }

  /** A page fault takes the front page, which may bring all pages back. */
  lemma FaultStep(s: State, s': State, subs: nat, first: nat, count: nat, popped: nat, wasted: nat, k: VPage)
    requires PageInv(s, subs, first, count, popped, wasted) && k !in s.vmap && count >= 1
    requires PopOf(s.free, s'.free, first, count) && s' == s.(vmap := s.vmap[k := s.free[0]], free := s'.free)
    ensures PageInv(s', subs, first, count, popped + 1, wasted)
  {
    PopRange(s.free, s'.free, first, count);
    hide PopOf, FreeUnused, Heads;
    if popped < count {
      DataStep(s, subs, k);
      hide NoSharing, OpenUnused, Apart;
      PoppedState(s, s.(vmap := s.vmap[k := s.free[0]], free := s.free[1..]), s', subs, first, count, popped);
    }
  }

  /** The pages that are apart without the front page are so in whatever state the pop leaves. */
  lemma PoppedState(s: State, s1: State, s': State, subs: nat, first: nat, count: nat, popped: nat)
    requires popped < count && |s.free| == count - popped && PopOf(s.free, s'.free, first, count)
    requires s1.free == s.free[1..] && s' == s1.(free := s'.free) && Apart(s1, subs)
    ensures Unshared(s', subs)
    ensures popped + 1 < count ==> s' == s1 && |s'.free| == count - popped - 1
  {
    assert Injective(s1.vmap) && Injective(s1.ptable);
    hide Distinct, Injective;
  }

  /** A page is opened and not used. */
  lemma WasteStep(s: State, s': State, subs: nat, first: nat, count: nat, popped: nat, wasted: nat)
    requires PageInv(s, subs, first, count, popped, wasted) && s.next == 0 && s.ptable != map[] && count >= 1
    requires PopOf(s.free, s'.free, first, count) && s' == s.(active := s.free[0], free := s'.free)
    ensures PageInv(s', subs, first, count, popped + 1, wasted + 1)
  {
    PopRange(s.free, s'.free, first, count);
    hide PopOf, FreeUnused, Heads;
    if popped < count {
      OpenStep(s, subs);
      hide NoSharing, OpenUnused, Apart;
      PoppedState(s, s.(active := s.free[0], free := s.free[1..]), s', subs, first, count, popped);
    }
  }

  /** A page is opened and its first sub-page taken. */
  lemma OpenTakeStep(s: State, s1: State, subs: nat, first: nat, count: nat, popped: nat, wasted: nat, k: Entry)
    requires PageInv(s, subs, first, count, popped, wasted) && s.next == 0 && k !in s.ptable && count >= 1
    requires PopOf(s.free, s1.free, first, count) && s1 == s.(active := s.free[0], free := s1.free)
    ensures PageInv(TakenState(s1, subs, k), subs, first, count, popped + 1, wasted)
  {
    PopRange(s.free, s1.free, first, count);
    HeadsTaken(s.ptable, k, Frame(s1.active, 0));
    RangeTaken(s1, subs, first, count, k);
    hide PopOf, Heads, PagesInRange;
    if popped < count {
      OpenStep(s, subs);
      hide FreeUnused, NoSharing, InRange;
      PoppedState(s, s.(active := s.free[0], free := s.free[1..]), s1, subs, first, count, popped);
      FrameStep(s1, subs, k);
      hide OpenUnused, Unshared;
    }
  }

  /** The next sub-page of a page that is open is taken. */
  lemma TakeStep(s: State, subs: nat, first: nat, count: nat, popped: nat, wasted: nat, k: Entry)
    requires PageInv(s, subs, first, count, popped, wasted) && s.next != 0 && k !in s.ptable
    ensures PageInv(TakenState(s, subs, k), subs, first, count, popped, wasted)
  {
    HeadsTaken(s.ptable, k, Frame(s.active, s.next));
    hide Heads, NoSharing;
    if popped <= count {
      FrameStep(s, subs, k);
      hide OpenUnused;
    }
  }

  lemma {:induction false} ValuesOf<K(!new)>(m: map<K, nat>)
    requires Injective(m)
    ensures |m.Values| == |m|
    decreases |m|
  {
    if m != map[] {
      var k :| k in m;
      var rest := m - {k};
      ValuesOf(rest);
      assert m == rest[k := m[k]];
      assert m.Values == rest.Values + {m[k]};
      assert m.Keys == rest.Keys + {k};
    }
  }

  function Range(first: nat, count: nat): (r: set<nat>)
    ensures |r| == count && forall p :: p in r <==> InRange(p, first, count)
  {
    if count == 0 then {} else Range(first, count - 1) + {first + count - 1}
  }

  lemma WithinRange(pages: set<nat>, range: set<nat>)
    requires pages <= range
    ensures |pages| <= |range|
  {
    assert range == pages + (range - pages);
  }

  /** Pages that are not shared are no more than there are. */
  lemma UnsharedFits(s: State, first: nat, count: nat)
    requires NoSharing(s) && PagesInRange(s, first, count)
    ensures Needed(s) <= count
  {
    var heads := Heads(s.ptable);
    forall k, l | k in heads && l in heads && heads[k] == heads[l] ensures k == l {
      assert s.ptable[k] == s.ptable[l];
    }
    ValuesOf(s.vmap);
    ValuesOf(heads);
    assert s.vmap.Values !! heads.Values;
    WithinRange(s.vmap.Values + heads.Values, Range(first, count));
  }

  /** Nothing is shared as long as no more pages were taken than there are, and only while no
      more are needed than there are. */
  lemma SharedWhen(s: State, subs: nat, first: nat, count: nat, popped: nat, wasted: nat)
    requires PageInv(s, subs, first, count, popped, wasted)
    ensures popped <= count ==> NoSharing(s)
    ensures NoSharing(s) ==> Needed(s) <= count
    ensures wasted == 0 ==> (NoSharing(s) <==> Needed(s) <= count)
    ensures s.ptable == map[] ==> (Injective(s.vmap) <==> |s.vmap| <= count)
  {
    assert s.ptable == map[] ==> Heads(s.ptable) == map[];
    assert s.ptable == map[] ==> (NoSharing(s) <==> Injective(s.vmap));
    hide Injective;
    if NoSharing(s) {
      UnsharedFits(s, first, count);
    }
  }

  // ---- addresses -------------------------------------------------------------------------

  /** The first byte of a page-table page. */
  function BaseOf(f: Frame, pageSize: nat, tableSize: nat): nat {
    f.page * pageSize + f.sub * tableSize
  }

  lemma SubFits(sub: nat, subs: nat, tableSize: nat, pageSize: nat)
    requires sub < subs && subs * tableSize == pageSize
    ensures sub * tableSize + tableSize <= pageSize
  {
    MulMonotone(sub + 1, subs, tableSize);
  }

  /** A page-table page lies inside its physical page. */
  lemma FrameInPage(f: Frame, pageSize: nat, tableSize: nat, subs: nat, offset: nat)
    requires f.sub < subs && subs * tableSize == pageSize && offset < tableSize
    ensures f.page * pageSize <= BaseOf(f, pageSize, tableSize) + offset < f.page * pageSize + pageSize
  {
    SubFits(f.sub, subs, tableSize, pageSize);
  }

  lemma PagesApart(p: nat, q: nat, pageSize: nat, x: nat)
    requires p * pageSize <= x < p * pageSize + pageSize && q * pageSize <= x < q * pageSize + pageSize
    ensures p == q
  {
    if p < q {
      MulMonotone(p + 1, q, pageSize);
    } else if q < p {
      MulMonotone(q + 1, p, pageSize);
    }
  }

  /** Different frames have no byte in common. */
  lemma FramesDisjoint(f: Frame, h: Frame, pageSize: nat, tableSize: nat, subs: nat, x: nat, y: nat)
    requires f.sub < subs && h.sub < subs && subs * tableSize == pageSize && x < tableSize && y < tableSize
    requires BaseOf(f, pageSize, tableSize) + x == BaseOf(h, pageSize, tableSize) + y
    ensures f == h && x == y
  {
    FrameInPage(f, pageSize, tableSize, subs, x);
    FrameInPage(h, pageSize, tableSize, subs, y);
    PagesApart(f.page, h.page, pageSize, BaseOf(f, pageSize, tableSize) + x);
    PagesApart(f.sub, h.sub, tableSize, f.sub * tableSize + x);
  }

  /** While no page is shared, two page-table pages overlap only if they are the same entry's, and none overlaps a data
      page. */
  lemma NoOverlap(s: State, subs: nat, pageSize: nat, tableSize: nat, k: Entry, m: Entry, d: VPage, x: nat, y: nat)
    requires NoSharing(s) && (forall e :: e in s.ptable ==> s.ptable[e].sub < subs)
    requires subs * tableSize == pageSize && k in s.ptable && x < tableSize
    ensures (m in s.ptable && y < tableSize
             && BaseOf(s.ptable[k], pageSize, tableSize) + x == BaseOf(s.ptable[m], pageSize, tableSize) + y) ==> k == m && x == y
    ensures d in s.vmap && y < pageSize ==> BaseOf(s.ptable[k], pageSize, tableSize) + x != s.vmap[d] * pageSize + y
  {
    hide BaseOf;
    if m in s.ptable && y < tableSize && BaseOf(s.ptable[k], pageSize, tableSize) + x == BaseOf(s.ptable[m], pageSize, tableSize) + y {
      FramesDisjoint(s.ptable[k], s.ptable[m], pageSize, tableSize, subs, x, y);
    }
    if d in s.vmap && y < pageSize && BaseOf(s.ptable[k], pageSize, tableSize) + x == s.vmap[d] * pageSize + y {
      FrameInPage(s.ptable[k], pageSize, tableSize, subs, x);
      PagesApart(s.ptable[k].page, s.vmap[d], pageSize, s.vmap[d] * pageSize + y);
    }
  }

  // ---- shuffling -------------------------------------------------------------------------

  lemma {:induction false} CountAtMostOne(q: seq<nat>, x: nat)
    requires Distinct(q)
    ensures multiset(q)[x] <= 1
  {
    if q != [] {
      FrontGone(q);
      CountAtMostOne(q[1..], x);
      assert q == [q[0]] + q[1..];
      if x == q[0] {
        assert x !in multiset(q[1..]);
      }
    }
  }

  /** A rearrangement of distinct pages is distinct. */
  lemma Rearranged(q: seq<nat>, p: seq<nat>)
    requires Distinct(q) && multiset(p) == multiset(q)
    ensures Distinct(p)
  {
    forall i, j | 0 <= i < j < |p| ensures p[i] != p[j] {
      CountAtMostOne(q, p[i]);
      assert p == p[..j] + p[j..];
      assert p[i] == p[..j][i] && p[i] in multiset(p[..j]);
      assert p[j] == p[j..][0] && p[j] in multiset(p[j..]);
      assert multiset(p)[p[i]] == multiset(p[..j])[p[i]] + multiset(p[j..])[p[i]];
    }
  }
}
