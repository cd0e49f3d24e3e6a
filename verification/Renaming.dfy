/** Register renaming over the reorder buffer: what scheduling, execution, completion and
    retirement keep, and what it says about dataflow. */
module Renaming {
  import opened Prelude
  import opened Instruction
  import opened RegisterAllocation

  // ---- program-order specification -------------------------------------------------------

  /** The youngest of the first `k` instructions of `h` that writes `r`. */
  ghost function YoungestWriter(h: seq<Instr>, k: nat, r: int): (w: Option<nat>)
    requires k <= |h|
    ensures w.Some? ==> w.value < k && r in h[w.value].archDst
    ensures forall j :: (if w.Some? then w.value + 1 else 0) <= j < k ==> r !in h[j].archDst
  {
    if k == 0 then None
    else if r in h[k - 1].archDst then Some(k - 1)
    else YoungestWriter(h, k - 1, r)
  }

  /** The identifier the register file records for a value: its producer's, or 0 for a value
      that was live before the trace began. */
  ghost function ProducerId(h: seq<Instr>, k: nat, r: int): nat
    requires k <= |h|
  {
    match YoungestWriter(h, k, r)
    case None => 0
    case Some(j) => h[j].id
  }

  // ---- what the tables mean --------------------------------------------------------------

  ghost function LastAt(names: seq<int>, r: int): (m: nat)
    requires r in names
    ensures m < |names| && names[m] == r
    ensures forall j :: m < j < |names| ==> names[j] != r
  {
    if names[|names| - 1] == r then |names| - 1 else LastAt(names[..|names| - 1], r)
  }

  /** The physical register that holds `r` just before reorder-buffer entry `k`: the youngest
      older in-flight copy, else the committed copy. */
  ghost function Lookup(backend: seq<int>, rob: seq<Instr>, k: nat, r: int): int
    requires k <= |rob|
  {
    if k == 0 then if 0 <= r < |backend| then backend[r] else -1
    else
      var i := rob[k - 1];
      if r in i.archDst && |i.dst| == |i.archDst| then i.dst[LastAt(i.archDst, r)]
      else Lookup(backend, rob, k - 1, r)
  }

  /** Physical registers named by an alias table. */
  ghost function Mapped(rat: seq<int>): multiset<int> {
    if rat == [] then multiset{}
    else (if rat[0] < 0 then multiset{} else multiset{rat[0]}) + Mapped(rat[1..])
  }

  /** Physical registers that are destinations of the first `k` reorder-buffer entries. */
  ghost function InFlight(rob: seq<Instr>, k: nat): multiset<int>
    requires k <= |rob|
  {
    if k == 0 then multiset{} else InFlight(rob, k - 1) + multiset(rob[k - 1].dst)
  }

  /** Each of the `n` physical registers exactly once. */
  ghost function Pool(n: nat): multiset<int> {
    if n == 0 then multiset{} else Pool(n - 1) + multiset{n - 1}
  }

  lemma {:induction false} PoolCounts(n: nat, p: int)
    ensures Pool(n)[p] == if 0 <= p < n then 1 else 0
  {
    if n > 0 {
      PoolCounts(n - 1, p);
    }
  }

  ghost predicate NamesInRange(names: seq<int>) {
    forall m :: 0 <= m < |names| ==> IsArch(names[m])
  }

  ghost predicate Shaped(i: Instr) {
    |i.src| == |i.archSrc| && |i.dst| == |i.archDst| && NamesInRange(i.archSrc) && NamesInRange(i.archDst)
  }

  /** An instruction that still carries its architectural names. */
  ghost predicate Unrenamed(i: Instr) {
    Shaped(i) && !i.scheduled && !i.executed && !i.completed && i.src == i.archSrc && i.dst == i.archDst
  }

  ghost predicate SourcesRenamed(a: Alloc, rob: seq<Instr>, k: nat)
    requires k < |rob| && Shaped(rob[k])
  {
    forall m :: 0 <= m < |rob[k].src| ==>
      0 <= rob[k].src[m] == Lookup(a.backend, rob, k, rob[k].archSrc[m]) < |a.file|
  }

  ghost predicate DestinationsRecorded(a: Alloc, i: Instr)
    requires Shaped(i)
  {
    forall m :: 0 <= m < |i.dst| ==>
      0 <= i.dst[m] < |a.file| && a.file[i.dst[m]] == PhysReg(i.archDst[m], i.id, i.completed, true)
  }

  ghost predicate SourcesValid(a: Alloc, i: Instr) {
    forall m :: 0 <= m < |i.src| ==> 0 <= i.src[m] < |a.file| && a.file[i.src[m]].valid
  }

  ghost predicate Scheduled(a: Alloc, rob: seq<Instr>, k: nat)
    requires k < |rob| && Shaped(rob[k])
  {
    && rob[k].scheduled
    && SourcesRenamed(a, rob, k)
    && DestinationsRecorded(a, rob[k])
    && (rob[k].executed ==> SourcesValid(a, rob[k]))
    && (rob[k].completed ==> rob[k].executed)
  }

  ghost predicate Committed(a: Alloc, retired: seq<Instr>, r: int)
    requires WellFormed(a) && IsArch(r)
  {
    && (a.backend[r] < 0 ==> YoungestWriter(retired, |retired|, r) == None)
    && (a.backend[r] >= 0 ==>
          a.file[a.backend[r]] == PhysReg(r, ProducerId(retired, |retired|, r), true, true))
  }

  /** Every physical register is exactly one of: free, committed, or an in-flight destination. */
  ghost predicate Conserved(a: Alloc, rob: seq<Instr>, n: nat)
    requires n <= |rob|
  {
    multiset(a.free) + Mapped(a.backend) + InFlight(rob, n) == Pool(|a.file|)
  }

  ghost predicate ScheduledPrefix(a: Alloc, rob: seq<Instr>, n: nat)
    requires n <= |rob|
  {
    forall k :: 0 <= k < n ==> Shaped(rob[k]) && Scheduled(a, rob, k)
  }

  ghost predicate UnrenamedTail(rob: seq<Instr>, n: nat) {
    forall k :: n <= k < |rob| ==> Unrenamed(rob[k])
  }

  /** The frontend table is the map seen just after entry `n - 1`. */
  ghost predicate FrontendCurrent(a: Alloc, rob: seq<Instr>, n: nat)
    requires n <= |rob| && WellFormed(a)
  {
    forall r :: 0 <= r < ARCH_REGISTERS ==> a.frontend[r] == Lookup(a.backend, rob, n, r)
  }

  /** The backend table names, for each architectural register, its last retired writer. */
  ghost predicate BackendCommitted(a: Alloc, retired: seq<Instr>)
    requires WellFormed(a)
  {
    forall r :: 0 <= r < ARCH_REGISTERS ==> Committed(a, retired, r)
  }

  /** The renaming invariant: the first `n` entries of the reorder buffer are scheduled. */
  ghost predicate RenameInv(a: Alloc, rob: seq<Instr>, n: nat, retired: seq<Instr>) {
    && n <= |rob|
    && WellFormed(a)
    && ScheduledPrefix(a, rob, n)
    && UnrenamedTail(rob, n)
    && Conserved(a, rob, n)
    && FrontendCurrent(a, rob, n)
    && BackendCommitted(a, retired)
  }

  // ---- ownership -------------------------------------------------------------------------

  lemma {:induction false} MappedHas(rat: seq<int>, r: nat)
    requires r < |rat| && rat[r] >= 0
    ensures rat[r] in Mapped(rat)
  {
    if r > 0 {
      MappedHas(rat[1..], r - 1);
    }
  }

  lemma AddBoth(h: multiset<int>, x: multiset<int>, x': multiset<int>, gone: multiset<int>, come: multiset<int>)
    requires x' + gone == x + come
    ensures (h + x') + gone == (h + x) + come
    ensures (x' + h) + gone == (x + h) + come
  {
    assert (h + x') + gone == h + (x' + gone);
    assert (h + x) + come == h + (x + come);
    assert x' + h == h + x' && x + h == h + x;
  }

  lemma Cancel(x: multiset<int>, y: multiset<int>, common: multiset<int>)
    requires x + common == y + common
    ensures x == y
  {
    assert (x + common) - common == x && (y + common) - common == y;
  }

  lemma {:induction false} MappedUpdate(rat: seq<int>, r: nat, p: int)
    requires r < |rat| && p >= 0
    ensures Mapped(rat[r := p]) + (if rat[r] < 0 then multiset{} else multiset{rat[r]}) == Mapped(rat) + multiset{p}
  {
    if r == 0 {
      assert rat[0 := p][1..] == rat[1..];
    } else {
      MappedUpdate(rat[1..], r - 1, p);
      assert rat[r := p][1..] == rat[1..][r - 1 := p];
      assert rat[r := p][0] == rat[0];
      AddBoth(if rat[0] < 0 then multiset{} else multiset{rat[0]}, Mapped(rat[1..]), Mapped(rat[r := p][1..]),
              if rat[r] < 0 then multiset{} else multiset{rat[r]}, multiset{p});
    }
  }

  lemma {:induction false} InFlightHas(rob: seq<Instr>, n: nat, k: nat)
    requires k < n <= |rob|
    ensures multiset(rob[k].dst) <= InFlight(rob, n)
  {
    if k < n - 1 {
      InFlightHas(rob, n - 1, k);
    }
  }

  lemma {:induction false} InFlightFrame(rob: seq<Instr>, rob': seq<Instr>, n: nat)
    requires n <= |rob| && n <= |rob'|
    requires forall k :: 0 <= k < n ==> rob[k].dst == rob'[k].dst
    ensures InFlight(rob, n) == InFlight(rob', n)
  {
    if n > 0 {
      InFlightFrame(rob, rob', n - 1);
    }
  }

  /** Replacing the destinations of entry `k` changes the in-flight pool by exactly those. */
  lemma {:induction false} InFlightUpdate(rob: seq<Instr>, n: nat, k: nat, i: Instr)
    requires k < n <= |rob|
    ensures InFlight(rob[k := i], n) + multiset(rob[k].dst) == InFlight(rob, n) + multiset(i.dst)
  {
    if k == n - 1 {
      InFlightFrame(rob, rob[k := i], n - 1);
    } else {
      InFlightUpdate(rob, n - 1, k, i);
      AddBoth(multiset(rob[n - 1].dst), InFlight(rob, n - 1), InFlight(rob[k := i], n - 1),
              multiset(rob[k].dst), multiset(i.dst));
    }
  }

  lemma {:induction false} InFlightTail(rob: seq<Instr>, n: nat)
    requires 1 <= n <= |rob|
    ensures InFlight(rob, n) == multiset(rob[0].dst) + InFlight(rob[1..], n - 1)
  {
    if n > 1 {
      InFlightTail(rob, n - 1);
    }
  }

  /** A register that is free is neither committed nor an in-flight destination. */
  lemma FreeIsUnowned(a: Alloc, rob: seq<Instr>, n: nat, p: int)
    requires n <= |rob| && Conserved(a, rob, n) && p in a.free
    ensures p !in Mapped(a.backend) && p !in InFlight(rob, n) && 0 <= p < |a.file|
    ensures multiset(a.free)[p] == 1
  {
    var all := multiset(a.free) + Mapped(a.backend) + InFlight(rob, n);
    assert p in multiset(a.free);
    assert p in all;
    assert all[p] == multiset(a.free)[p] + Mapped(a.backend)[p] + InFlight(rob, n)[p];
    PoolCounts(|a.file|, p);
  }

  // ---- lookups ---------------------------------------------------------------------------

  ghost predicate SameNames(rob: seq<Instr>, rob': seq<Instr>, k: nat) {
    && k <= |rob| && k <= |rob'|
    && forall j :: 0 <= j < k ==> rob[j].dst == rob'[j].dst && rob[j].archDst == rob'[j].archDst
  }

  lemma {:induction false} LookupFrame(b: seq<int>, b': seq<int>, rob: seq<Instr>, rob': seq<Instr>, k: nat, r: int)
    requires 0 <= r < |b| && 0 <= r < |b'| && SameNames(rob, rob', k) && b[r] == b'[r]
    ensures Lookup(b, rob, k, r) == Lookup(b', rob', k, r)
  {
    if k > 0 {
      LookupFrame(b, b', rob, rob', k - 1, r);
    }
  }

  /** A mapped register stays mapped for every younger entry. */
  lemma {:induction false} LookupMonotone(a: Alloc, rob: seq<Instr>, k: nat, n: nat, r: int)
    requires k <= n <= |rob|
    requires forall j :: 0 <= j < n ==> Shaped(rob[j]) && DestinationsRecorded(a, rob[j])
    requires Lookup(a.backend, rob, k, r) >= 0
    ensures Lookup(a.backend, rob, n, r) >= 0
  {
    if k < n {
      LookupMonotone(a, rob, k, n - 1, r);
    }
  }

  /** An unmapped register has no in-flight writer and no committed copy; committing `p` to it
      makes `p` visible to every entry. */
  lemma {:induction false} LookupUnmapped(a: Alloc, rob: seq<Instr>, k: nat, r: int, p: int)
    requires k <= |rob| && 0 <= r < |a.backend|
    requires forall j :: 0 <= j < k ==> Shaped(rob[j]) && DestinationsRecorded(a, rob[j])
    requires Lookup(a.backend, rob, k, r) < 0
    ensures a.backend[r] < 0
    ensures Lookup(a.backend[r := p], rob, k, r) == p
  {
    if k > 0 {
      LookupUnmapped(a, rob, k - 1, r, p);
    }
  }

  /** What a lookup finds is owned: committed or an in-flight destination. */
  lemma {:induction false} LookupOwned(a: Alloc, rob: seq<Instr>, k: nat, r: int)
    requires k <= |rob| && Lookup(a.backend, rob, k, r) >= 0
    ensures Lookup(a.backend, rob, k, r) in Mapped(a.backend) + InFlight(rob, k)
  {
    if k == 0 {
      MappedHas(a.backend, r);
    } else if r in rob[k - 1].archDst && |rob[k - 1].dst| == |rob[k - 1].archDst| {
      var p := rob[k - 1].dst[LastAt(rob[k - 1].archDst, r)];
      assert p in rob[k - 1].dst;
      assert p in multiset(rob[k - 1].dst);
    } else {
      LookupOwned(a, rob, k - 1, r);
    }
  }

  lemma {:induction false} InFlightMonotone(rob: seq<Instr>, k: nat, n: nat)
    requires k <= n <= |rob|
    ensures InFlight(rob, k) <= InFlight(rob, n)
  {
    if k < n {
      InFlightMonotone(rob, k, n - 1);
    }
  }

  /** A register named as a source by a scheduled entry, or mapped for any entry, is not free. */
  lemma LookupNotFree(a: Alloc, rob: seq<Instr>, n: nat, k: nat, r: int)
    requires k <= n <= |rob| && Conserved(a, rob, n)
    requires Lookup(a.backend, rob, k, r) >= 0
    ensures Lookup(a.backend, rob, k, r) !in a.free
  {
    var p := Lookup(a.backend, rob, k, r);
    LookupOwned(a, rob, k, r);
    InFlightMonotone(rob, k, n);
    if p in a.free {
      FreeIsUnowned(a, rob, n, p);
      assert false;
    }
  }

  lemma {:induction false} WriterFrame(h: seq<Instr>, h': seq<Instr>, k: nat, r: int)
    requires k <= |h| && k <= |h'|
    requires forall j :: 0 <= j < k ==> h[j].archDst == h'[j].archDst
    ensures YoungestWriter(h, k, r) == YoungestWriter(h', k, r)
  {
    if k > 0 {
      WriterFrame(h, h', k - 1, r);
    }
  }

  // ---- what each step keeps --------------------------------------------------------------

  /** The file entry of an owned register survives a change to a free one. */
  lemma FreshRegister(a: Alloc, rob: seq<Instr>, n: nat, k: nat)
    requires k < n <= |rob| && Shaped(rob[k]) && Scheduled(a, rob, k) && Conserved(a, rob, n) && a.free != []
    ensures forall m :: 0 <= m < |rob[k].src| ==> rob[k].src[m] != a.free[0]
    ensures forall m :: 0 <= m < |rob[k].dst| ==> rob[k].dst[m] != a.free[0]
  {
    var p := a.free[0];
    FreeIsUnowned(a, rob, n, p);
    forall m | 0 <= m < |rob[k].src| ensures rob[k].src[m] != p {
      LookupNotFree(a, rob, n, k, rob[k].archSrc[m]);
    }
    InFlightHas(rob, n, k);
    forall m | 0 <= m < |rob[k].dst| ensures rob[k].dst[m] != p {
      assert rob[k].dst[m] in multiset(rob[k].dst);
    }
  }

  lemma CommittedNotFree(a: Alloc, rob: seq<Instr>, n: nat, q: int)
    requires n <= |rob| && WellFormed(a) && Conserved(a, rob, n) && IsArch(q) && a.free != []
    ensures a.backend[q] >= 0 ==> a.backend[q] != a.free[0]
  {
    if a.backend[q] >= 0 {
      MappedHas(a.backend, q);
      FreeIsUnowned(a, rob, n, a.free[0]);
    }
  }

  /** A scheduled entry stays so when its file entries, and the tables and older entries its
      sources were looked up in, stay put. */
  lemma ScheduledFrame(a: Alloc, a': Alloc, rob: seq<Instr>, rob': seq<Instr>, k: nat)
    requires k < |rob| && k < |rob'| && Shaped(rob[k]) && Scheduled(a, rob, k)
    requires SameRegisters(rob[k], rob'[k]) && SameNames(rob, rob', k)
    requires |a.file| == |a'.file| && |a.backend| == |a'.backend| == ARCH_REGISTERS
    requires forall m :: 0 <= m < |rob[k].src| ==>
      && a.backend[rob[k].archSrc[m]] == a'.backend[rob[k].archSrc[m]]
      && (a.file[rob[k].src[m]].valid ==> a'.file[rob[k].src[m]].valid)
    requires forall m :: 0 <= m < |rob[k].dst| ==> a.file[rob[k].dst[m]] == a'.file[rob[k].dst[m]]
    ensures Shaped(rob'[k]) && Scheduled(a', rob', k)
  {
    forall m | 0 <= m < |rob'[k].src|
      ensures rob'[k].src[m] == Lookup(a'.backend, rob', k, rob'[k].archSrc[m])
    {
      LookupFrame(a.backend, a'.backend, rob, rob', k, rob'[k].archSrc[m]);
    }
  }

  lemma LiveInUnmapped(a: Alloc, rob: seq<Instr>, n: nat, r: int, p: int)
    requires n <= |rob| && WellFormed(a) && ScheduledPrefix(a, rob, n) && FrontendCurrent(a, rob, n)
    requires IsArch(r) && a.frontend[r] < 0
    ensures a.backend[r] < 0 && Lookup(a.backend[r := p], rob, n, r) == p
    ensures forall k, m :: 0 <= k < n && 0 <= m < |rob[k].src| ==> rob[k].archSrc[m] != r
  {
    forall j | 0 <= j < n ensures Shaped(rob[j]) && DestinationsRecorded(a, rob[j]) {
      assert Scheduled(a, rob, j);
    }
    LookupUnmapped(a, rob, n, r, p);
    forall k, m | 0 <= k < n && 0 <= m < |rob[k].src| ensures rob[k].archSrc[m] != r {
      assert Scheduled(a, rob, k);
      if rob[k].archSrc[m] == r {
        LookupMonotone(a, rob, k, n, r);
      }
    }
  }

  lemma LiveInConserved(a: Alloc, rob: seq<Instr>, n: nat, r: int)
    requires n <= |rob| && WellFormed(a) && Conserved(a, rob, n)
    requires IsArch(r) && a.backend[r] < 0 && a.frontend[r] < 0 && a.free != []
    ensures Conserved(RenameSrc(a, r), rob, n)
  {
    var a' := RenameSrc(a, r);
    MappedUpdate(a.backend, r, a.free[0]);
    assert a.free == [a.free[0]] + a'.free;
    assert Mapped(a'.backend) == Mapped(a.backend) + multiset{a.free[0]};
  }

  lemma LiveInScheduled(a: Alloc, rob: seq<Instr>, n: nat, r: int)
    requires n <= |rob| && WellFormed(a) && ScheduledPrefix(a, rob, n) && Conserved(a, rob, n)
    requires IsArch(r) && a.frontend[r] < 0 && a.free != []
    requires forall k, m :: 0 <= k < n && 0 <= m < |rob[k].src| ==> rob[k].archSrc[m] != r
    ensures ScheduledPrefix(RenameSrc(a, r), rob, n)
  {
    forall k | 0 <= k < n ensures Scheduled(RenameSrc(a, r), rob, k) {
      FreshRegister(a, rob, n, k);
      ScheduledFrame(a, RenameSrc(a, r), rob, rob, k);
    }
  }

  lemma LiveInTables(a: Alloc, rob: seq<Instr>, n: nat, retired: seq<Instr>, r: int)
    requires n <= |rob| && WellFormed(a) && Conserved(a, rob, n) && FrontendCurrent(a, rob, n) && BackendCommitted(a, retired)
    requires IsArch(r) && a.frontend[r] < 0 && a.free != []
    requires a.backend[r] < 0 && Lookup(a.backend[r := a.free[0]], rob, n, r) == a.free[0]
    ensures WellFormed(RenameSrc(a, r))
    ensures FrontendCurrent(RenameSrc(a, r), rob, n) && BackendCommitted(RenameSrc(a, r), retired)
  {
    var a' := RenameSrc(a, r);
    forall q | 0 <= q < ARCH_REGISTERS
      ensures a'.frontend[q] == Lookup(a'.backend, rob, n, q) && Committed(a', retired, q)
    {
      assert Committed(a, retired, q);
      if q != r {
        LookupFrame(a.backend, a'.backend, rob, rob, n, q);
        CommittedNotFree(a, rob, n, q);
      }
    }
  }

  /** Mapping a never-written source keeps the invariant. */
  lemma LiveInStep(a: Alloc, rob: seq<Instr>, n: nat, retired: seq<Instr>, r: int)
    requires RenameInv(a, rob, n, retired) && IsArch(r) && a.frontend[r] < 0 && a.free != []
    ensures RenameInv(RenameSrc(a, r), rob, n, retired)
  {
    LiveInUnmapped(a, rob, n, r, a.free[0]);
    LiveInConserved(a, rob, n, r);
    LiveInScheduled(a, rob, n, r);
    LiveInTables(a, rob, n, retired, r);
  }

  function Renamed(i: Instr, src: seq<int>): Instr {
    i.(src := src, dst := [], archDst := [], scheduled := true)
  }

  function WithDst(i: Instr, arch: int, phys: int): Instr {
    i.(archDst := i.archDst + [arch], dst := i.dst + [phys])
  }

  lemma RenamedScheduled(a: Alloc, rob: seq<Instr>, n: nat, src: seq<int>)
    requires n < |rob| && Unrenamed(rob[n]) && |src| == |rob[n].archSrc| && WellFormed(a)
    requires forall m :: 0 <= m < |src| ==> 0 <= src[m] == a.frontend[rob[n].archSrc[m]]
    requires forall r :: 0 <= r < ARCH_REGISTERS ==> a.frontend[r] == Lookup(a.backend, rob, n, r)
    ensures Shaped(Renamed(rob[n], src)) && Scheduled(a, rob[n := Renamed(rob[n], src)], n)
  {
    var rob' := rob[n := Renamed(rob[n], src)];
    forall m | 0 <= m < |src| ensures src[m] == Lookup(a.backend, rob', n, rob[n].archSrc[m]) {
      LookupFrame(a.backend, a.backend, rob, rob', n, rob[n].archSrc[m]);
    }
  }

  /** Scheduled entries, the in-flight pool and the tables' meaning depend only on the
      register part of the entries. */
  lemma PrefixFrame(a: Alloc, rob: seq<Instr>, rob': seq<Instr>, n: nat)
    requires n <= |rob| && n <= |rob'| && WellFormed(a) && ScheduledPrefix(a, rob, n)
    requires forall k :: 0 <= k < n ==> SameRegisters(rob[k], rob'[k])
    ensures ScheduledPrefix(a, rob', n)
    ensures InFlight(rob, n) == InFlight(rob', n)
    ensures forall q :: 0 <= q < ARCH_REGISTERS ==> Lookup(a.backend, rob, n, q) == Lookup(a.backend, rob', n, q)
  {
    InFlightFrame(rob, rob', n);
    forall k | 0 <= k < n ensures Shaped(rob'[k]) && Scheduled(a, rob', k) {
      ScheduledFrame(a, a, rob, rob', k);
    }
    forall q | 0 <= q < ARCH_REGISTERS ensures Lookup(a.backend, rob, n, q) == Lookup(a.backend, rob', n, q) {
      LookupFrame(a.backend, a.backend, rob, rob', n, q);
    }
  }

  /** Once its sources are renamed, the next entry joins the scheduled ones with no
      destination yet. */
  lemma BeginScheduleStep(a: Alloc, rob: seq<Instr>, n: nat, retired: seq<Instr>, src: seq<int>)
    requires RenameInv(a, rob, n, retired) && n < |rob| && |src| == |rob[n].archSrc|
    requires forall m :: 0 <= m < |src| ==> 0 <= src[m] == a.frontend[rob[n].archSrc[m]]
    ensures RenameInv(a, rob[n := Renamed(rob[n], src)], n + 1, retired)
  {
    var rob' := rob[n := Renamed(rob[n], src)];
    assert Unrenamed(rob[n]);
    RenamedScheduled(a, rob, n, src);
    PrefixFrame(a, rob, rob', n);
  }

  lemma Balance(f: multiset<int>, m: multiset<int>, l: multiset<int>, m': multiset<int>, l': multiset<int>,
                freed: multiset<int>, d: multiset<int>, rest: multiset<int>)
    requires m' + freed == m + d && l' + (d + rest) == l + rest
    ensures (f + freed) + m' + l' == f + m + l
  {
    assert (l' + d) + rest == l' + (d + rest);
    Cancel(l' + d, l, rest);
    assert (f + freed) + m' + l' == f + (m' + freed) + l';
    assert f + (m + d) + l' == f + m + (l' + d);
  }

  lemma Moved(f: multiset<int>, m: multiset<int>, l: multiset<int>, f': multiset<int>, l': multiset<int>,
              p: multiset<int>, rest: multiset<int>)
    requires f == p + f' && l' + rest == l + (rest + p)
    ensures f' + m + l' == f + m + l
  {
    assert l + (rest + p) == (l + p) + rest;
    Cancel(l', l + p, rest);
    assert f' + m + (l + p) == (p + f') + m + l;
  }

  lemma DestinationConserved(a: Alloc, rob: seq<Instr>, n: nat, r: int)
    requires n < |rob| && WellFormed(a) && Conserved(a, rob, n + 1) && IsArch(r) && a.free != []
    ensures Conserved(RenameDst(a, r, rob[n].id), rob[n := WithDst(rob[n], r, a.free[0])], n + 1)
  {
    hide Mapped, InFlight, Pool, WithDst;
    var p := a.free[0];
    var i := WithDst(rob[n], r, p);
    InFlightUpdate(rob, n + 1, n, i);
    FreeFront(a.free);
    AddedName(rob[n], r, p);
    Moved(multiset(a.free), Mapped(a.backend), InFlight(rob, n + 1), multiset(a.free[1..]),
          InFlight(rob[n := i], n + 1), multiset{p}, multiset(rob[n].dst));
  }

  lemma FreeFront(free: seq<int>)
    requires free != []
    ensures multiset(free) == multiset{free[0]} + multiset(free[1..])
  {
    assert free == [free[0]] + free[1..];
  }

  lemma AddedName(i: Instr, r: int, p: int)
    ensures multiset(WithDst(i, r, p).dst) == multiset(i.dst) + multiset{p}
  {
  }

  lemma DestinationLookup(b: seq<int>, rob: seq<Instr>, n: nat, r: int, p: int, q: int)
    requires n < |rob| && Shaped(rob[n]) && 0 <= q < |b|
    ensures Lookup(b, rob[n := WithDst(rob[n], r, p)], n + 1, q) == if q == r then p else Lookup(b, rob, n + 1, q)
  {
    var i := WithDst(rob[n], r, p);
    LookupFrame(b, b, rob, rob[n := i], n, q);
    if q == r {
      assert i.archDst[|i.archDst| - 1] == r && r in i.archDst;
    } else if q in rob[n].archDst {
      var m := LastAt(rob[n].archDst, q);
      assert i.archDst[m] == q;
      assert LastAt(i.archDst, q) == m;
    } else {
      assert q !in i.archDst;
    }
  }

  lemma DestinationRecorded(a: Alloc, i: Instr, r: int)
    requires WellFormed(a) && Shaped(i) && DestinationsRecorded(a, i) && IsArch(r) && a.free != [] && !i.completed
    requires forall m :: 0 <= m < |i.dst| ==> i.dst[m] != a.free[0]
    ensures Shaped(WithDst(i, r, a.free[0])) && DestinationsRecorded(RenameDst(a, r, i.id), WithDst(i, r, a.free[0]))
  {
  }

  lemma SourcesFrame(a: Alloc, a': Alloc, rob: seq<Instr>, rob': seq<Instr>, k: nat)
    requires k < |rob| && k < |rob'| && Shaped(rob[k]) && Shaped(rob'[k]) && SourcesRenamed(a, rob, k)
    requires a.backend == a'.backend && |a.backend| == ARCH_REGISTERS && |a.file| == |a'.file|
    requires rob[k].src == rob'[k].src && rob[k].archSrc == rob'[k].archSrc && SameNames(rob, rob', k)
    ensures SourcesRenamed(a', rob', k)
  {
    forall m | 0 <= m < |rob'[k].src|
      ensures rob'[k].src[m] == Lookup(a'.backend, rob', k, rob'[k].archSrc[m])
    {
      LookupFrame(a.backend, a'.backend, rob, rob', k, rob'[k].archSrc[m]);
    }
  }

  lemma DestinationScheduled(a: Alloc, rob: seq<Instr>, n: nat, r: int)
    requires n < |rob| && WellFormed(a) && Shaped(rob[n]) && Scheduled(a, rob, n) && Conserved(a, rob, n + 1)
    requires IsArch(r) && a.free != [] && !rob[n].completed
    ensures Shaped(WithDst(rob[n], r, a.free[0]))
    ensures Scheduled(RenameDst(a, r, rob[n].id), rob[n := WithDst(rob[n], r, a.free[0])], n)
  {
    FreshRegister(a, rob, n + 1, n);
    hide Conserved, Lookup;
    DestinationRecorded(a, rob[n], r);
    SourcesFrame(a, RenameDst(a, r, rob[n].id), rob, rob[n := WithDst(rob[n], r, a.free[0])], n);
    hide DestinationsRecorded, SourcesRenamed;
  }

  lemma DestinationTables(a: Alloc, rob: seq<Instr>, n: nat, retired: seq<Instr>, r: int)
    requires n < |rob| && WellFormed(a) && Shaped(rob[n]) && Conserved(a, rob, n + 1)
    requires FrontendCurrent(a, rob, n + 1) && BackendCommitted(a, retired) && IsArch(r) && a.free != []
    ensures WellFormed(RenameDst(a, r, rob[n].id)) && BackendCommitted(RenameDst(a, r, rob[n].id), retired)
    ensures FrontendCurrent(RenameDst(a, r, rob[n].id), rob[n := WithDst(rob[n], r, a.free[0])], n + 1)
  {
    var a' := RenameDst(a, r, rob[n].id);
    forall q | 0 <= q < ARCH_REGISTERS
      ensures a'.frontend[q] == Lookup(a'.backend, rob[n := WithDst(rob[n], r, a.free[0])], n + 1, q)
      ensures Committed(a', retired, q)
    {
      DestinationLookup(a.backend, rob, n, r, a.free[0], q);
      assert Committed(a, retired, q);
      CommittedNotFree(a, rob, n + 1, q);
    }
  }

  lemma OlderScheduled(a: Alloc, rob: seq<Instr>, n: nat, r: int, i: Instr)
    requires n < |rob| && WellFormed(a) && ScheduledPrefix(a, rob, n + 1) && Conserved(a, rob, n + 1)
    requires IsArch(r) && a.free != []
    ensures ScheduledPrefix(RenameDst(a, r, rob[n].id), rob[n := i], n)
  {
    hide Conserved, Lookup;
    forall k | 0 <= k < n ensures Shaped(rob[k]) && Scheduled(RenameDst(a, r, rob[n].id), rob[n := i], k) {
      FreshRegister(a, rob, n + 1, k);
      ScheduledFrame(a, RenameDst(a, r, rob[n].id), rob, rob[n := i], k);
    }
  }

  lemma ExtendPrefix(a: Alloc, rob: seq<Instr>, n: nat)
    requires n < |rob| && ScheduledPrefix(a, rob, n) && Shaped(rob[n]) && Scheduled(a, rob, n)
    ensures ScheduledPrefix(a, rob, n + 1)
  {
  }

  /** Each destination of the entry being scheduled takes a free register. */
  lemma DestinationStep(a: Alloc, rob: seq<Instr>, n: nat, retired: seq<Instr>, r: int)
    requires RenameInv(a, rob, n + 1, retired) && IsArch(r) && a.free != [] && !rob[n].completed
    ensures RenameInv(RenameDst(a, r, rob[n].id), rob[n := WithDst(rob[n], r, a.free[0])], n + 1, retired)
  {
    var rob' := rob[n := WithDst(rob[n], r, a.free[0])];
    assert Shaped(rob[n]) && Scheduled(a, rob, n);
    assert UnrenamedTail(rob', n + 1);
    hide ScheduledPrefix, UnrenamedTail, Scheduled, Conserved, FrontendCurrent, BackendCommitted, WellFormed;
    DestinationConserved(a, rob, n, r);
    DestinationScheduled(a, rob, n, r);
    OlderScheduled(a, rob, n, r, rob'[n]);
    ExtendPrefix(RenameDst(a, r, rob[n].id), rob', n);
    DestinationTables(a, rob, n, retired, r);
  }

  ghost predicate SameRegisters(i: Instr, j: Instr) {
    && i.id == j.id && i.src == j.src && i.dst == j.dst && i.archSrc == j.archSrc && i.archDst == j.archDst
    && i.scheduled == j.scheduled && i.executed == j.executed && i.completed == j.completed
  }

  /** The invariant reads only the register part of each entry. */
  lemma RegisterFrame(a: Alloc, rob: seq<Instr>, rob': seq<Instr>, n: nat, retired: seq<Instr>)
    requires RenameInv(a, rob, n, retired) && |rob| == |rob'|
    requires forall k :: 0 <= k < |rob| ==> SameRegisters(rob[k], rob'[k])
    ensures RenameInv(a, rob', n, retired)
  {
    PrefixFrame(a, rob, rob', n);
    forall k | n <= k < |rob'| ensures Unrenamed(rob'[k]) {
      assert Unrenamed(rob[k]);
    }
  }

  /** A dispatched instruction joins the unscheduled tail. */
  lemma DispatchStep(a: Alloc, rob: seq<Instr>, n: nat, retired: seq<Instr>, i: Instr)
    requires RenameInv(a, rob, n, retired) && Unrenamed(i)
    ensures RenameInv(a, rob + [i], n, retired)
  {
    PrefixFrame(a, rob, rob + [i], n);
  }

  lemma ExecutedScheduled(a: Alloc, rob: seq<Instr>, k: nat, i: Instr)
    requires k < |rob| && WellFormed(a) && Shaped(rob[k]) && Scheduled(a, rob, k) && SourcesValid(a, rob[k])
    requires SameRegisters(rob[k].(executed := true), i)
    ensures Shaped(i) && Scheduled(a, rob[k := i], k)
  {
    forall m | 0 <= m < |i.src| ensures i.src[m] == Lookup(a.backend, rob[k := i], k, i.archSrc[m]) {
      LookupFrame(a.backend, a.backend, rob, rob[k := i], k, i.archSrc[m]);
    }
  }

  /** An entry executes once all its sources are valid. */
  lemma ExecuteStep(a: Alloc, rob: seq<Instr>, n: nat, retired: seq<Instr>, k: nat, i: Instr)
    requires RenameInv(a, rob, n, retired) && k < n && SourcesValid(a, rob[k])
    requires SameRegisters(rob[k].(executed := true), i)
    ensures RenameInv(a, rob[k := i], n, retired)
  {
    var rob' := rob[k := i];
    forall j | 0 <= j < n ensures Shaped(rob'[j]) && Scheduled(a, rob', j) {
      if j != k {
        ScheduledFrame(a, a, rob, rob', j);
      } else {
        ExecutedScheduled(a, rob, k, i);
      }
    }
    SameTables(a, rob, rob', n);
  }

  lemma SameTables(a: Alloc, rob: seq<Instr>, rob': seq<Instr>, n: nat)
    requires SameNames(rob, rob', n) && WellFormed(a)
    requires Conserved(a, rob, n) && FrontendCurrent(a, rob, n)
    ensures Conserved(a, rob', n) && FrontendCurrent(a, rob', n)
  {
    InFlightFrame(rob, rob', n);
    forall q | 0 <= q < ARCH_REGISTERS ensures Lookup(a.backend, rob, n, q) == Lookup(a.backend, rob', n, q) {
      LookupFrame(a.backend, a.backend, rob, rob', n, q);
    }
  }
}
