/** Completion and retirement of renamed instructions, and the dataflow theorem. */
module Retirement {
  import opened Prelude
  import opened Instruction
  import opened RegisterAllocation
  import opened Renaming

  // ---- completion ------------------------------------------------------------------------

  /** `file` with every register of `dst` marked valid. */
  ghost predicate MarkedValid(file: seq<PhysReg>, file': seq<PhysReg>, dst: seq<int>) {
    && |file| == |file'|
    && forall p :: 0 <= p < |file| ==> file'[p] == if p in dst then file[p].(valid := true) else file[p]
  }

  lemma OtherDestinations(a: Alloc, rob: seq<Instr>, n: nat, j: nat, k: nat)
    requires n <= |rob| && ScheduledPrefix(a, rob, n) && InProgramOrder(rob) && j < n && k < n && j != k
    ensures forall m :: 0 <= m < |rob[j].dst| ==> rob[j].dst[m] !in rob[k].dst
  {
    assert Scheduled(a, rob, j) && Scheduled(a, rob, k);
    assert rob[j].id != rob[k].id;
    forall m | 0 <= m < |rob[j].dst| ensures rob[j].dst[m] !in rob[k].dst {
      assert a.file[rob[j].dst[m]].producer == rob[j].id;
    }
  }

  lemma CompletedScheduled(a: Alloc, a': Alloc, rob: seq<Instr>, k: nat, i: Instr)
    requires k < |rob| && WellFormed(a) && Shaped(rob[k]) && Scheduled(a, rob, k) && rob[k].executed
    requires a' == a.(file := a'.file) && MarkedValid(a.file, a'.file, rob[k].dst)
    requires SameRegisters(rob[k].(completed := true), i)
    ensures Shaped(i) && Scheduled(a', rob[k := i], k)
  {
    forall m | 0 <= m < |i.src| ensures i.src[m] == Lookup(a.backend, rob[k := i], k, i.archSrc[m]) {
      LookupFrame(a.backend, a.backend, rob, rob[k := i], k, i.archSrc[m]);
    }
  }

  /** Completing an entry marks its destinations, and only those, valid. */
  lemma CompleteStep(a: Alloc, a': Alloc, rob: seq<Instr>, n: nat, retired: seq<Instr>, k: nat, i: Instr)
    requires RenameInv(a, rob, n, retired) && InProgramOrder(rob) && k < n && rob[k].executed
    requires a' == a.(file := a'.file) && MarkedValid(a.file, a'.file, rob[k].dst)
    requires SameRegisters(rob[k].(completed := true), i)
    ensures RenameInv(a', rob[k := i], n, retired)
  {
    var rob' := rob[k := i];
    forall j | 0 <= j < n ensures Shaped(rob'[j]) && Scheduled(a', rob', j) {
      if j != k {
        OtherDestinations(a, rob, n, j, k);
        ScheduledFrame(a, a', rob, rob', j);
      } else {
        CompletedScheduled(a, a', rob, k, i);
      }
    }
    SameTables(a, rob, rob', n);
    CommittedStaysValid(a, a', retired);
  }

  lemma CommittedStaysValid(a: Alloc, a': Alloc, retired: seq<Instr>)
    requires WellFormed(a) && WellFormed(a') && BackendCommitted(a, retired) && a'.backend == a.backend
    requires |a.file| == |a'.file|
    requires forall p :: 0 <= p < |a.file| ==> a'.file[p] == a.file[p] || a'.file[p] == a.file[p].(valid := true)
    ensures BackendCommitted(a', retired)
  {
    forall q | 0 <= q < ARCH_REGISTERS ensures Committed(a', retired, q) {
      assert Committed(a, retired, q);
    }
  }

  // ---- retirement ------------------------------------------------------------------------

  /** The oldest entry while it retires: its sources no longer matter and its first `m`
      destinations are already committed. */
  function Retiring(i: Instr, m: nat): Instr
    requires m <= |i.dst| == |i.archDst|
  {
    i.(src := [], archSrc := [], dst := i.dst[m..], archDst := i.archDst[m..])
  }

  /** The part of the oldest entry that is already committed. */
  function Retired(i: Instr, m: nat): Instr
    requires m <= |i.archDst|
  {
    i.(archDst := i.archDst[..m])
  }

  lemma RetireBegin(a: Alloc, rob: seq<Instr>, n: nat, retired: seq<Instr>)
    requires RenameInv(a, rob, n, retired) && 1 <= n && rob[0].completed
    ensures Shaped(rob[0])
    ensures RenameInv(a, rob[0 := Retiring(rob[0], 0)], n, retired + [Retired(rob[0], 0)])
  {
    assert Scheduled(a, rob, 0);
    var rob' := rob[0 := Retiring(rob[0], 0)];
    forall j | 0 <= j < n ensures Shaped(rob'[j]) && Scheduled(a, rob', j) {
      if j != 0 {
        ScheduledFrame(a, a, rob, rob', j);
      }
    }
    SameTables(a, rob, rob', n);
    forall q | 0 <= q < ARCH_REGISTERS ensures Committed(a, retired + [Retired(rob[0], 0)], q) {
      assert Committed(a, retired, q);
      WriterFrame(retired, retired + [Retired(rob[0], 0)], |retired|, q);
    }
  }

  /** Committing the oldest in-flight write does not change what any younger entry sees. */
  lemma {:induction false} RetireLookup(b: seq<int>, rob: seq<Instr>, i: Instr, k: nat, q: int)
    requires 1 <= k <= |rob| && 0 <= q < |b|
    requires rob[0].dst != [] && |rob[0].dst| == |rob[0].archDst|
    requires i.dst == rob[0].dst[1..] && i.archDst == rob[0].archDst[1..]
    ensures Lookup(if q == rob[0].archDst[0] then b[q := rob[0].dst[0]] else b, rob[0 := i], k, q) == Lookup(b, rob, k, q)
  {
    if k > 1 {
      RetireLookup(b, rob, i, k - 1, q);
      assert rob[0 := i][k - 1] == rob[k - 1];
    } else if q in i.archDst {
      var m := LastAt(i.archDst, q);
      assert rob[0].archDst[m + 1] == q;
      assert LastAt(rob[0].archDst, q) == m + 1;
    } else if q in rob[0].archDst {
      assert rob[0].archDst == [rob[0].archDst[0]] + i.archDst;
      assert LastAt(rob[0].archDst, q) == 0;
    } else {
      assert q != rob[0].archDst[0];
    }
  }

  lemma RetireConserved(a: Alloc, rob: seq<Instr>, n: nat, i: Instr)
    requires 1 <= n <= |rob| && WellFormed(a) && Conserved(a, rob, n)
    requires rob[0].dst != [] && i.dst == rob[0].dst[1..]
    requires 0 <= rob[0].dst[0] < |a.file| && IsArch(a.file[rob[0].dst[0]].arch)
    ensures Conserved(RetireDst(a, rob[0].dst[0]), rob[0 := i], n)
  {
    var d := rob[0].dst[0];
    var r := a.file[d].arch;
    MappedUpdate(a.backend, r, d);
    InFlightUpdate(rob, n, 0, i);
    assert rob[0].dst == [d] + i.dst;
    var a' := RetireDst(a, d);
    var freed := if a.backend[r] < 0 then multiset{} else multiset{a.backend[r]};
    assert multiset(a'.free) == multiset(a.free) + freed;
    Balance(multiset(a.free), Mapped(a.backend), InFlight(rob, n), Mapped(a'.backend), InFlight(rob[0 := i], n),
            freed, multiset{d}, multiset(i.dst));
  }

  /** After a retirement step nothing that is still in use names the register it freed. */
  lemma FreedIsUnused(a: Alloc, rob: seq<Instr>, n: nat, k: nat, p: int)
    requires k < n <= |rob| && Conserved(a, rob, n) && Shaped(rob[k]) && p in a.free
    requires SourcesRenamed(a, rob, k)
    ensures forall m :: 0 <= m < |rob[k].src| ==> rob[k].src[m] != p
    ensures forall m :: 0 <= m < |rob[k].dst| ==> rob[k].dst[m] != p
  {
    FreeIsUnowned(a, rob, n, p);
    forall m | 0 <= m < |rob[k].src| ensures rob[k].src[m] != p {
      LookupNotFree(a, rob, n, k, rob[k].archSrc[m]);
    }
    InFlightHas(rob, n, k);
    forall m | 0 <= m < |rob[k].dst| ensures rob[k].dst[m] != p {
      assert rob[k].dst[m] in multiset(rob[k].dst);
    }
  }

  /** The oldest entry after its first remaining destination is committed. */
  function Shift(i: Instr): Instr
    requires i.dst != [] && i.archDst != []
  {
    i.(dst := i.dst[1..], archDst := i.archDst[1..])
  }

  function Extend(t: Instr, r: int): Instr {
    t.(archDst := t.archDst + [r])
  }

  /** The state a retirement step starts from: the oldest entry is completed, has lost its
      sources, and still owes the commit of its first destination. */
  ghost predicate CanRetire(a: Alloc, rob: seq<Instr>, n: nat) {
    && 1 <= n <= |rob| && WellFormed(a) && ScheduledPrefix(a, rob, n)
    && rob[0].completed && rob[0].src == [] && rob[0].dst != []
  }

  lemma RetireTarget(a: Alloc, rob: seq<Instr>, n: nat)
    requires CanRetire(a, rob, n)
    ensures Shaped(rob[0]) && 0 <= rob[0].dst[0] < |a.file| && IsArch(rob[0].archDst[0])
    ensures a.file[rob[0].dst[0]] == PhysReg(rob[0].archDst[0], rob[0].id, true, true)
  {
    assert Scheduled(a, rob, 0);
  }

  lemma RetireScheduled(a: Alloc, rob: seq<Instr>, n: nat, k: nat)
    requires CanRetire(a, rob, n) && k < n
    requires 0 <= rob[0].dst[0] < |a.file| && a.file[rob[0].dst[0]].arch == rob[0].archDst[0] && IsArch(rob[0].archDst[0])
    requires Conserved(RetireDst(a, rob[0].dst[0]), rob[0 := Shift(rob[0])], n)
    ensures Shaped(rob[0 := Shift(rob[0])][k])
    ensures Scheduled(RetireDst(a, rob[0].dst[0]), rob[0 := Shift(rob[0])], k)
  {
    hide Conserved;
    var a' := RetireDst(a, rob[0].dst[0]);
    var rob' := rob[0 := Shift(rob[0])];
    assert Scheduled(a, rob, k) && Scheduled(a, rob, 0);
    if k > 0 {
      forall m | 0 <= m < |rob[k].src|
        ensures rob[k].src[m] == Lookup(a'.backend, rob', k, rob[k].archSrc[m])
      {
        RetireLookup(a.backend, rob, Shift(rob[0]), k, rob[k].archSrc[m]);
        LookupFrame(a'.backend, if rob[k].archSrc[m] == rob[0].archDst[0] then a'.backend else a.backend, rob', rob', k, rob[k].archSrc[m]);
      }
    }
    var prev := a.backend[rob[0].archDst[0]];
    if prev >= 0 {
      assert a'.free[|a.free|] == prev;
      FreedIsUnused(a', rob', n, k, prev);
    }
  }

  lemma RetireFrontend(a: Alloc, rob: seq<Instr>, n: nat)
    requires CanRetire(a, rob, n) && FrontendCurrent(a, rob, n)
    requires 0 <= rob[0].dst[0] < |a.file| && a.file[rob[0].dst[0]].arch == rob[0].archDst[0] && IsArch(rob[0].archDst[0])
    ensures WellFormed(RetireDst(a, rob[0].dst[0]))
    ensures FrontendCurrent(RetireDst(a, rob[0].dst[0]), rob[0 := Shift(rob[0])], n)
  {
    var a' := RetireDst(a, rob[0].dst[0]);
    var rob' := rob[0 := Shift(rob[0])];
    assert Scheduled(a, rob, 0);
    forall q | 0 <= q < ARCH_REGISTERS ensures a'.frontend[q] == Lookup(a'.backend, rob', n, q) {
      RetireLookup(a.backend, rob, Shift(rob[0]), n, q);
      LookupFrame(a'.backend, if q == rob[0].archDst[0] then a'.backend else a.backend, rob', rob', n, q);
    }
  }

  /** The register a retirement step frees is not committed any more. */
  lemma FreedIsUncommitted(a: Alloc, rob: seq<Instr>, n: nat, d: int, q: int)
    requires n <= |rob| && WellFormed(a) && 0 <= d < |a.file| && IsArch(a.file[d].arch) && IsArch(q)
    requires WellFormed(RetireDst(a, d)) && Conserved(RetireDst(a, d), rob, n)
    ensures a.backend[a.file[d].arch] >= 0 ==> RetireDst(a, d).backend[q] != a.backend[a.file[d].arch]
  {
    var a' := RetireDst(a, d);
    var prev := a.backend[a.file[d].arch];
    if prev >= 0 && a'.backend[q] >= 0 {
      assert a'.free[|a.free|] == prev;
      FreeIsUnowned(a', rob, n, prev);
      MappedHas(a'.backend, q);
    }
  }

  lemma RetireCommitted(a: Alloc, rob: seq<Instr>, n: nat, h: seq<Instr>, t: Instr, d: int, q: int)
    requires n <= |rob| && WellFormed(a) && 0 <= d < |a.file| && IsArch(a.file[d].arch) && IsArch(q)
    requires a.file[d] == PhysReg(a.file[d].arch, t.id, true, true)
    requires WellFormed(RetireDst(a, d)) && Conserved(RetireDst(a, d), rob, n) && Committed(a, h + [t], q)
    ensures Committed(RetireDst(a, d), h + [Extend(t, a.file[d].arch)], q)
  {
    WriterFrame(h + [t], h + [Extend(t, a.file[d].arch)], |h|, q);
    FreedIsUncommitted(a, rob, n, d, q);
    FreedIsUncommitted(a, rob, n, d, a.file[d].arch);
  }

  /** Committing the oldest in-flight write keeps the invariant. */
  lemma RetireDestinationStep(a: Alloc, rob: seq<Instr>, n: nat, h: seq<Instr>, t: Instr)
    requires RenameInv(a, rob, n, h + [t]) && CanRetire(a, rob, n) && t.id == rob[0].id
    ensures 0 <= rob[0].dst[0] < |a.file| && a.file[rob[0].dst[0]].arch == rob[0].archDst[0] && IsArch(rob[0].archDst[0])
    ensures RenameInv(RetireDst(a, rob[0].dst[0]), rob[0 := Shift(rob[0])], n, h + [Extend(t, rob[0].archDst[0])])
  {
    var d := rob[0].dst[0];
    var r := rob[0].archDst[0];
    var rob' := rob[0 := Shift(rob[0])];
    RetireTarget(a, rob, n);
    RetireConserved(a, rob, n, Shift(rob[0]));
    RetireFrontend(a, rob, n);
    forall k | 0 <= k < n ensures Shaped(rob'[k]) && Scheduled(RetireDst(a, d), rob', k) {
      RetireScheduled(a, rob, n, k);
    }
    forall q | 0 <= q < ARCH_REGISTERS ensures Committed(RetireDst(a, d), h + [Extend(t, r)], q) {
      RetireCommitted(a, rob', n, h, t, d, q);
    }
  }

  lemma CommitReady(a: Alloc, v: seq<Instr>, n: nat, h: seq<Instr>, i: Instr, m: nat)
    requires 1 <= n && v != [] && i.completed && m < |i.dst| == |i.archDst| && v[0] == Retiring(i, m)
    requires RenameInv(a, v, n, h + [Retired(i, m)])
    ensures CanRetire(a, v, n) && WellFormed(a)
  {
  }

  /** One iteration of the commit loop, on entry `i` of which `m` destinations are committed. */
  lemma CommitStep(a: Alloc, v: seq<Instr>, n: nat, h: seq<Instr>, i: Instr, m: nat)
    requires 1 <= n && v != [] && i.completed && m < |i.dst| == |i.archDst| && v[0] == Retiring(i, m)
    requires RenameInv(a, v, n, h + [Retired(i, m)])
    ensures WellFormed(a) && 0 <= i.dst[m] < |a.file| && IsArch(a.file[i.dst[m]].arch)
    ensures RenameInv(RetireDst(a, i.dst[m]), v[0 := Retiring(i, m + 1)], n, h + [Retired(i, m + 1)])
  {
    CommitReady(a, v, n, h, i, m);
    CommitNames(i, m);
    hide RenameInv, CanRetire, RetireDst, Retiring, Retired, Shift, Extend;
    RetireDestinationStep(a, v, n, h, Retired(i, m));
  }

  lemma CommitNames(i: Instr, m: nat)
    requires m < |i.dst| == |i.archDst|
    ensures Retiring(i, m).dst != [] && Retiring(i, m).archDst != [] && Retired(i, m).id == i.id == Retiring(i, m).id
    ensures Retiring(i, m).dst[0] == i.dst[m] && Retiring(i, m).archDst[0] == i.archDst[m]
    ensures Extend(Retired(i, m), i.archDst[m]) == Retired(i, m + 1)
    ensures Shift(Retiring(i, m)) == Retiring(i, m + 1)
  {
  }

  lemma {:induction false} LookupDrop(b: seq<int>, rob: seq<Instr>, k: nat, q: int)
    requires 1 <= k <= |rob| && rob[0].archDst == []
    ensures Lookup(b, rob[1..], k - 1, q) == Lookup(b, rob, k, q)
  {
    if k > 1 {
      LookupDrop(b, rob, k - 1, q);
    }
  }

  /** An oldest entry with nothing left to commit can leave the reorder buffer. */
  lemma RetireEnd(a: Alloc, rob: seq<Instr>, n: nat, retired: seq<Instr>)
    requires RenameInv(a, rob, n, retired) && 1 <= n && rob[0].dst == []
    ensures RenameInv(a, rob[1..], n - 1, retired)
  {
    var rob' := rob[1..];
    assert Scheduled(a, rob, 0);
    InFlightTail(rob, n);
    forall k | 0 <= k < n - 1 ensures Shaped(rob'[k]) && Scheduled(a, rob', k) {
      assert Scheduled(a, rob, k + 1);
      forall m | 0 <= m < |rob'[k].src|
        ensures rob'[k].src[m] == Lookup(a.backend, rob', k, rob'[k].archSrc[m])
      {
        LookupDrop(a.backend, rob, k + 1, rob'[k].archSrc[m]);
      }
    }
    forall q | 0 <= q < ARCH_REGISTERS ensures a.frontend[q] == Lookup(a.backend, rob', n - 1, q) {
      LookupDrop(a.backend, rob, n, q);
    }
  }

  // ---- what the invariant means ----------------------------------------------------------

  /** The value entry `k` reads for `r` is ready: its youngest older writer, if in flight, has
      completed. */
  ghost predicate ProducerDone(rob: seq<Instr>, k: nat, r: int)
    requires k <= |rob|
  {
    var w := YoungestWriter(rob, k, r);
    w.Some? ==> rob[w.value].completed
  }

  /** The file entry a lookup finds belongs to the youngest older writer in program order. */
  lemma {:induction false} LookupProducer(a: Alloc, rob: seq<Instr>, n: nat, retired: seq<Instr>, k: nat, r: int)
    requires RenameInv(a, rob, n, retired) && k <= n && IsArch(r)
    requires Lookup(a.backend, rob, k, r) >= 0
    ensures Lookup(a.backend, rob, k, r) < |a.file|
    ensures a.file[Lookup(a.backend, rob, k, r)]
         == PhysReg(r, ProducerId(retired + rob, |retired| + k, r), ProducerDone(rob, k, r), true)
  {
    hide Conserved, FrontendCurrent, UnrenamedTail;
    if k == 0 {
      assert Committed(a, retired, r);
      WriterFrame(retired, retired + rob, |retired|, r);
    } else if r in rob[k - 1].archDst {
      assert Scheduled(a, rob, k - 1);
      assert (retired + rob)[|retired| + k - 1] == rob[k - 1];
    } else {
      LookupProducer(a, rob, n, retired, k - 1, r);
      assert (retired + rob)[|retired| + k - 1] == rob[k - 1];
    }
  }

  /** Renaming preserves dataflow: a source of a scheduled, unretired instruction names a
      register that is not free and whose recorded producer is the youngest older writer, in
      program order, of the architectural register the source named; that register is valid
      exactly when the producer has completed. */
  lemma RenamingPreservesDataflow(a: Alloc, rob: seq<Instr>, n: nat, retired: seq<Instr>, k: nat, m: nat)
    requires RenameInv(a, rob, n, retired) && k < n && m < |rob[k].src|
    ensures Shaped(rob[k])
    ensures 0 <= rob[k].src[m] < |a.file| && rob[k].src[m] !in a.free
    ensures a.file[rob[k].src[m]].arch == rob[k].archSrc[m]
    ensures a.file[rob[k].src[m]].producer == ProducerId(retired + rob, |retired| + k, rob[k].archSrc[m])
    ensures a.file[rob[k].src[m]].valid <==> ProducerDone(rob, k, rob[k].archSrc[m])
    ensures rob[k].executed ==> ProducerDone(rob, k, rob[k].archSrc[m])
  {
    assert Scheduled(a, rob, k);
    LookupProducer(a, rob, n, retired, k, rob[k].archSrc[m]);
    LookupNotFree(a, rob, n, k, rob[k].archSrc[m]);
  }

  /** Physical registers are conserved: every register is owned exactly once, so the free
      queue has no duplicates and no in-flight destination is shared or free. */
  lemma RegistersConserved(a: Alloc, rob: seq<Instr>, n: nat, retired: seq<Instr>, p: int)
    requires RenameInv(a, rob, n, retired) && 0 <= p < |a.file|
    ensures multiset(a.free)[p] + Mapped(a.backend)[p] + InFlight(rob, n)[p] == 1
  {
    var all := multiset(a.free) + Mapped(a.backend) + InFlight(rob, n);
    assert all[p] == multiset(a.free)[p] + Mapped(a.backend)[p] + InFlight(rob, n)[p];
    PoolCounts(|a.file|, p);
  }

  /** The frontend table maps each architectural register to the youngest in-flight copy, else
      to the committed one; what it maps belongs to the youngest writer so far. */
  lemma FrontendIsYoungest(a: Alloc, rob: seq<Instr>, n: nat, retired: seq<Instr>, r: int)
    requires RenameInv(a, rob, n, retired) && IsArch(r)
    ensures YoungestWriter(rob, n, r) == None ==> a.frontend[r] == a.backend[r]
    ensures a.frontend[r] >= 0 ==> a.frontend[r] < |a.file| && a.frontend[r] !in a.free
    ensures a.frontend[r] >= 0 ==>
      a.file[a.frontend[r]] == PhysReg(r, ProducerId(retired + rob, |retired| + n, r), ProducerDone(rob, n, r), true)
  {
    LookupWithoutWriter(a, rob, n, r);
    if a.frontend[r] >= 0 {
      LookupProducer(a, rob, n, retired, n, r);
      LookupNotFree(a, rob, n, n, r);
    }
  }

  lemma {:induction false} LookupWithoutWriter(a: Alloc, rob: seq<Instr>, k: nat, r: int)
    requires WellFormed(a) && IsArch(r) && k <= |rob|
    ensures YoungestWriter(rob, k, r) == None ==> Lookup(a.backend, rob, k, r) == a.backend[r]
  {
    if k > 0 {
      LookupWithoutWriter(a, rob, k - 1, r);
    }
  }

  lemma {:induction false} FreshPool(n: nat)
    ensures multiset(seq(n, i => i)) == Pool(n)
  {
    if n > 0 {
      FreshPool(n - 1);
      assert seq(n, i => i) == seq(n - 1, i => i) + [n - 1];
    }
  }

  lemma {:induction false} NothingMapped(k: nat)
    ensures Mapped(seq(k, _ => -1)) == multiset{}
  {
    if k > 0 {
      NothingMapped(k - 1);
      assert seq(k, _ => -1)[1..] == seq(k - 1, _ => -1);
    }
  }

  /** A new allocator over an empty reorder buffer satisfies the invariant. */
  lemma InitialRenaming(n: nat)
    ensures RenameInv(InitialAlloc(n), [], 0, [])
  {
    FreshPool(n);
    NothingMapped(ARCH_REGISTERS);
  }

  /** Executed entries are scheduled ones, with their names in range. */
  lemma ExecutedIsScheduled(a: Alloc, rob: seq<Instr>, n: nat, h: seq<Instr>, k: nat)
    requires RenameInv(a, rob, n, h) && k < |rob|
    ensures Shaped(rob[k]) && (rob[k].scheduled <==> k < n)
    ensures rob[k].executed ==> k < n
    ensures rob[k].completed ==> rob[k].executed
    ensures k < n ==> forall m :: 0 <= m < |rob[k].dst| ==> 0 <= rob[k].dst[m] < |a.file|
    ensures k < n ==> forall m :: 0 <= m < |rob[k].src| ==> 0 <= rob[k].src[m] < |a.file|
    ensures n <= k ==> Unrenamed(rob[k])
  {
    if k < n {
      assert Scheduled(a, rob, k);
    } else {
      assert Unrenamed(rob[k]);
    }
  }
}
