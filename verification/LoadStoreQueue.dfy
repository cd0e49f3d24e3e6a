/** The load and store queues: forwarding from stores to younger loads, and the count of
    finished memory operations that every reorder-buffer entry keeps. */
module LoadStoreQueue {
  import opened Prelude
  import opened Instruction

  /** A load-queue slot's content. `producer` is the store the load waits for, if any. */
  datatype LqEntry = LqEntry(id: nat, addr: Address, ready: Ready, issued: bool, producer: Option<nat>)

  /** A store; `deps` are the load-queue slots that wait for it. */
  datatype SqEntry = SqEntry(id: nat, addr: Address, ready: Ready, issued: bool, deps: seq<nat>)

  type Lq = seq<Option<LqEntry>>

  function EmptySlots(n: nat): Lq {
    seq(n, _ => None)
  }

  // ---- counting --------------------------------------------------------------------------

  function One(b: bool): nat {
    if b then 1 else 0
  }

  predicate IsLive(e: Option<LqEntry>, id: nat) {
    e.Some? && e.value.id == id
  }

  predicate IsUnfetched(e: SqEntry, id: nat) {
    !e.issued && e.id == id
  }

  /** Loads of instruction `id` that are in the first `k` slots. */
  ghost function Live(lq: Lq, k: nat, id: nat): nat
    requires k <= |lq|
  {
    if k == 0 then 0 else Live(lq, k - 1, id) + One(IsLive(lq[k - 1], id))
  }

  /** Stores of instruction `id` among the first `k` that have not executed yet. */
  ghost function Unfetched(sq: seq<SqEntry>, k: nat, id: nat): nat
    requires k <= |sq|
  {
    if k == 0 then 0 else Unfetched(sq, k - 1, id) + One(IsUnfetched(sq[k - 1], id))
  }

  lemma {:induction false} LiveUpdate(lq: Lq, k: nat, s: nat, e: Option<LqEntry>, id: nat)
    requires s < k <= |lq|
    ensures Live(lq[s := e], k, id) + One(IsLive(lq[s], id)) == Live(lq, k, id) + One(IsLive(e, id))
  {
    if s < k - 1 {
      LiveUpdate(lq, k - 1, s, e, id);
    } else {
      LiveFrame(lq, lq[s := e], s, id);
    }
  }

  lemma {:induction false} LiveFrame(lq: Lq, lq': Lq, k: nat, id: nat)
    requires k <= |lq| && k <= |lq'|
    requires forall s :: 0 <= s < k ==> IsLive(lq[s], id) == IsLive(lq'[s], id)
    ensures Live(lq, k, id) == Live(lq', k, id)
  {
    if k > 0 {
      LiveFrame(lq, lq', k - 1, id);
    }
  }

  lemma {:induction false} LiveZero(lq: Lq, k: nat, id: nat)
    requires k <= |lq|
    ensures Live(lq, k, id) == 0 <==> forall s :: 0 <= s < k ==> !IsLive(lq[s], id)
  {
    if k > 0 {
      LiveZero(lq, k - 1, id);
    }
  }

  lemma {:induction false} UnfetchedFrame(sq: seq<SqEntry>, sq': seq<SqEntry>, k: nat, id: nat)
    requires k <= |sq| && k <= |sq'|
    requires forall j :: 0 <= j < k ==> IsUnfetched(sq[j], id) == IsUnfetched(sq'[j], id)
    ensures Unfetched(sq, k, id) == Unfetched(sq', k, id)
  {
    if k > 0 {
      UnfetchedFrame(sq, sq', k - 1, id);
    }
  }

  lemma {:induction false} UnfetchedUpdate(sq: seq<SqEntry>, k: nat, j: nat, e: SqEntry, id: nat)
    requires j < k <= |sq|
    ensures Unfetched(sq[j := e], k, id) + One(IsUnfetched(sq[j], id)) == Unfetched(sq, k, id) + One(IsUnfetched(e, id))
  {
    if j < k - 1 {
      UnfetchedUpdate(sq, k - 1, j, e, id);
    } else {
      UnfetchedFrame(sq, sq[j := e], j, id);
    }
  }

  lemma {:induction false} UnfetchedZero(sq: seq<SqEntry>, k: nat, id: nat)
    requires k <= |sq|
    ensures Unfetched(sq, k, id) == 0 <==> forall j :: 0 <= j < k ==> !IsUnfetched(sq[j], id)
  {
    if k > 0 {
      UnfetchedZero(sq, k - 1, id);
    }
  }

  /** Dropping `m` executed stores from the front does not change the count. */
  lemma {:induction false} UnfetchedDrop(sq: seq<SqEntry>, m: nat, k: nat, id: nat)
    requires m <= k <= |sq| && forall j :: 0 <= j < m ==> sq[j].issued
    ensures Unfetched(sq[m..], k - m, id) == Unfetched(sq, k, id)
  {
    if k == m {
      UnfetchedZero(sq, m, id);
    } else {
      UnfetchedDrop(sq, m, k - 1, id);
    }
  }

  // ---- the invariant ---------------------------------------------------------------------

  ghost predicate HasId(s: seq<Instr>, id: nat) {
    exists k :: 0 <= k < |s| && s[k].id == id
  }

  /** Every memory operation of every entry is counted once: finished, waiting in the load
      queue, or waiting in the store queue. */
  ghost predicate Counted(rob: seq<Instr>, lq: Lq, sq: seq<SqEntry>) {
    && (forall k :: 0 <= k < |rob| ==>
          rob[k].completedMemOps + Live(lq, |lq|, rob[k].id) + Unfetched(sq, |sq|, rob[k].id) == rob[k].NumMemOps())
    && (forall k :: 0 <= k < |rob| && rob[k].completed ==> rob[k].completedMemOps == rob[k].NumMemOps())
  }

  /** Unfinished memory operations belong to unretired instructions. */
  ghost predicate Owned(rob: seq<Instr>, lq: Lq, sq: seq<SqEntry>) {
    && (forall s :: 0 <= s < |lq| && lq[s].Some? ==> HasId(rob, lq[s].value.id))
    && (forall j :: 0 <= j < |sq| && !sq[j].issued ==> HasId(rob, sq[j].id))
  }

  /** Unfinished memory operations are to addresses of their instruction's operands. */
  ghost predicate Sourced(rob: seq<Instr>, lq: Lq, sq: seq<SqEntry>) {
    && (forall s, k :: 0 <= s < |lq| && 0 <= k < |rob| && IsLive(lq[s], rob[k].id) ==> lq[s].value.addr in rob[k].srcMem)
    && (forall j, k :: 0 <= j < |sq| && 0 <= k < |rob| && IsUnfetched(sq[j], rob[k].id) ==> sq[j].addr in rob[k].dstMem)
  }

  /** The store queue is in program order and its executed stores come first. */
  ghost predicate StoresOrdered(sq: seq<SqEntry>) {
    && (forall i, j :: 0 <= i < j < |sq| ==> sq[i].id <= sq[j].id)
    && (forall i, j :: 0 <= i < j < |sq| && sq[j].issued ==> sq[i].issued)
  }

  /** Slot `s` waits for the store `e`. */
  ghost predicate WaitsFor(lq: Lq, s: nat, e: SqEntry) {
    && s < |lq| && lq[s].Some?
    && lq[s].value.producer == Some(e.id) && lq[s].value.addr == e.addr && e.id < lq[s].value.id
    && !lq[s].value.issued
  }

  ghost predicate ListedBy(sq: seq<SqEntry>, s: nat, j: nat, x: nat) {
    j < |sq| && !sq[j].issued && x < |sq[j].deps| && sq[j].deps[x] == s
  }

  /** A slot names a producer exactly when one unexecuted store lists it, exactly once. */
  ghost predicate Linked(lq: Lq, sq: seq<SqEntry>) {
    && (forall s: nat, j: nat, x: nat :: ListedBy(sq, s, j, x) ==> WaitsFor(lq, s, sq[j]))
    && (forall s :: 0 <= s < |lq| && lq[s].Some? && lq[s].value.producer.Some? ==> exists j: nat, x: nat :: ListedBy(sq, s, j, x))
    && (forall s: nat, j: nat, x: nat, j': nat, x': nat :: ListedBy(sq, s, j, x) && ListedBy(sq, s, j', x') ==> j == j' && x == x')
  }

  /** No older store to the load's address is younger than the producer it waits for; a load
      that waits for none has no older store to its address in the queue. */
  ghost predicate YoungestOlder(e: LqEntry, sq: seq<SqEntry>) {
    forall j :: 0 <= j < |sq| && sq[j].id < e.id && sq[j].addr == e.addr ==>
      e.producer.Some? && sq[j].id <= e.producer.value
  }

  ghost predicate Forwards(lq: Lq, sq: seq<SqEntry>) {
    forall s :: 0 <= s < |lq| && lq[s].Some? ==> YoungestOlder(lq[s].value, sq)
  }

  ghost predicate LsqInv(rob: seq<Instr>, lq: Lq, sq: seq<SqEntry>) {
    && InProgramOrder(rob)
    && StoresOrdered(sq)
    && Counted(rob, lq, sq)
    && Owned(rob, lq, sq)
    && Sourced(rob, lq, sq)
    && Linked(lq, sq)
    && Forwards(lq, sq)
  }

  // ---- what each step keeps --------------------------------------------------------------

  /** The counts of every identifier but one are unchanged; that one's changed by the same
      amount as the entry's own total. */
  lemma CountOne(rob: seq<Instr>, rob': seq<Instr>, lq: Lq, lq': Lq, sq: seq<SqEntry>, sq': seq<SqEntry>, k: nat)
    requires InProgramOrder(rob) && Counted(rob, lq, sq) && |rob| == |rob'| && k < |rob|
    requires rob' == rob[k := rob'[k]] && rob'[k].id == rob[k].id && !rob'[k].completed
    requires forall id :: id != rob[k].id ==>
      Live(lq, |lq|, id) == Live(lq', |lq'|, id) && Unfetched(sq, |sq|, id) == Unfetched(sq', |sq'|, id)
    requires rob'[k].completedMemOps + Live(lq', |lq'|, rob[k].id) + Unfetched(sq', |sq'|, rob[k].id) == rob'[k].NumMemOps()
    ensures Counted(rob', lq', sq')
  {
    forall j | 0 <= j < |rob'|
      ensures rob'[j].completedMemOps + Live(lq', |lq'|, rob'[j].id) + Unfetched(sq', |sq'|, rob'[j].id) == rob'[j].NumMemOps()
    {
      assert j != k ==> rob[j].id != rob[k].id;
    }
  }

  /** Replacing an entry without changing its identifier keeps every owner. */
  lemma OwnersKept(rob: seq<Instr>, rob': seq<Instr>, id: nat)
    requires |rob| == |rob'| && forall k :: 0 <= k < |rob| ==> rob[k].id == rob'[k].id
    ensures HasId(rob, id) <==> HasId(rob', id)
  {
    if HasId(rob, id) {
      var k :| 0 <= k < |rob| && rob[k].id == id;
      assert rob'[k].id == id;
    }
    if HasId(rob', id) {
      var k :| 0 <= k < |rob'| && rob'[k].id == id;
      assert rob[k].id == id;
    }
  }

  // ---- what queueing a load leads to -------------------------------------------------------

  /** Store `j` is the youngest one to the address, the first such if its instruction has several. */
  ghost predicate IsYoungest(sq: seq<SqEntry>, addr: Address, j: nat) {
    && j < |sq| && sq[j].addr == addr
    && forall i :: 0 <= i < |sq| && sq[i].addr == addr ==> sq[i].id <= sq[j].id && (i < j ==> sq[i].id < sq[j].id)
  }

  ghost predicate NoneTo(sq: seq<SqEntry>, addr: Address) {
    forall j :: 0 <= j < |sq| ==> sq[j].addr != addr
  }

  /** The youngest store to the address has executed, so a load can take its value at once. */
  ghost predicate Forwardable(sq: seq<SqEntry>, addr: Address) {
    exists j: nat :: IsYoungest(sq, addr, j) && sq[j].issued
  }

  ghost predicate FirstFree(lq: Lq, s: nat) {
    s < |lq| && lq[s].None? && forall t :: 0 <= t < s ==> lq[t].Some?
  }

  /** A load of instruction `id`: finished at once, or in the first free slot, where it waits for
      the youngest store to its address if there is one. */
  ghost predicate LoadOutcome(lq: Lq, sq: seq<SqEntry>, lq': Lq, sq': seq<SqEntry>, id: nat, addr: Address, done: bool) {
    && (done <==> Forwardable(sq, addr))
    && (done ==> lq' == lq && sq' == sq)
    && (NoneTo(sq, addr) ==> sq' == sq && exists s: nat :: FirstFree(lq, s) && lq' == lq[s := Some(LqEntry(id, addr, Never, false, None))])
    && (forall j: nat :: IsYoungest(sq, addr, j) && !sq[j].issued ==>
          exists s: nat :: FirstFree(lq, s)
            && lq' == lq[s := Some(LqEntry(id, addr, Never, false, Some(sq[j].id)))] && sq' == sq[j := AddDependent(sq[j], s)])
  }

  function AddDependent(e: SqEntry, s: nat): SqEntry {
    e.(deps := e.deps + [s])
  }

  /** The same stores, in the same order and with the same progress. */
  ghost predicate SameStores(sq: seq<SqEntry>, sq': seq<SqEntry>) {
    && |sq| == |sq'|
    && forall j :: 0 <= j < |sq| ==> sq'[j] == sq[j].(deps := sq'[j].deps)
  }

  lemma SameYoungest(sq: seq<SqEntry>, sq': seq<SqEntry>, addr: Address)
    requires SameStores(sq, sq')
    ensures NoneTo(sq, addr) <==> NoneTo(sq', addr)
    ensures Forwardable(sq, addr) <==> Forwardable(sq', addr)
    ensures forall j: nat :: IsYoungest(sq, addr, j) <==> IsYoungest(sq', addr, j)
  {
    forall j: nat ensures IsYoungest(sq, addr, j) <==> IsYoungest(sq', addr, j) {
    }
    if Forwardable(sq, addr) {
      var j: nat :| IsYoungest(sq, addr, j) && sq[j].issued;
      assert IsYoungest(sq', addr, j);
    }
    if Forwardable(sq', addr) {
      var j: nat :| IsYoungest(sq', addr, j) && sq'[j].issued;
      assert IsYoungest(sq, addr, j);
    }
  }

  lemma {:induction false} HasYoungest(sq: seq<SqEntry>, addr: Address)
    requires !NoneTo(sq, addr)
    ensures exists j: nat :: IsYoungest(sq, addr, j)
  {
    var n := |sq| - 1;
    if NoneTo(sq[..n], addr) {
      assert forall i :: 0 <= i < n ==> sq[..n][i] == sq[i];
      assert IsYoungest(sq, addr, n);
    } else {
      HasYoungest(sq[..n], addr);
      var j: nat :| IsYoungest(sq[..n], addr, j);
      assert forall i :: 0 <= i < n ==> sq[..n][i] == sq[i];
      assert IsYoungest(sq, addr, if sq[n].addr == addr && sq[j].id < sq[n].id then n else j);
    }
  }

  /** What a waiting load remembers: the youngest store to its address, if there is one. */
  ghost predicate Remembers(e: LqEntry, id: nat, addr: Address, sq: seq<SqEntry>) {
    && e == LqEntry(id, addr, Never, false, e.producer)
    && (NoneTo(sq, addr) ==> e.producer == None)
    && forall j: nat :: IsYoungest(sq, addr, j) ==> e.producer == Some(sq[j].id)
  }

  /** A load that needs no slot, or has one that was free and is listed by the store it waits for. */
  ghost predicate Placed(id: nat, addr: Address, lq: Lq, sq: seq<SqEntry>, lq': Lq, sq': seq<SqEntry>, slot: Option<nat>)
    requires |lq| == |lq'| && |sq| == |sq'|
  {
    && (slot.None? <==> Forwardable(sq, addr))
    && (slot.Some? ==>
          && slot.value < |lq| && lq[slot.value].None? && lq'[slot.value].Some?
          && Remembers(lq'[slot.value].value, id, addr, sq)
          && forall j: nat :: IsYoungest(sq, addr, j) ==> slot.value in sq'[j].deps)
  }

  /** All loads of instruction `id` are placed, in different slots; the other slots are as before. */
  ghost predicate LoadsPlaced(id: nat, addrs: seq<Address>, lq: Lq, sq: seq<SqEntry>, lq': Lq, sq': seq<SqEntry>,
                              slots: seq<Option<nat>>) {
    && |lq| == |lq'| && SameStores(sq, sq') && |slots| == |addrs|
    && (forall m :: 0 <= m < |slots| ==> Placed(id, addrs[m], lq, sq, lq', sq', slots[m]))
    && (forall m, n :: 0 <= m < n < |slots| && slots[m].Some? ==> slots[n] != slots[m])
    && (forall t :: 0 <= t < |lq| && Some(t) !in slots ==> lq'[t] == lq[t])
    && (forall j :: 0 <= j < |sq| ==> sq[j].deps <= sq'[j].deps)
  }

  /** The loads that were finished at once. */
  ghost function Settled(slots: seq<Option<nat>>): nat {
    if slots == [] then 0 else Settled(slots[..|slots| - 1]) + One(slots[|slots| - 1].None?)
  }

  lemma PlacedStays(id: nat, addr: Address, lq: Lq, sq: seq<SqEntry>, lq': Lq, sq': seq<SqEntry>, lq'': Lq, sq'': seq<SqEntry>,
                    slot: Option<nat>)
    requires |lq| == |lq'| == |lq''| && |sq| == |sq'| == |sq''| && Placed(id, addr, lq, sq, lq', sq', slot)
    requires forall t :: 0 <= t < |lq| && lq'[t].Some? ==> lq''[t] == lq'[t]
    requires forall j :: 0 <= j < |sq| ==> sq'[j].deps <= sq''[j].deps
    ensures Placed(id, addr, lq, sq, lq'', sq'', slot)
  {
  }

  /** Where the next load of an instruction ends up. */
  lemma OutcomeSlot(lq: Lq, sq: seq<SqEntry>, lq': Lq, sq': seq<SqEntry>, id: nat, addr: Address, done: bool) returns (slot: Option<nat>)
    requires LoadOutcome(lq, sq, lq', sq', id, addr, done)
    ensures |lq| == |lq'| && SameStores(sq, sq') && forall j :: 0 <= j < |sq| ==> sq[j].deps <= sq'[j].deps
    ensures Placed(id, addr, lq, sq, lq', sq', slot) && (done <==> slot.None?)
    ensures lq' == if slot.Some? then lq[slot.value := lq'[slot.value]] else lq
  {
    if done {
      slot := None;
    } else if NoneTo(sq, addr) {
      var s: nat :| FirstFree(lq, s) && lq' == lq[s := Some(LqEntry(id, addr, Never, false, None))];
      slot := Some(s);
    } else {
      HasYoungest(sq, addr);
      var j: nat :| IsYoungest(sq, addr, j);
      var s: nat :| FirstFree(lq, s)
        && lq' == lq[s := Some(LqEntry(id, addr, Never, false, Some(sq[j].id)))] && sq' == sq[j := AddDependent(sq[j], s)];
      slot := Some(s);
      OnlyYoungest(sq, addr, j);
    }
  }

  lemma OnlyYoungest(sq: seq<SqEntry>, addr: Address, j: nat)
    requires IsYoungest(sq, addr, j)
    ensures forall i: nat :: IsYoungest(sq, addr, i) ==> i == j
  {
  }

  /** The next load joins those already placed. */
  lemma PlaceNext(id: nat, addrs: seq<Address>, addr: Address, lq: Lq, sq: seq<SqEntry>, lq': Lq, sq': seq<SqEntry>,
                  lq'': Lq, sq'': seq<SqEntry>, slots: seq<Option<nat>>, done: bool) returns (slots': seq<Option<nat>>)
    requires LoadsPlaced(id, addrs, lq, sq, lq', sq', slots) && LoadOutcome(lq', sq', lq'', sq'', id, addr, done)
    ensures LoadsPlaced(id, addrs + [addr], lq, sq, lq'', sq'', slots')
    ensures Settled(slots') == Settled(slots) + One(done)
  {
    hide LoadOutcome, Forwardable, Remembers, IsYoungest, NoneTo;
    var slot := OutcomeSlot(lq', sq', lq'', sq'', id, addr, done);
    slots' := slots + [slot];
    SameYoungest(sq, sq', addr);
    assert slots'[..|slots|] == slots;
    NextPlaced(id, addr, lq, sq, lq', sq', lq'', sq'', slots, slot);
    forall m | 0 <= m < |slots| ensures Placed(id, addrs[m], lq, sq, lq'', sq'', slots[m]) {
      PlacedStays(id, addrs[m], lq, sq, lq', sq', lq'', sq'', slots[m]);
    }
  }

  lemma NextPlaced(id: nat, addr: Address, lq: Lq, sq: seq<SqEntry>, lq': Lq, sq': seq<SqEntry>, lq'': Lq, sq'': seq<SqEntry>,
                   slots: seq<Option<nat>>, slot: Option<nat>)
    requires |lq| == |lq'| == |lq''| && SameStores(sq, sq') && |sq''| == |sq|
    requires Placed(id, addr, lq', sq', lq'', sq'', slot)
    requires forall m :: 0 <= m < |slots| && slots[m].Some? ==> slots[m].value < |lq| && lq'[slots[m].value].Some?
    requires forall t :: 0 <= t < |lq| && Some(t) !in slots ==> lq'[t] == lq[t]
    ensures Placed(id, addr, lq, sq, lq'', sq'', slot) && (slot.Some? ==> slot !in slots)
  {
    SameYoungest(sq, sq', addr);
    hide Forwardable, IsYoungest, NoneTo;
    assert slot.Some? ==> forall m :: 0 <= m < |slots| ==> slots[m] != slot;
  }

  /** A dispatched instruction's memory operations have been queued, `done` of them finished at
      once: its loads are placed, its stores are the youngest. */
  ghost predicate Enters(i: Instr, lq: Lq, sq: seq<SqEntry>, lq': Lq, sq': seq<SqEntry>, done: nat) {
    && |sq'| == |sq| + |i.dstMem| && sq'[|sq|..] == NewStores(i, |i.dstMem|)
    && exists slots :: LoadsPlaced(i.id, i.srcMem, lq, sq, lq', sq'[..|sq|], slots) && done == Settled(slots)
  }

  /** The queue entries of the first `t` stores of `i`. */
  function NewStores(i: Instr, t: nat): (r: seq<SqEntry>)
    requires t <= |i.dstMem|
    ensures |r| == t && forall u :: 0 <= u < t ==> r[u] == SqEntry(i.id, i.dstMem[u], Never, false, [])
  {
    seq(t, u requires 0 <= u < t => SqEntry(i.id, i.dstMem[u], Never, false, []))
  }

  function AddLoad(i: Instr, addr: Address, finished: nat): Instr {
    i.(srcMem := i.srcMem + [addr], completedMemOps := i.completedMemOps + finished)
  }

  function AddStore(i: Instr, addr: Address): Instr {
    i.(dstMem := i.dstMem + [addr])
  }

  function Finished(i: Instr): Instr {
    i.(completedMemOps := i.completedMemOps + 1)
  }

  /** Replacing entry `k` by one with the same identifier keeps program order and owners. */
  lemma ReplaceEntry(rob: seq<Instr>, lq: Lq, sq: seq<SqEntry>, k: nat, i: Instr)
    requires k < |rob| && i.id == rob[k].id && InProgramOrder(rob)
    ensures InProgramOrder(rob[k := i])
    ensures Owned(rob, lq, sq) ==> Owned(rob[k := i], lq, sq)
  {
    if Owned(rob, lq, sq) {
      forall s | 0 <= s < |lq| && lq[s].Some? ensures HasId(rob[k := i], lq[s].value.id) {
        OwnersKept(rob, rob[k := i], lq[s].value.id);
      }
      forall j | 0 <= j < |sq| && !sq[j].issued ensures HasId(rob[k := i], sq[j].id) {
        OwnersKept(rob, rob[k := i], sq[j].id);
      }
    }
  }

  /** Filling an empty slot changes the live count of one instruction. */
  lemma FillCounted(rob: seq<Instr>, lq: Lq, sq: seq<SqEntry>, sq': seq<SqEntry>, k: nat, s: nat, e: LqEntry)
    requires InProgramOrder(rob) && Counted(rob, lq, sq) && k < |rob| && s < |lq|
    requires lq[s].None? && e.id == rob[k].id && !rob[k].completed
    requires |sq| == |sq'| && forall j :: 0 <= j < |sq| ==> sq[j].id == sq'[j].id && sq[j].issued == sq'[j].issued
    ensures Counted(rob[k := AddLoad(rob[k], e.addr, 0)], lq[s := Some(e)], sq')
  {
    forall id: nat
      ensures Live(lq[s := Some(e)], |lq|, id) == Live(lq, |lq|, id) + One(e.id == id)
      ensures Unfetched(sq, |sq|, id) == Unfetched(sq', |sq|, id)
    {
      LiveUpdate(lq, |lq|, s, Some(e), id);
      UnfetchedFrame(sq, sq', |sq|, id);
    }
    CountOne(rob, rob[k := AddLoad(rob[k], e.addr, 0)], lq, lq[s := Some(e)], sq, sq', k);
  }

  ghost predicate NewLoad(rob: seq<Instr>, lq: Lq, k: nat, s: nat, e: LqEntry) {
    && k < |rob| && s < |lq| && lq[s].None? && e.id == rob[k].id && !rob[k].completed && !e.issued
  }

  lemma FillOwned(rob: seq<Instr>, lq: Lq, sq: seq<SqEntry>, k: nat, s: nat, e: LqEntry)
    requires NewLoad(rob, lq, k, s, e) && InProgramOrder(rob) && Owned(rob, lq, sq)
    ensures Owned(rob[k := AddLoad(rob[k], e.addr, 0)], lq[s := Some(e)], sq)
    ensures InProgramOrder(rob[k := AddLoad(rob[k], e.addr, 0)])
  {
    ReplaceEntry(rob, lq, sq, k, AddLoad(rob[k], e.addr, 0));
    assert rob[k := AddLoad(rob[k], e.addr, 0)][k].id == e.id;
  }

  /** A load with no older store to its address waits for nothing. */
  lemma LoadAloneStep(rob: seq<Instr>, lq: Lq, sq: seq<SqEntry>, k: nat, s: nat, e: LqEntry)
    requires LsqInv(rob, lq, sq) && NewLoad(rob, lq, k, s, e) && e.producer.None?
    requires forall j :: 0 <= j < |sq| ==> sq[j].addr != e.addr
    ensures LsqInv(rob[k := AddLoad(rob[k], e.addr, 0)], lq[s := Some(e)], sq)
  {
    FillCounted(rob, lq, sq, sq, k, s, e);
    FillOwned(rob, lq, sq, k, s, e);
    forall t: nat, j: nat, x: nat | ListedBy(sq, t, j, x) ensures WaitsFor(lq[s := Some(e)], t, sq[j]) {
      assert WaitsFor(lq, t, sq[j]);
    }
  }

  /** A load whose youngest older store has executed is finished at once. */
  lemma LoadForwardedStep(rob: seq<Instr>, lq: Lq, sq: seq<SqEntry>, k: nat, addr: Address, j: nat)
    requires LsqInv(rob, lq, sq) && k < |rob| && !rob[k].completed && IsYoungest(sq, addr, j) && sq[j].issued
    ensures LsqInv(rob[k := AddLoad(rob[k], addr, 1)], lq, sq)
  {
    ReplaceEntry(rob, lq, sq, k, AddLoad(rob[k], addr, 1));
    CountOne(rob, rob[k := AddLoad(rob[k], addr, 1)], lq, lq, sq, sq, k);
  }

  lemma WaitLinked(lq: Lq, sq: seq<SqEntry>, s: nat, e: LqEntry, j: nat)
    requires Linked(lq, sq) && s < |lq| && lq[s].None? && j < |sq| && !sq[j].issued && !e.issued
    requires e.producer == Some(sq[j].id) && e.addr == sq[j].addr && sq[j].id < e.id
    ensures Linked(lq[s := Some(e)], sq[j := AddDependent(sq[j], s)])
  {
    var lq' := lq[s := Some(e)];
    var sq' := sq[j := AddDependent(sq[j], s)];
    assert ListedBy(sq', s, j, |sq[j].deps|);
    forall t: nat, i: nat, x: nat | ListedBy(sq', t, i, x)
      ensures WaitsFor(lq', t, sq'[i])
      ensures t == s ==> i == j && x == |sq[j].deps|
      ensures t != s ==> ListedBy(sq, t, i, x)
    {
      if !(i == j && x == |sq[j].deps|) {
        assert ListedBy(sq, t, i, x);
        assert WaitsFor(lq, t, sq[i]);
      }
    }
    forall t | 0 <= t < |lq'| && lq'[t].Some? && lq'[t].value.producer.Some?
      ensures exists i: nat, x: nat :: ListedBy(sq', t, i, x)
    {
      if t != s {
        var i: nat, x: nat :| ListedBy(sq, t, i, x);
        assert ListedBy(sq', t, i, x);
      }
    }
  }

  lemma WaitForwards(lq: Lq, sq: seq<SqEntry>, s: nat, e: LqEntry, j: nat)
    requires Forwards(lq, sq) && s < |lq| && j < |sq|
    requires e.producer == Some(sq[j].id)
    requires forall i :: 0 <= i < |sq| && sq[i].addr == e.addr ==> sq[i].id <= sq[j].id
    ensures Forwards(lq[s := Some(e)], sq[j := AddDependent(sq[j], s)])
  {
    var lq' := lq[s := Some(e)];
    var sq' := sq[j := AddDependent(sq[j], s)];
    forall t | 0 <= t < |lq'| && lq'[t].Some? ensures YoungestOlder(lq'[t].value, sq') {
      if t != s {
        assert YoungestOlder(lq[t].value, sq);
        forall i | 0 <= i < |sq'| && sq'[i].id < lq[t].value.id && sq'[i].addr == lq[t].value.addr
          ensures lq[t].value.producer.Some? && sq'[i].id <= lq[t].value.producer.value
        {
          assert sq[i].id == sq'[i].id && sq[i].addr == sq'[i].addr;
        }
      }
    }
  }

  /** A load whose youngest older store has not executed waits for it. */
  lemma LoadWaitsStep(rob: seq<Instr>, lq: Lq, sq: seq<SqEntry>, k: nat, s: nat, e: LqEntry, j: nat)
    requires LsqInv(rob, lq, sq) && NewLoad(rob, lq, k, s, e)
    requires j < |sq| && !sq[j].issued && sq[j].addr == e.addr && sq[j].id < e.id && e.producer == Some(sq[j].id)
    requires forall i :: 0 <= i < |sq| && sq[i].addr == e.addr ==> sq[i].id <= sq[j].id
    ensures LsqInv(rob[k := AddLoad(rob[k], e.addr, 0)], lq[s := Some(e)], sq[j := AddDependent(sq[j], s)])
  {
    var sq' := sq[j := AddDependent(sq[j], s)];
    FillCounted(rob, lq, sq, sq', k, s, e);
    FillOwned(rob, lq, sq, k, s, e);
    WaitLinked(lq, sq, s, e, j);
    WaitForwards(lq, sq, s, e, j);
  }

  /** However queueing a load ends, the invariant is kept. */
  lemma LoadStep(rob: seq<Instr>, lq: Lq, sq: seq<SqEntry>, lq': Lq, sq': seq<SqEntry>, k: nat, addr: Address, done: bool)
    requires LsqInv(rob, lq, sq) && k < |rob| && !rob[k].completed && forall j :: 0 <= j < |sq| ==> sq[j].id < rob[k].id
    requires LoadOutcome(lq, sq, lq', sq', rob[k].id, addr, done)
    ensures LsqInv(rob[k := AddLoad(rob[k], addr, One(done))], lq', sq')
  {
    hide LsqInv;
    if done {
      var j: nat :| IsYoungest(sq, addr, j) && sq[j].issued;
      LoadForwardedStep(rob, lq, sq, k, addr, j);
    } else if NoneTo(sq, addr) {
      var s: nat :| FirstFree(lq, s) && lq' == lq[s := Some(LqEntry(rob[k].id, addr, Never, false, None))];
      LoadAloneStep(rob, lq, sq, k, s, LqEntry(rob[k].id, addr, Never, false, None));
    } else {
      HasYoungest(sq, addr);
      var j: nat :| IsYoungest(sq, addr, j);
      var s: nat :| FirstFree(lq, s)
        && lq' == lq[s := Some(LqEntry(rob[k].id, addr, Never, false, Some(sq[j].id)))] && sq' == sq[j := AddDependent(sq[j], s)];
      LoadWaitsStep(rob, lq, sq, k, s, LqEntry(rob[k].id, addr, Never, false, Some(sq[j].id)), j);
    }
  }

  lemma StoreCounted(rob: seq<Instr>, lq: Lq, sq: seq<SqEntry>, k: nat, e: SqEntry)
    requires InProgramOrder(rob) && Counted(rob, lq, sq) && k < |rob| && !rob[k].completed
    requires !e.issued && e.id == rob[k].id
    ensures Counted(rob[k := AddStore(rob[k], e.addr)], lq, sq + [e])
  {
    forall id: nat ensures Unfetched(sq + [e], |sq| + 1, id) == Unfetched(sq, |sq|, id) + One(e.id == id) {
      UnfetchedFrame(sq, sq + [e], |sq|, id);
    }
    CountOne(rob, rob[k := AddStore(rob[k], e.addr)], lq, lq, sq, sq + [e], k);
  }

  lemma StoreForwards(rob: seq<Instr>, lq: Lq, sq: seq<SqEntry>, e: SqEntry)
    requires Owned(rob, lq, sq) && Forwards(lq, sq) && forall k :: 0 <= k < |rob| ==> rob[k].id <= e.id
    ensures Forwards(lq, sq + [e])
  {
    forall s | 0 <= s < |lq| && lq[s].Some? ensures YoungestOlder(lq[s].value, sq + [e]) {
      var m :| 0 <= m < |rob| && rob[m].id == lq[s].value.id;
      assert YoungestOlder(lq[s].value, sq);
    }
  }

  /** A store joins the end of the queue. */
  lemma StoreStep(rob: seq<Instr>, lq: Lq, sq: seq<SqEntry>, k: nat, e: SqEntry)
    requires LsqInv(rob, lq, sq) && k == |rob| - 1 && !rob[k].completed && e.id == rob[k].id
    requires !e.issued && e.deps == [] && forall j :: 0 <= j < |sq| ==> sq[j].id <= e.id
    ensures LsqInv(rob[k := AddStore(rob[k], e.addr)], lq, sq + [e])
  {
    ReplaceEntry(rob, lq, sq, k, AddStore(rob[k], e.addr));
    assert rob[k := AddStore(rob[k], e.addr)][k].id == e.id;
    StoreCounted(rob, lq, sq, k, e);
    StoreLinked(lq, sq, e);
    StoreForwards(rob, lq, sq, e);
    hide Counted, Linked, Forwards;
  }

  lemma StoreLinked(lq: Lq, sq: seq<SqEntry>, e: SqEntry)
    requires Linked(lq, sq) && e.deps == []
    ensures Linked(lq, sq + [e])
  {
    var sq' := sq + [e];
    forall t: nat, i: nat, x: nat ensures ListedBy(sq', t, i, x) <==> ListedBy(sq, t, i, x) {}
    forall t | 0 <= t < |lq| && lq[t].Some? && lq[t].value.producer.Some?
      ensures exists i: nat, x: nat :: ListedBy(sq', t, i, x)
    {
      var i: nat, x: nat :| ListedBy(sq, t, i, x);
      assert ListedBy(sq', t, i, x);
    }
  }

  /** A dispatched instruction starts with nothing pending. */
  lemma EnterStep(rob: seq<Instr>, lq: Lq, sq: seq<SqEntry>, i: Instr)
    requires LsqInv(rob, lq, sq) && i.NumMemOps() == 0 && i.completedMemOps == 0
    requires forall k :: 0 <= k < |rob| ==> rob[k].id < i.id
    ensures LsqInv(rob + [i], lq, sq)
  {
    var rob' := rob + [i];
    forall s | 0 <= s < |lq| && lq[s].Some? ensures HasId(rob', lq[s].value.id) && lq[s].value.id != i.id {
      var m :| 0 <= m < |rob| && rob[m].id == lq[s].value.id;
      assert rob'[m].id == lq[s].value.id;
    }
    forall j | 0 <= j < |sq| && !sq[j].issued ensures HasId(rob', sq[j].id) && sq[j].id != i.id {
      var m :| 0 <= m < |rob| && rob[m].id == sq[j].id;
      assert rob'[m].id == sq[j].id;
    }
    LiveZero(lq, |lq|, i.id);
    UnfetchedZero(sq, |sq|, i.id);
  }

  /** A live slot is one unfinished operation of its instruction. */
  lemma SlotPending(rob: seq<Instr>, lq: Lq, sq: seq<SqEntry>, s: nat, k: nat)
    requires Counted(rob, lq, sq) && s < |lq| && lq[s].Some? && k < |rob| && rob[k].id == lq[s].value.id
    ensures !rob[k].completed && rob[k].completedMemOps < rob[k].NumMemOps()
  {
    LiveZero(lq, |lq|, rob[k].id);
    assert IsLive(lq[s], rob[k].id);
  }

  lemma StorePending(rob: seq<Instr>, lq: Lq, sq: seq<SqEntry>, j: nat, k: nat)
    requires Counted(rob, lq, sq) && j < |sq| && !sq[j].issued && k < |rob| && rob[k].id == sq[j].id
    ensures !rob[k].completed && rob[k].completedMemOps < rob[k].NumMemOps()
  {
    UnfetchedZero(sq, |sq|, rob[k].id);
    assert IsUnfetched(sq[j], rob[k].id);
  }

  lemma EmptyCounted(rob: seq<Instr>, lq: Lq, sq: seq<SqEntry>, sq': seq<SqEntry>, s: nat, k: nat)
    requires InProgramOrder(rob) && Counted(rob, lq, sq)
    requires s < |lq| && lq[s].Some? && k < |rob| && rob[k].id == lq[s].value.id
    requires |sq| == |sq'| && forall j :: 0 <= j < |sq| ==> sq[j].id == sq'[j].id && sq[j].issued == sq'[j].issued
    ensures Counted(rob[k := Finished(rob[k])], lq[s := None], sq')
  {
    SlotPending(rob, lq, sq, s, k);
    forall id: nat
      ensures Live(lq[s := None], |lq|, id) + One(rob[k].id == id) == Live(lq, |lq|, id)
      ensures Unfetched(sq, |sq|, id) == Unfetched(sq', |sq|, id)
    {
      LiveUpdate(lq, |lq|, s, None, id);
      UnfetchedFrame(sq, sq', |sq|, id);
    }
    CountOne(rob, rob[k := Finished(rob[k])], lq, lq[s := None], sq, sq', k);
  }

  function ReleaseFirst(e: SqEntry): SqEntry
    requires e.deps != []
  {
    e.(deps := e.deps[1..])
  }

  lemma ReleaseLinked(lq: Lq, sq: seq<SqEntry>, j: nat)
    requires Linked(lq, sq) && j < |sq| && !sq[j].issued && sq[j].deps != []
    ensures WaitsFor(lq, sq[j].deps[0], sq[j])
    ensures Linked(lq[sq[j].deps[0] := None], sq[j := ReleaseFirst(sq[j])])
  {
    var s := sq[j].deps[0];
    assert ListedBy(sq, s, j, 0);
    var lq' := lq[s := None];
    var sq' := sq[j := ReleaseFirst(sq[j])];
    forall t: nat, i: nat, x: nat
      ensures ListedBy(sq', t, i, x) <==> t != s && ListedBy(sq, t, i, if i == j then x + 1 else x)
    {
      if ListedBy(sq', t, i, x) {
        assert ListedBy(sq, t, i, if i == j then x + 1 else x);
      }
    }
    forall t: nat, i: nat, x: nat | ListedBy(sq', t, i, x) ensures WaitsFor(lq', t, sq'[i]) {
      assert WaitsFor(lq, t, sq[i]);
    }
    forall t | 0 <= t < |lq'| && lq'[t].Some? && lq'[t].value.producer.Some?
      ensures exists i: nat, x: nat :: ListedBy(sq', t, i, x)
    {
      var i: nat, x: nat :| ListedBy(sq, t, i, x);
      assert ListedBy(sq', t, i, if i == j then x - 1 else x);
    }
  }

  lemma ForwardsKept(lq: Lq, lq': Lq, sq: seq<SqEntry>, sq': seq<SqEntry>)
    requires Forwards(lq, sq) && |lq| == |lq'| && |sq| == |sq'|
    requires forall s :: 0 <= s < |lq| && lq'[s].Some? ==>
      lq[s].Some? && lq[s].value.id == lq'[s].value.id && lq[s].value.addr == lq'[s].value.addr
      && lq[s].value.producer == lq'[s].value.producer
    requires forall j :: 0 <= j < |sq| ==> sq[j].id == sq'[j].id && sq[j].addr == sq'[j].addr
    ensures Forwards(lq', sq')
  {
    forall s | 0 <= s < |lq'| && lq'[s].Some? ensures YoungestOlder(lq'[s].value, sq') {
      assert YoungestOlder(lq[s].value, sq);
      forall j | 0 <= j < |sq'| && sq'[j].id < lq'[s].value.id && sq'[j].addr == lq'[s].value.addr
        ensures lq'[s].value.producer.Some? && sq'[j].id <= lq'[s].value.producer.value
      {
        assert sq[j].id == sq'[j].id;
      }
    }
  }

  lemma OwnedKept(rob: seq<Instr>, lq: Lq, lq': Lq, sq: seq<SqEntry>, sq': seq<SqEntry>)
    requires Owned(rob, lq, sq) && |lq| == |lq'| && |sq| == |sq'|
    requires forall s :: 0 <= s < |lq| && lq'[s].Some? ==> lq[s].Some? && lq[s].value.id == lq'[s].value.id
    requires forall j :: 0 <= j < |sq| ==> sq[j].id == sq'[j].id && (sq[j].issued ==> sq'[j].issued)
    ensures Owned(rob, lq', sq')
  {
  }

  /** Executing a store releases its first waiting load: the slot waits for exactly this store,
      and its instruction finishes one operation. */
  lemma ReleaseStep(rob: seq<Instr>, lq: Lq, sq: seq<SqEntry>, j: nat, k: nat)
    requires LsqInv(rob, lq, sq) && j < |sq| && !sq[j].issued && sq[j].deps != [] && k < |rob|
    requires WaitsFor(lq, sq[j].deps[0], sq[j]) && rob[k].id == lq[sq[j].deps[0]].value.id
    ensures LsqInv(rob[k := Finished(rob[k])], lq[sq[j].deps[0] := None], sq[j := ReleaseFirst(sq[j])])
  {
    var s := sq[j].deps[0];
    var sq' := sq[j := ReleaseFirst(sq[j])];
    ReplaceEntry(rob, lq, sq, k, Finished(rob[k]));
    EmptyCounted(rob, lq, sq, sq', s, k);
    ReleaseLinked(lq, sq, j);
    ForwardsKept(lq, lq[s := None], sq, sq');
    OwnedKept(rob[k := Finished(rob[k])], lq, lq[s := None], sq, sq');
  }

  lemma ExecutedLinked(lq: Lq, sq: seq<SqEntry>, j: nat, e: SqEntry)
    requires Linked(lq, sq) && j < |sq| && sq[j].deps == [] && e.issued && e.id == sq[j].id && e.addr == sq[j].addr
    ensures Linked(lq, sq[j := e])
  {
    var sq' := sq[j := e];
    forall t: nat, i: nat, x: nat ensures ListedBy(sq', t, i, x) <==> ListedBy(sq, t, i, x) {}
    forall t: nat, i: nat, x: nat | ListedBy(sq', t, i, x) ensures WaitsFor(lq, t, sq'[i]) {
      assert WaitsFor(lq, t, sq[i]);
    }
    forall t | 0 <= t < |lq| && lq[t].Some? && lq[t].value.producer.Some?
      ensures exists i: nat, x: nat :: ListedBy(sq', t, i, x)
    {
      var i: nat, x: nat :| ListedBy(sq, t, i, x);
      assert ListedBy(sq', t, i, x);
    }
  }

  /** The oldest unexecuted store, with no load left to release, becomes executed. */
  lemma StoreExecutedStep(rob: seq<Instr>, lq: Lq, sq: seq<SqEntry>, j: nat, k: nat, e: SqEntry)
    requires LsqInv(rob, lq, sq) && j < |sq| && !sq[j].issued && sq[j].deps == []
    requires forall i :: 0 <= i < j ==> sq[i].issued
    requires k < |rob| && rob[k].id == sq[j].id && e.issued && e.id == sq[j].id && e.addr == sq[j].addr
    ensures LsqInv(rob[k := Finished(rob[k])], lq, sq[j := e])
  {
    var sq' := sq[j := e];
    ReplaceEntry(rob, lq, sq, k, Finished(rob[k]));
    StorePending(rob, lq, sq, j, k);
    forall id: nat ensures Unfetched(sq', |sq|, id) + One(rob[k].id == id) == Unfetched(sq, |sq|, id) {
      UnfetchedUpdate(sq, |sq|, j, e, id);
    }
    CountOne(rob, rob[k := Finished(rob[k])], lq, lq, sq, sq', k);
    ExecutedLinked(lq, sq, j, e);
    ForwardsKept(lq, lq, sq, sq');
    OwnedKept(rob[k := Finished(rob[k])], lq, lq, sq, sq');
  }

  lemma SlotLinked(lq: Lq, lq': Lq, sq: seq<SqEntry>, s: nat)
    requires Linked(lq, sq) && s < |lq| == |lq'| && lq' == lq[s := lq'[s]]
    requires lq[s].Some? && lq[s].value.producer.None?
    requires lq'[s].None? || lq'[s].value.producer.None?
    ensures Linked(lq', sq)
  {
    forall t: nat, i: nat, x: nat | ListedBy(sq, t, i, x) ensures WaitsFor(lq', t, sq[i]) {
      assert WaitsFor(lq, t, sq[i]);
    }
  }

  /** A load that waits for no store may be sent to the cache. */
  lemma IssueStep(rob: seq<Instr>, lq: Lq, sq: seq<SqEntry>, s: nat)
    requires LsqInv(rob, lq, sq) && s < |lq| && lq[s].Some? && lq[s].value.producer.None?
    ensures LsqInv(rob, lq[s := Some(lq[s].value.(issued := true))], sq)
  {
    var lq' := lq[s := Some(lq[s].value.(issued := true))];
    SlotLinked(lq, lq', sq, s);
    ForwardsKept(lq, lq', sq, sq);
    OwnedKept(rob, lq, lq', sq, sq);
    forall id: nat ensures Live(lq', |lq|, id) == Live(lq, |lq|, id) {
      LiveFrame(lq, lq', |lq|, id);
    }
  }

  /** A load that was sent to the cache waits for no store. */
  lemma IssuedWaitsForNone(lq: Lq, sq: seq<SqEntry>, s: nat)
    requires Linked(lq, sq) && s < |lq| && lq[s].Some? && lq[s].value.issued
    ensures lq[s].value.producer.None?
  {
  }

  /** The cache's answer finishes an issued load. */
  lemma ReturnStep(rob: seq<Instr>, lq: Lq, sq: seq<SqEntry>, s: nat, k: nat)
    requires LsqInv(rob, lq, sq) && s < |lq| && lq[s].Some? && lq[s].value.issued
    requires k < |rob| && rob[k].id == lq[s].value.id
    ensures LsqInv(rob[k := Finished(rob[k])], lq[s := None], sq)
  {
    IssuedWaitsForNone(lq, sq, s);
    ReplaceEntry(rob, lq, sq, k, Finished(rob[k]));
    EmptyCounted(rob, lq, sq, sq, s, k);
    SlotLinked(lq, lq[s := None], sq, s);
    ForwardsKept(lq, lq[s := None], sq, sq);
    OwnedKept(rob[k := Finished(rob[k])], lq, lq[s := None], sq, sq);
  }

  lemma EraseLinked(lq: Lq, sq: seq<SqEntry>, m: nat)
    requires Linked(lq, sq) && m <= |sq| && forall j :: 0 <= j < m ==> sq[j].issued
    ensures Linked(lq, sq[m..])
  {
    var sq' := sq[m..];
    forall t: nat, i: nat, x: nat ensures ListedBy(sq', t, i, x) <==> ListedBy(sq, t, i + m, x) {}
    forall t: nat, i: nat, x: nat | ListedBy(sq', t, i, x) ensures WaitsFor(lq, t, sq'[i]) {
      assert ListedBy(sq, t, i + m, x);
      assert WaitsFor(lq, t, sq[i + m]);
    }
    forall t | 0 <= t < |lq| && lq[t].Some? && lq[t].value.producer.Some?
      ensures exists i: nat, x: nat :: ListedBy(sq', t, i, x)
    {
      var i: nat, x: nat :| ListedBy(sq, t, i, x);
      assert ListedBy(sq', t, i - m, x);
    }
    forall t: nat, i: nat, x: nat, i': nat, x': nat | ListedBy(sq', t, i, x) && ListedBy(sq', t, i', x')
      ensures i == i' && x == x'
    {
      assert ListedBy(sq, t, i + m, x) && ListedBy(sq, t, i' + m, x');
    }
  }

  /** Executed stores leave the queue from the front. */
  lemma EraseStep(rob: seq<Instr>, lq: Lq, sq: seq<SqEntry>, m: nat)
    requires LsqInv(rob, lq, sq) && m <= |sq| && forall j :: 0 <= j < m ==> sq[j].issued
    ensures LsqInv(rob, lq, sq[m..])
  {
    var sq' := sq[m..];
    EraseLinked(lq, sq, m);
    forall id: nat ensures Unfetched(sq', |sq'|, id) == Unfetched(sq, |sq|, id) {
      UnfetchedDrop(sq, m, |sq|, id);
    }
    forall s | 0 <= s < |lq| && lq[s].Some? ensures YoungestOlder(lq[s].value, sq') {
      assert YoungestOlder(lq[s].value, sq);
    }
  }

  ghost predicate SameMemory(i: Instr, j: Instr) {
    i.id == j.id && i.completedMemOps == j.completedMemOps && i.dstMem == j.dstMem && i.srcMem == j.srcMem
  }

  ghost predicate SameButReady(lq: Lq, lq': Lq, sq: seq<SqEntry>, sq': seq<SqEntry>) {
    && |lq| == |lq'| && |sq| == |sq'|
    && (forall s :: 0 <= s < |lq| ==> lq[s].Some? == lq'[s].Some?)
    && (forall s :: 0 <= s < |lq| && lq[s].Some? ==> lq'[s].value == lq[s].value.(ready := lq'[s].value.ready))
    && (forall j :: 0 <= j < |sq| ==> sq'[j] == sq[j].(ready := sq'[j].ready))
  }

  lemma ReadyLinked(lq: Lq, lq': Lq, sq: seq<SqEntry>, sq': seq<SqEntry>)
    requires Linked(lq, sq) && SameButReady(lq, lq', sq, sq')
    ensures Linked(lq', sq')
  {
    forall t: nat, i: nat, x: nat ensures ListedBy(sq', t, i, x) <==> ListedBy(sq, t, i, x) {}
    forall t: nat, i: nat, x: nat | ListedBy(sq', t, i, x) ensures WaitsFor(lq', t, sq'[i]) {
      assert WaitsFor(lq, t, sq[i]);
    }
    forall t | 0 <= t < |lq'| && lq'[t].Some? && lq'[t].value.producer.Some?
      ensures exists i: nat, x: nat :: ListedBy(sq', t, i, x)
    {
      var i: nat, x: nat :| ListedBy(sq, t, i, x);
      assert ListedBy(sq', t, i, x);
    }
  }

  /** The invariant does not read event times or the register part of entries, and an entry
      with all its operations finished may be marked completed. */
  lemma MemoryFrame(rob: seq<Instr>, rob': seq<Instr>, lq: Lq, lq': Lq, sq: seq<SqEntry>, sq': seq<SqEntry>)
    requires LsqInv(rob, lq, sq) && SameButReady(lq, lq', sq, sq') && |rob| == |rob'|
    requires forall k :: 0 <= k < |rob| ==> SameMemory(rob[k], rob'[k])
    requires forall k :: 0 <= k < |rob| && rob'[k].completed ==>
      rob[k].completed || rob[k].completedMemOps == rob[k].NumMemOps()
    ensures LsqInv(rob', lq', sq')
  {
    ReadyLinked(lq, lq', sq, sq');
    ForwardsKept(lq, lq', sq, sq');
    forall id: nat
      ensures Live(lq', |lq|, id) == Live(lq, |lq|, id)
      ensures Unfetched(sq', |sq|, id) == Unfetched(sq, |sq|, id)
    {
      LiveFrame(lq, lq', |lq|, id);
      UnfetchedFrame(sq, sq', |sq|, id);
    }
    forall id: nat ensures HasId(rob, id) <==> HasId(rob', id) {
      OwnersKept(rob, rob', id);
    }
  }

  /** A completed instruction has nothing pending, so it can leave the reorder buffer. */
  lemma RetireMemoryStep(rob: seq<Instr>, lq: Lq, sq: seq<SqEntry>)
    requires LsqInv(rob, lq, sq) && rob != [] && rob[0].completed
    ensures LsqInv(rob[1..], lq, sq)
  {
    LiveZero(lq, |lq|, rob[0].id);
    UnfetchedZero(sq, |sq|, rob[0].id);
    forall s | 0 <= s < |lq| && lq[s].Some? ensures HasId(rob[1..], lq[s].value.id) {
      assert !IsLive(lq[s], rob[0].id);
      var m :| 0 <= m < |rob| && rob[m].id == lq[s].value.id;
      assert rob[1..][m - 1].id == lq[s].value.id;
    }
    forall j | 0 <= j < |sq| && !sq[j].issued ensures HasId(rob[1..], sq[j].id) {
      assert !IsUnfetched(sq[j], rob[0].id);
      var m :| 0 <= m < |rob| && rob[m].id == sq[j].id;
      assert rob[1..][m - 1].id == sq[j].id;
    }
  }

  // ---- what the invariant means ----------------------------------------------------------

  /** A store older than every reorder-buffer entry has executed: this is why the queue may
      write it to the cache without looking at its flag. */
  lemma RetiredStoresExecuted(rob: seq<Instr>, lq: Lq, sq: seq<SqEntry>, j: nat)
    requires LsqInv(rob, lq, sq) && j < |sq| && (rob == [] || sq[j].id < rob[0].id)
    ensures sq[j].issued
  {
  }

  /** Forwarding is sound: a load waits for a store exactly when a store lists it. Then one store
      does, once: the youngest older store to its address, unexecuted; and the load is not sent
      to the cache. */
  lemma ForwardingIsSound(rob: seq<Instr>, lq: Lq, sq: seq<SqEntry>, s: nat)
    requires LsqInv(rob, lq, sq) && s < |lq| && lq[s].Some?
    ensures lq[s].value.producer.Some? <==> exists j: nat, x: nat :: ListedBy(sq, s, j, x)
    ensures forall j: nat, x: nat, j': nat, x': nat :: ListedBy(sq, s, j, x) && ListedBy(sq, s, j', x') ==> j == j' && x == x'
    ensures forall j: nat, x: nat :: ListedBy(sq, s, j, x) ==>
      lq[s].value.producer == Some(sq[j].id) && !lq[s].value.issued && YoungestMatch(lq[s].value, sq, j)
  {
    forall j: nat, x: nat | ListedBy(sq, s, j, x) ensures WaitsFor(lq, s, sq[j]) && YoungestMatch(lq[s].value, sq, j) {
      assert YoungestOlder(lq[s].value, sq);
    }
  }

  /** Store `j` is older than the load, to its address, and no such store is younger. */
  ghost predicate YoungestMatch(e: LqEntry, sq: seq<SqEntry>, j: nat)
    requires j < |sq|
  {
    && sq[j].id < e.id && sq[j].addr == e.addr
    && forall i :: 0 <= i < |sq| && sq[i].id < e.id && sq[i].addr == e.addr ==> sq[i].id <= sq[j].id
  }

  /** A load sent to the cache has no older store to its address in the queue. */
  lemma IssuedLoadHasNoOlderStore(rob: seq<Instr>, lq: Lq, sq: seq<SqEntry>, s: nat, j: nat)
    requires LsqInv(rob, lq, sq) && s < |lq| && lq[s].Some? && lq[s].value.issued && j < |sq|
    ensures sq[j].addr == lq[s].value.addr ==> sq[j].id >= lq[s].value.id
  {
    IssuedWaitsForNone(lq, sq, s);
    assert YoungestOlder(lq[s].value, sq);
  }

  /** Empty queues satisfy the invariant. */
  lemma InitialMemory(slots: nat)
    ensures LsqInv([], EmptySlots(slots), [])
  {
  }
}
