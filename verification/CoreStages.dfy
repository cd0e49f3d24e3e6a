/** The stages of the core as relations between its state before and after, and what one cycle,
    which runs each of them once, does to an instruction. */
module CoreStages {
  import opened Prelude
  import opened Instruction
  import opened RegisterAllocation
  import opened Renaming
  import opened LoadStoreQueue
  import opened ProgramOrder
  import opened FetchStall

  /** Buffer sizes, widths and latencies, as the core's builder fixes them. */
  datatype Config = Config(
    ifetchBufferSize: nat, decodeBufferSize: nat, dibHitBufferSize: nat, dispatchBufferSize: nat,
    robSize: nat, lqSize: nat, sqSize: nat, registerFileSize: nat,
    fetchWidth: nat, decodeWidth: nat, dibInorderWidth: nat, dispatchWidth: nat, schedulerSize: nat,
    execWidth: nat, lqWidth: nat, sqWidth: nat, retireWidth: nat, l1dBandwidth: nat,
    decodeLatency: nat, dibHitLatency: nat, dispatchLatency: nat, schedulingLatency: nat, execLatency: nat,
    mispredictPenalty: nat)

  /** The core's state as a value. */
  datatype Core = Core(
    now: nat, warmup: bool, numRetired: nat, fetchResume: Ready, inputQueue: seq<Instr>, ifetch: seq<Instr>,
    dibHit: seq<Instr>, decode: seq<Instr>, dispatch: seq<Instr>, rob: seq<Instr>, lq: Lq, sq: seq<SqEntry>,
    regs: Alloc, retired: seq<Instr>, program: seq<Op>, written: seq<SqEntry>)
  {
    function Latency(cycles: nat): nat {
      if warmup then 0 else cycles
    }
  }

  /** What is left of a buffer of `size` entries that holds `used`. */
  function Room(size: nat, used: nat): nat {
    if used < size then size - used else 0
  }

  // ---- retirement and completion ---------------------------------------------------------------

  /** The completed entries at the head of the reorder buffer, up to `width`. */
  function CompletedSpan(rob: seq<Instr>, width: nat): (n: nat)
    ensures n <= |rob| && n <= width && forall k :: 0 <= k < n ==> rob[k].completed
    ensures n < |rob| && n < width ==> !rob[n].completed
  {
    Span(rob, width, (x: Instr) => x.completed)
  }

  predicate CanComplete(i: Instr, now: nat) {
    i.executed && !i.completed && i.ready <= now && i.completedMemOps == i.NumMemOps()
  }

  /** Some mispredicted branch completed. */
  ghost predicate SettlesAny(rob: seq<Instr>, rob': seq<Instr>) {
    exists k :: 0 <= k < |rob| && k < |rob'| && rob'[k].completed && !rob[k].completed && rob'[k].branch.mispredicted
  }

  lemma SettlesNone(rob: seq<Instr>)
    ensures !SettlesAny(rob, rob)
  {
  }

  lemma SettlesStep(rob: seq<Instr>, rob': seq<Instr>, k: nat, rob'': seq<Instr>)
    requires |rob| == |rob'| && k < |rob| && !rob[k].completed && !rob'[k].completed
    requires rob'' == rob'[k := rob'[k].(completed := true)]
    ensures SettlesAny(rob, rob'') <==> SettlesAny(rob, rob') || rob'[k].branch.mispredicted
  {
    if j :| 0 <= j < |rob| && rob'[j].completed && !rob[j].completed && rob'[j].branch.mispredicted {
      assert rob''[j] == rob'[j];
    }
    if rob'[k].branch.mispredicted {
      assert rob''[k].completed;
    }
  }

  /** How many of the first `n` entries can complete. */
  function Completable(rob: seq<Instr>, n: nat, now: nat): nat
    requires n <= |rob|
  {
    if n == 0 then 0 else Completable(rob, n - 1, now) + One(CanComplete(rob[n - 1], now))
  }

  /** Among the first `n` entries, those that can complete do. */
  ghost predicate CompletesUpTo(rob: seq<Instr>, rob': seq<Instr>, n: nat, now: nat) {
    && n <= |rob| == |rob'|
    && forall k :: 0 <= k < |rob| ==> rob'[k] == if k < n && CanComplete(rob[k], now) then rob[k].(completed := true) else rob[k]
  }

  lemma CompletesNext(rob: seq<Instr>, rob': seq<Instr>, n: nat, now: nat)
    requires CompletesUpTo(rob, rob', n, now) && n < |rob|
    ensures rob'[n] == rob[n]
    ensures CompletesUpTo(rob, if CanComplete(rob[n], now) then rob'[n := rob'[n].(completed := true)] else rob', n + 1, now)
  {
    hide CanComplete;
  }

  lemma CompletesNone(rob: seq<Instr>, now: nat)
    ensures CompletesUpTo(rob, rob, 0, now)
  {
  }

  /** The completed entries at the head retire, in order, up to the retirement width. */
  ghost predicate Retires(c: Config, v: Core, w: Core) {
    var n := CompletedSpan(v.rob, c.retireWidth);
    w == v.(rob := v.rob[n..], retired := v.retired + v.rob[..n], numRetired := v.numRetired + n, regs := w.regs)
  }

  /** The entries before `stop` that can complete do; the scan ends with the execution width or
      the buffer. A mispredicted branch among them resumes fetch after the penalty. */
  ghost predicate Completes(c: Config, v: Core, w: Core, stop: nat) {
    && stop <= |v.rob| && Completable(v.rob, stop, v.now) <= c.execWidth
    && (stop == |v.rob| || Completable(v.rob, stop, v.now) == c.execWidth)
    && CompletesUpTo(v.rob, w.rob, stop, v.now)
    && w == v.(rob := w.rob, regs := v.regs.(file := w.regs.file),
               fetchResume := if SettlesAny(v.rob, w.rob) then At(v.now + c.mispredictPenalty) else v.fetchResume)
  }

  // ---- execution and scheduling ----------------------------------------------------------------

  /** How many of the first `n` entries have not executed. */
  function Unexecuted(rob: seq<Instr>, n: nat): nat
    requires n <= |rob|
  {
    if n == 0 then 0 else Unexecuted(rob, n - 1) + if rob[n - 1].executed then 0 else 1
  }

  lemma {:induction false} SameUnexecuted(rob: seq<Instr>, rob': seq<Instr>, n: nat)
    requires n <= |rob| == |rob'| && forall k :: 0 <= k < n ==> rob[k].executed == rob'[k].executed
    ensures Unexecuted(rob, n) == Unexecuted(rob', n)
  {
    if n > 0 {
      SameUnexecuted(rob, rob', n - 1);
    }
  }

  /** Fewer registers are free than the entry may need. */
  ghost predicate OutOfRegisters(a: Alloc, i: Instr) {
    |a.free| < Unmapped(a.frontend, i.src, 0) + |i.dst|
  }

  predicate IsUnmapped(rat: seq<int>, r: int) {
    0 <= r < |rat| && rat[r] < 0
  }

  /** How many of `names[m..]` the table does not map. */
  function Unmapped(rat: seq<int>, names: seq<int>, m: nat): nat
    requires m <= |names|
    decreases |names| - m
  {
    if m == |names| then 0 else (if IsUnmapped(rat, names[m]) then 1 else 0) + Unmapped(rat, names, m + 1)
  }

  lemma {:induction false} UnmappedShrinks(rat: seq<int>, r: nat, p: int, names: seq<int>, m: nat)
    requires m <= |names| && r < |rat| && p >= 0
    ensures Unmapped(rat[r := p], names, m) <= Unmapped(rat, names, m)
    decreases |names| - m
  {
    if m < |names| {
      UnmappedShrinks(rat, r, p, names, m + 1);
    }
  }

  /** A scheduled entry whose time has come and whose source registers are all valid. */
  ghost predicate CanStart(regs: Alloc, i: Instr, now: nat) {
    i.scheduled && !i.executed && i.ready <= now && SourcesValid(regs, i)
  }

  ghost function Startable(regs: Alloc, rob: seq<Instr>, n: nat, now: nat): nat
    requires n <= |rob|
  {
    if n == 0 then 0 else Startable(regs, rob, n - 1, now) + One(CanStart(regs, rob[n - 1], now))
  }

  /** Instruction `id` is among the first `n` entries and starts. */
  ghost predicate StartsId(regs: Alloc, rob: seq<Instr>, n: nat, now: nat, id: nat)
    requires n <= |rob|
  {
    exists k :: 0 <= k < n && rob[k].id == id && CanStart(regs, rob[k], now)
  }

  /** Among the first `n` entries, those that can start do. */
  ghost predicate Starts(regs: Alloc, rob: seq<Instr>, rob': seq<Instr>, n: nat, now: nat, ready: nat) {
    && n <= |rob| == |rob'|
    && forall k :: 0 <= k < |rob| ==>
      rob'[k] == if k < n && CanStart(regs, rob[k], now) then rob[k].(executed := true, ready := ready) else rob[k]
  }

  lemma StartsNext(regs: Alloc, rob: seq<Instr>, rob': seq<Instr>, n: nat, now: nat, ready: nat)
    requires Starts(regs, rob, rob', n, now, ready) && n < |rob|
    ensures rob'[n] == rob[n]
    ensures Starts(regs, rob, if CanStart(regs, rob[n], now) then rob'[n := rob'[n].(executed := true, ready := ready)] else rob',
                   n + 1, now, ready)
  {
    hide CanStart;
  }

  lemma StartsNone(regs: Alloc, rob: seq<Instr>, now: nat, ready: nat)
    ensures Starts(regs, rob, rob, 0, now, ready)
  {
  }

  /** The loads and stores of the instructions that start become ready with them. */
  ghost predicate StartsMemory(regs: Alloc, rob: seq<Instr>, n: nat, now: nat, ready: Ready, lq: Lq, lq': Lq, sq: seq<SqEntry>,
                               sq': seq<SqEntry>)
    requires n <= |rob|
  {
    && |lq| == |lq'| && |sq| == |sq'|
    && (forall s :: 0 <= s < |lq| ==>
          lq'[s] == if lq[s].Some? && StartsId(regs, rob, n, now, lq[s].value.id) then Some(lq[s].value.(ready := ready)) else lq[s])
    && (forall j :: 0 <= j < |sq| ==>
          sq'[j] == if StartsId(regs, rob, n, now, sq[j].id) then sq[j].(ready := ready) else sq[j])
  }

  /** The entries before `stop` that can start do, with their loads and stores. */
  ghost predicate Executes(c: Config, v: Core, w: Core, stop: nat) {
    && stop <= |v.rob| && Startable(v.regs, v.rob, stop, v.now) <= c.execWidth
    && (stop == |v.rob| || Startable(v.regs, v.rob, stop, v.now) == c.execWidth)
    && Starts(v.regs, v.rob, w.rob, stop, v.now, v.now + v.Latency(c.execLatency))
    && StartsMemory(v.regs, v.rob, stop, v.now, At(v.now + v.Latency(c.execLatency)), v.lq, w.lq, v.sq, w.sq)
    && w == v.(rob := w.rob, lq := w.lq, sq := w.sq)
  }

  predicate CanSchedule(i: Instr, now: nat) {
    !i.scheduled && i.ready <= now
  }

  /** The scan meets entry `k` with `allocs[k]`: enough registers are free, and they are taken
      only if the entry is scheduled. */
  ghost predicate ScanStep(rob: seq<Instr>, allocs: seq<Alloc>, k: nat, now: nat)
    requires k < |rob| && k + 1 < |allocs|
  {
    !OutOfRegisters(allocs[k], rob[k]) && (CanSchedule(rob[k], now) || allocs[k + 1] == allocs[k])
  }

  lemma ScanNext(rob: seq<Instr>, allocs: seq<Alloc>, a: Alloc, k: nat, now: nat)
    requires k < |rob| && |allocs| == k + 1 && !OutOfRegisters(allocs[k], rob[k]) && (CanSchedule(rob[k], now) || a == allocs[k])
    requires forall j :: 0 <= j < k ==> ScanStep(rob, allocs, j, now)
    ensures forall j :: 0 <= j < k + 1 ==> ScanStep(rob, allocs + [a], j, now)
  {
    hide OutOfRegisters;
    forall j | 0 <= j < k ensures ScanStep(rob, allocs + [a], j, now) {
      assert ScanStep(rob, allocs, j, now);
    }
  }

  /** Among the first `n` entries, those that can be scheduled are. */
  ghost predicate ScheduledUpTo(rob: seq<Instr>, rob': seq<Instr>, n: nat, now: nat) {
    && n <= |rob| == |rob'|
    && forall k :: 0 <= k < |rob| ==>
      rob'[k] == if k < n && CanSchedule(rob[k], now) then rob[k].(src := rob'[k].src, dst := rob'[k].dst, scheduled := true) else rob[k]
  }

  lemma ScheduledNext(rob: seq<Instr>, rob': seq<Instr>, rob'': seq<Instr>, n: nat, now: nat)
    requires ScheduledUpTo(rob, rob', n, now) && n < |rob| && |rob'| == |rob''|
    requires if CanSchedule(rob'[n], now)
      then rob'' == rob'[n := rob'[n].(src := rob''[n].src, dst := rob''[n].dst, scheduled := true)] else rob'' == rob'
    ensures ScheduledUpTo(rob, rob'', n + 1, now)
  {
    hide CanSchedule;
  }

  lemma NotYetScheduled(rob: seq<Instr>, rob': seq<Instr>, n: nat, now: nat)
    requires ScheduledUpTo(rob, rob', n, now) && n < |rob|
    ensures rob'[n] == rob[n]
  {
  }

  lemma ScheduledNone(rob: seq<Instr>, now: nat)
    ensures ScheduledUpTo(rob, rob, 0, now)
  {
  }

  /** The unscheduled entries before `stop` whose time has come are scheduled; the scan ends with
      the buffer, with the search width spent on unexecuted entries, or where registers may not
      suffice. */
  ghost predicate Schedules(c: Config, v: Core, w: Core, allocs: seq<Alloc>) {
    && 1 <= |allocs| <= |v.rob| + 1
    && var stop := |allocs| - 1;
    && allocs[0] == v.regs && allocs[stop] == w.regs
    && (forall k :: 0 <= k < stop ==> ScanStep(v.rob, allocs, k, v.now))
    && ScheduledUpTo(v.rob, w.rob, stop, v.now)
    && Unexecuted(v.rob, stop) <= c.schedulerSize
    && (stop == |v.rob| || Unexecuted(v.rob, stop) == c.schedulerSize || OutOfRegisters(w.regs, v.rob[stop]))
    && w == v.(rob := w.rob, regs := w.regs)
  }

  // ---- the memory system -----------------------------------------------------------------------

  const BLOCK_SIZE: nat := 64

  /** Only finished-operation counts differ. */
  ghost predicate OnlyMemOps(rob: seq<Instr>, rob': seq<Instr>) {
    && |rob| == |rob'|
    && forall k :: 0 <= k < |rob| ==> rob'[k] == rob[k].(completedMemOps := rob'[k].completedMemOps)
  }

  /** A returned block answers the loads that were sent for it. */
  predicate Answers(e: Option<LqEntry>, addr: Address) {
    e.Some? && e.value.issued && BlockOf(e.value.addr, BLOCK_SIZE) == BlockOf(addr, BLOCK_SIZE)
  }

  predicate AnsweredBy(e: Option<LqEntry>, returned: seq<Address>, n: nat)
    requires n <= |returned|
  {
    exists i :: 0 <= i < n && Answers(e, returned[i])
  }

  /** The stores from `from` on that are ready, up to `width`. */
  function StoreSpan(sq: seq<SqEntry>, from: nat, width: nat, now: nat): (n: nat)
    requires from <= |sq|
    ensures from + n <= |sq| && n <= width
    ensures forall j :: from <= j < from + n ==> !sq[j].issued && sq[j].ready.By(now)
    ensures from + n < |sq| && n < width && !sq[from + n].issued ==> !sq[from + n].ready.By(now)
  {
    var rest := sq[from..];
    var n := Span(rest, width, (x: SqEntry) => !x.issued && x.ready.By(now));
    assert forall j :: from <= j < |sq| ==> sq[j] == rest[j - from];
    n
  }

  /** The queue after the stores `sq[from..from + n]` executed. */
  function Executed(sq: seq<SqEntry>, from: nat, n: nat, now: nat): (r: seq<SqEntry>)
    ensures |r| == |sq|
  {
    seq(|sq|, j requires 0 <= j < |sq| => if from <= j < from + n then sq[j].(issued := true, ready := At(now)) else sq[j])
  }

  /** The stores that have executed come first in the queue. */
  function IssuedSpan(sq: seq<SqEntry>): (n: nat)
    ensures n <= |sq| && (forall i :: 0 <= i < n ==> sq[i].issued) && (n < |sq| ==> !sq[n].issued)
  {
    Span(sq, |sq|, (x: SqEntry) => x.issued)
  }

  lemma OnlyIssuedSpan(sq: seq<SqEntry>, n: nat)
    requires n <= |sq| && (forall i :: 0 <= i < n ==> sq[i].issued) && (n < |sq| ==> !sq[n].issued)
    ensures n == IssuedSpan(sq)
  {
  }

  /** The stores at the head of the queue that are ready and older than the whole reorder
      buffer, up to `width`. */
  function WritableSpan(sq: seq<SqEntry>, rob: seq<Instr>, width: nat, now: nat): (n: nat)
    ensures n <= |sq| && n <= width && forall j :: 0 <= j < n ==> sq[j].ready.By(now) && (rob == [] || sq[j].id < rob[0].id)
    ensures n < |sq| && n < width ==> !(sq[n].ready.By(now) && (rob == [] || sq[n].id < rob[0].id))
  {
    Span(sq, width, (x: SqEntry) => x.ready.By(now) && (rob == [] || x.id < rob[0].id))
  }

  /** Slot `s` waits for one of the stores `sq[from..from + n]`. */
  predicate Released(sq: seq<SqEntry>, from: nat, n: nat, s: nat)
    requires from + n <= |sq|
  {
    exists j :: from <= j < from + n && s in sq[j].deps
  }

  /** A load that waits for no store, has not been sent yet, and became ready in an earlier
      cycle, may be sent to the cache. */
  predicate CanSend(e: Option<LqEntry>, now: nat) {
    e.Some? && e.value.producer.None? && !e.value.issued && e.value.ready.At? && e.value.ready.time < now
  }

  function Sendable(lq: Lq, n: nat, now: nat): nat
    requires n <= |lq|
  {
    if n == 0 then 0 else Sendable(lq, n - 1, now) + One(CanSend(lq[n - 1], now))
  }

  /** Among the first `n` slots, the first `width` loads that may be sent are sent. */
  ghost predicate Sends(lq: Lq, lq': Lq, n: nat, width: nat, now: nat) {
    && n <= |lq| == |lq'|
    && forall s :: 0 <= s < |lq| ==>
      lq'[s] == if s < n && CanSend(lq[s], now) && Sendable(lq, s, now) < width then Some(lq[s].value.(issued := true)) else lq[s]
  }

  lemma CanSendIsLive(e: Option<LqEntry>, now: nat)
    ensures CanSend(e, now) ==> e.Some?
  {
  }

  lemma SendsNone(lq: Lq, width: nat, now: nat)
    ensures Sends(lq, lq, 0, width, now)
  {
  }

  lemma SendsNext(lq: Lq, lq': Lq, n: nat, width: nat, now: nat)
    requires Sends(lq, lq', n, width, now) && n < |lq|
    ensures lq'[n] == lq[n]
    ensures Sends(lq, if CanSend(lq[n], now) && Sendable(lq, n, now) < width then lq'[n := Some(lq[n].value.(issued := true))] else lq',
                  n + 1, width, now)
  {
    hide CanSend, Sendable;
    assert CanSend(lq[n], now) ==> lq[n].Some? by { CanSendIsLive(lq[n], now); }
    var lq'' := if CanSend(lq[n], now) && Sendable(lq, n, now) < width then lq'[n := Some(lq[n].value.(issued := true))] else lq';
    forall s | 0 <= s < |lq| && s != n ensures lq''[s] == lq'[s] {}
  }

  /** The executing stores release the loads that wait for them. */
  ghost predicate Releases(lq: Lq, lq': Lq, sq: seq<SqEntry>, from: nat, n: nat)
    requires from + n <= |sq|
  {
    |lq| == |lq'| && forall s :: 0 <= s < |lq| ==> lq'[s] == if Released(sq, from, n, s) then None else lq[s]
  }

  /** Instructions arrive in the fetch buffer, from the decoded-instruction buffer or the
      instruction cache. */
  ghost predicate Arrives(v: Core, w: Core, hit: set<nat>, arrived: set<nat>) {
    && |v.ifetch| == |w.ifetch|
    && (forall k :: 0 <= k < |v.ifetch| ==> w.ifetch[k] == Fetched(v.ifetch[k], hit, arrived, v.now))
    && w == v.(ifetch := w.ifetch)
  }

  /** The loads sent for the returned blocks, as many as the data-cache bandwidth allows, leave
      the load queue. */
  ghost predicate Answered(c: Config, v: Core, w: Core, returned: seq<Address>) {
    && OnlyMemOps(v.rob, w.rob) && |v.lq| == |w.lq|
    && (forall s :: 0 <= s < |v.lq| ==>
          w.lq[s] == if AnsweredBy(v.lq[s], returned, Min(c.l1dBandwidth, |returned|)) then None else v.lq[s])
    && w == v.(rob := w.rob, lq := w.lq)
  }

  /** The stores that are ready execute and release their loads, and those of retired
      instructions are written; the cache has room for `room` of them. */
  ghost predicate StoresOperate(c: Config, v: Core, w: Core, room: nat) {
    var from := IssuedSpan(v.sq);
    var n := StoreSpan(v.sq, from, c.sqWidth, v.now);
    var stores := Executed(v.sq, from, n, v.now);
    var done := WritableSpan(stores, v.rob, Min(c.sqWidth - n, room), v.now);
    && Releases(v.lq, w.lq, v.sq, from, n) && OnlyMemOps(v.rob, w.rob)
    && w == v.(rob := w.rob, lq := w.lq, sq := stores[done..], written := v.written + stores[..done])
  }

  /** The stores operate, then loads are sent; the cache has room for `loadRoom` of them. */
  ghost predicate MemoryOperates(c: Config, v: Core, w: Core, loadRoom: nat, storeRoom: nat, released: Lq) {
    StoresOperate(c, v, w.(lq := released), storeRoom) && Sends(released, w.lq, |released|, Min(c.lqWidth, loadRoom), v.now)
  }

  // ---- dispatch --------------------------------------------------------------------------------

  /** Free load-queue slots among the first `k`. */
  ghost function FreeSlots(lq: Lq, k: nat): nat
    requires k <= |lq|
  {
    if k == 0 then 0 else FreeSlots(lq, k - 1) + One(lq[k - 1].None?)
  }

  lemma {:induction false} FreeSlotsUpdate(lq: Lq, k: nat, s: nat, e: Option<LqEntry>)
    requires k <= |lq| && s < |lq| && e.Some?
    ensures FreeSlots(lq[s := e], k) + 1 >= FreeSlots(lq, k)
    ensures k <= s ==> FreeSlots(lq[s := e], k) == FreeSlots(lq, k)
  {
    if k > 0 {
      FreeSlotsUpdate(lq, k - 1, s, e);
    }
  }

  /** The two memory queues while instructions are dispatched. */
  datatype Queues = Queues(lq: Lq, sq: seq<SqEntry>)

  /** The dispatch buffer's head may enter a reorder buffer of `used` entries. */
  ghost predicate MayDispatch(c: Config, i: Instr, used: nat, q: Queues, now: nat) {
    && i.ready <= now && used != c.robSize
    && FreeSlots(q.lq, |q.lq|) >= |i.srcMem| && |i.dstMem| + |q.sq| <= c.sqSize
  }

  /** Instruction `i` became entry `j`: its loads are placed and its stores queued. */
  ghost predicate DispatchedAs(i: Instr, j: Instr, q: Queues, q': Queues, ready: nat) {
    && j == i.(completedMemOps := j.completedMemOps, ready := ready)
    && Enters(i, q.lq, q.sq, q'.lq, q'.sq, j.completedMemOps)
  }

  /** The first `n` instructions of the dispatch buffer have entered `rob`, while the queues went
      through `qs`. */
  ghost predicate Dispatched(c: Config, v: Core, rob: seq<Instr>, qs: seq<Queues>, n: nat) {
    && n <= |v.dispatch| && |qs| == n + 1 && qs[0] == Queues(v.lq, v.sq)
    && |rob| == |v.rob| + n && rob[..|v.rob|] == v.rob
    && (forall k :: 0 <= k < n ==> MayDispatch(c, v.dispatch[k], |v.rob| + k, qs[k], v.now))
    && (forall k :: 0 <= k < n ==>
          DispatchedAs(v.dispatch[k], rob[|v.rob| + k], qs[k], qs[k + 1], v.now + v.Latency(c.schedulingLatency)))
  }

  lemma DispatchedNone(c: Config, v: Core)
    ensures Dispatched(c, v, v.rob, [Queues(v.lq, v.sq)], 0)
  {
  }

  lemma DispatchedNext(c: Config, v: Core, rob: seq<Instr>, qs: seq<Queues>, n: nat, j: Instr, q: Queues)
    requires Dispatched(c, v, rob, qs, n) && n < |v.dispatch| && MayDispatch(c, v.dispatch[n], |rob|, qs[n], v.now)
    requires DispatchedAs(v.dispatch[n], j, qs[n], q, v.now + v.Latency(c.schedulingLatency))
    ensures Dispatched(c, v, rob + [j], qs + [q], n + 1)
  {
    hide MayDispatch, DispatchedAs;
  }

  /** The longest prefix of the dispatch buffer that may enter does, one after the other. */
  ghost predicate Dispatches(c: Config, v: Core, w: Core, qs: seq<Queues>, n: nat) {
    && Dispatched(c, v, w.rob, qs, n) && n <= c.dispatchWidth && qs[n] == Queues(w.lq, w.sq)
    && (n == c.dispatchWidth || n == |v.dispatch| || !MayDispatch(c, v.dispatch[n], |w.rob|, qs[n], v.now))
    && w == v.(dispatch := v.dispatch[n..], rob := w.rob, lq := w.lq, sq := w.sq)
  }

  // ---- the front of the pipeline ---------------------------------------------------------------

  /** The oldest entry left in the two buffers, if any, is not ready, or it still needs decoding
      and the decode width is used up. */
  predicate NoneReady(dib: seq<Instr>, dec: seq<Instr>, a: nat, b: nat, width: nat, now: nat) {
    && a <= |dib| && b <= |dec|
    && if a < |dib| && (b == |dec| || dib[a].id < dec[b].id) then dib[a].ready > now
       else b < |dec| ==> dec[b].ready > now || b >= width
  }

  /** The fetched entries at the head of the fetch buffer that are ready, up to `room`. */
  function PromotableSpan(ifetch: seq<Instr>, room: nat, now: nat): (n: nat)
    ensures n <= |ifetch| && n <= room && forall k :: 0 <= k < n ==> ifetch[k].fetchCompleted && ifetch[k].ready <= now
    ensures n < |ifetch| && n < room ==> !(ifetch[n].fetchCompleted && ifetch[n].ready <= now)
  {
    var fetched := Span(ifetch, |ifetch|, (x: Instr) => x.fetchCompleted);
    var n := Span(ifetch[..fetched], room, (x: Instr) => x.fetchCompleted && x.ready <= now);
    assert forall k :: 0 <= k < fetched ==> ifetch[..fetched][k] == ifetch[k];
    n
  }

  /** The same instructions, ready at `t`. */
  function Stamped(s: seq<Instr>, t: nat): (r: seq<Instr>)
    ensures |r| == |s| && Ops(r) == Ops(s) && forall k :: 0 <= k < |r| ==> r[k].ready == t && r[k].(ready := 0) == s[k].(ready := 0)
  {
    seq(|s|, k requires 0 <= k < |s| => s[k].(ready := t))
  }

  function AfterDecode(y: seq<Instr>): (r: seq<Instr>)
    ensures |r| == |y|
  {
    seq(|y|, k requires 0 <= k < |y| => Resolved(y[k]))
  }

  function Fetched(i: Instr, hit: set<nat>, arrived: set<nat>, now: nat): Instr {
    if i.id in hit then i.(fetchCompleted := true, decoded := true, ready := now)
    else if i.id in arrived then i.(fetchCompleted := true)
    else i
  }

  const SP_REGISTER := 6
  const FLAGS_REGISTER := 25
  const IP_REGISTER := 26

  function Without(s: seq<int>, r: int): (q: seq<int>)
    ensures forall x :: x in q <==> x in s && x != r
  {
    if s == [] then [] else (if s[0] == r then [] else [s[0]]) + Without(s[1..], r)
  }

  predicate ReadsOther(src: seq<int>) {
    exists m :: 0 <= m < |src| && src[m] != SP_REGISTER && src[m] != FLAGS_REGISTER && src[m] != IP_REGISTER
  }

  /** Stack-pointer updates by a fixed amount are known at decode, so no register depends on
      them. */
  function Folded(i: Instr): Instr {
    if i.branch.kind != NotBranch || i.NumMemOps() > 0 || !ReadsOther(i.src)
    then i.(dst := Without(i.dst, SP_REGISTER), archDst := Without(i.archDst, SP_REGISTER))
    else i
  }

  function Initialized(i: Instr, p: Prediction, warmup: bool, now: nat): Instr {
    Folded(if warmup then i.(src := [], dst := [], archSrc := [], archDst := []) else i)
      .(branch := Guessed(i.branch, p, warmup), ready := now)
  }

  /** The instruction changes the stack pointer, if at all, by a fixed amount. */
  predicate FixedStack(i: Instr) {
    || i.branch.kind != NotBranch || i.srcMem != [] || i.dstMem != []
    || forall r :: r in i.src ==> r in {SP_REGISTER, FLAGS_REGISTER, IP_REGISTER}
  }

  /** Reading an instruction keeps its identity and memory operations and makes it ready at once.
      During warmup it has no registers; afterwards it keeps them all, except that nothing will
      depend on a stack pointer that changes by a fixed amount. */
  lemma ReadAs(i: Instr, p: Prediction, warmup: bool, now: nat)
    ensures var j := Initialized(i, p, warmup, now);
      && j.id == i.id && j.ready == now && j.srcMem == i.srcMem && j.dstMem == i.dstMem
      && (warmup ==> j.src == [] && j.dst == [] && j.archSrc == [] && j.archDst == [])
      && (!warmup ==> j.src == i.src && j.archSrc == i.archSrc)
      && (!warmup && !FixedStack(i) ==> j.dst == i.dst && j.archDst == i.archDst)
      && (!warmup && FixedStack(i) ==>
            (forall r :: r in j.dst <==> r in i.dst && r != SP_REGISTER) && |j.dst| + Occurrences(i.dst, SP_REGISTER) == |i.dst|)
  {
    hide Wrong;
    if !warmup {
      WithoutLength(i.dst, SP_REGISTER);
      FoldedIf(i);
      hide FixedStack, Without;
    }
  }

  lemma FoldedIf(i: Instr)
    ensures FixedStack(i) <==> (i.branch.kind != NotBranch || i.NumMemOps() > 0 || !ReadsOther(i.src))
  {
    if ReadsOther(i.src) {
      var m :| 0 <= m < |i.src| && i.src[m] != SP_REGISTER && i.src[m] != FLAGS_REGISTER && i.src[m] != IP_REGISTER;
      assert i.src[m] in i.src;
    } else {
      forall r | r in i.src ensures r in {SP_REGISTER, FLAGS_REGISTER, IP_REGISTER} {
        var m :| 0 <= m < |i.src| && i.src[m] == r;
      }
    }
  }

  function Occurrences(s: seq<int>, r: int): nat {
    multiset(s)[r]
  }

  lemma {:induction false} WithoutLength(s: seq<int>, r: int)
    ensures |Without(s, r)| + Occurrences(s, r) == |s|
  {
    if s != [] {
      WithoutLength(s[1..], r);
      assert s == [s[0]] + s[1..];
    }
  }

  predicate StopsAt(i: Instr, p: Prediction, warmup: bool) {
    Stops(i.branch, p, warmup)
  }

  predicate MissesAt(i: Instr, p: Prediction, warmup: bool) {
    Wrong(i.branch, p) && !warmup
  }

  lemma MissStops(i: Instr, p: Prediction, warmup: bool)
    ensures MissesAt(i, p, warmup) ==> StopsAt(i, p, warmup)
  {
  }

  /** The oldest ready entries of the two buffers, `a` and `b` of them, go to dispatch merged in
      program order; a misprediction seen at decode resumes fetch after the penalty. */
  ghost predicate Decodes(c: Config, v: Core, w: Core, a: nat, b: nat) {
    && IsCut(v.dibHit, v.decode, a, b) && a <= |v.dibHit| && b <= |v.decode|
    && a + b <= Room(c.dispatchBufferSize, |v.dispatch|) && a + b <= c.dibInorderWidth && b <= c.decodeWidth
    && (forall k :: 0 <= k < a ==> v.dibHit[k].ready <= v.now)
    && (forall k :: 0 <= k < b ==> v.decode[k].ready <= v.now)
    && (a + b == Min(c.dibInorderWidth, Room(c.dispatchBufferSize, |v.dispatch|))
        || NoneReady(v.dibHit, v.decode, a, b, c.decodeWidth, v.now))
    && w == v.(dispatch := v.dispatch + Stamped(Merge(v.dibHit[..a], AfterDecode(v.decode[..b])), v.now + v.Latency(c.dispatchLatency)),
               dibHit := v.dibHit[a..], decode := v.decode[b..],
               fetchResume := if AnyResumes(v.decode[..b]) then At(v.now + c.mispredictPenalty) else v.fetchResume)
  }

  /** The fetched entries that are ready leave the fetch buffer: those that hit bypass decode. */
  ghost predicate Promotes(c: Config, v: Core, w: Core) {
    var room := Min(c.fetchWidth, Min(Room(c.dibHitBufferSize, |v.dibHit|), Room(c.decodeBufferSize, |v.decode|)));
    var n := PromotableSpan(v.ifetch, room, v.now);
    w == v.(ifetch := v.ifetch[n..],
            dibHit := v.dibHit + Stamped(Decoded(v.ifetch[..n], true), v.now + c.dibHitLatency),
            decode := v.decode + Stamped(Decoded(v.ifetch[..n], false), v.now + v.Latency(c.decodeLatency)))
  }

  /** The first `n` instructions of the input queue have been read. */
  ghost predicate HasRead(v: Core, ifetch: seq<Instr>, program: seq<Op>, answers: seq<Prediction>, n: nat) {
    && n <= |v.inputQueue| && n <= |answers| && |ifetch| == |v.ifetch| + n && ifetch[..|v.ifetch|] == v.ifetch
    && (forall k :: 0 <= k < n ==> ifetch[|v.ifetch| + k] == Initialized(v.inputQueue[k], answers[k], v.warmup, v.now))
    && program == v.program + Ops(ifetch[|v.ifetch|..])
  }

  lemma HasReadNone(v: Core, answers: seq<Prediction>)
    ensures HasRead(v, v.ifetch, v.program, answers, 0)
  {
  }

  lemma HasReadNext(v: Core, ifetch: seq<Instr>, program: seq<Op>, answers: seq<Prediction>, n: nat)
    requires HasRead(v, ifetch, program, answers, n) && n < |v.inputQueue| && n < |answers|
    ensures var i := Initialized(v.inputQueue[n], answers[n], v.warmup, v.now);
      HasRead(v, ifetch + [i], program + [OpOf(i)], answers, n + 1)
  {
    hide Initialized;
    var i := Initialized(v.inputQueue[n], answers[n], v.warmup, v.now);
    assert (ifetch + [i])[|v.ifetch|..] == ifetch[|v.ifetch|..] + [i];
    OpsConcat(ifetch[|v.ifetch|..], [i]);
  }

  /** Instructions are read in order, unless fetch waits, up to the fetch width, the room in the
      buffer, and the first branch behind which fetch stops. */
  ghost predicate Reads(c: Config, v: Core, w: Core, answers: seq<Prediction>, n: nat) {
    && HasRead(v, w.ifetch, w.program, answers, n) && n <= Min(c.fetchWidth, Room(c.ifetchBufferSize, |v.ifetch|))
    && (n > 0 ==> v.fetchResume.By(v.now))
    && (forall k :: 0 <= k < n - 1 ==> !StopsAt(v.inputQueue[k], answers[k], v.warmup))
    && (n == |v.inputQueue| || n == Min(c.fetchWidth, Room(c.ifetchBufferSize, |v.ifetch|)) || !v.fetchResume.By(v.now)
        || (n > 0 && StopsAt(v.inputQueue[n - 1], answers[n - 1], v.warmup)))
    && w == v.(inputQueue := v.inputQueue[n..], ifetch := w.ifetch, program := w.program,
               fetchResume := if n > 0 && MissesAt(v.inputQueue[n - 1], answers[n - 1], v.warmup) then Never else v.fetchResume)
  }

  // ---- one cycle -------------------------------------------------------------------------

  /** What the outside supplies to a cycle: the time that passed, whether warmup goes on, the
      data blocks and instructions that came back, the decoded-instruction-buffer hits, the room
      the data cache has for loads and stores, and the branch unit's answers. */
  datatype Inputs = Inputs(period: nat, stillWarm: bool, returned: seq<Address>, arrived: set<nat>, hit: set<nat>,
                           loadRoom: nat, storeRoom: nat, answers: seq<Prediction>)

  /** The state after each stage of the back end, and where the scans ended. */
  datatype BackEnd = BackEnd(
    retired: Core, completed: Core, executed: Core, scheduled: Core, arrived: Core, answered: Core,
    completeStop: nat, executeStop: nat, allocs: seq<Alloc>, released: Lq)

  /** The state after each stage of the front end but the last, and how many instructions moved. */
  datatype FrontEnd = FrontEnd(
    dispatched: Core, decoded: Core, promoted: Core, checked: Core,
    queues: seq<Queues>, entered: nat, hits: nat, decodes: nat, count: nat)

  function Ticked(v: Core, x: Inputs): Core {
    v.(now := v.now + x.period, warmup := x.stillWarm)
  }

  ghost predicate RunsBackEnd(c: Config, v: Core, x: Inputs, b: BackEnd, w: Core) {
    && Retires(c, v, b.retired)
    && Completes(c, b.retired, b.completed, b.completeStop)
    && Executes(c, b.completed, b.executed, b.executeStop)
    && Schedules(c, b.executed, b.scheduled, b.allocs)
    && Arrives(b.scheduled, b.arrived, {}, x.arrived)
    && Answered(c, b.arrived, b.answered, x.returned)
    && MemoryOperates(c, b.answered, w, x.loadRoom, x.storeRoom, b.released)
  }

  ghost predicate RunsFrontEnd(c: Config, v: Core, x: Inputs, f: FrontEnd, w: Core) {
    && Dispatches(c, v, f.dispatched, f.queues, f.entered)
    && Decodes(c, f.dispatched, f.decoded, f.hits, f.decodes)
    && Promotes(c, f.decoded, f.promoted)
    && Arrives(f.promoted, f.checked, x.hit, {})
    && Reads(c, f.checked, w, x.answers, f.count)
  }

  /** One cycle: time passes, and each stage runs once, the oldest instructions' first. */
  ghost predicate Cycle(c: Config, v: Core, x: Inputs, b: BackEnd, m: Core, f: FrontEnd, w: Core) {
    RunsBackEnd(c, Ticked(v, x), x, b, m) && RunsFrontEnd(c, m, x, f, w)
  }
}
