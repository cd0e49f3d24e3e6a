/** What one cycle of the core does to the instructions in flight: the stages chained. */
module CoreCycle {
  import opened Prelude
  import opened Instruction
  import opened RegisterAllocation
  import opened Renaming
  import opened LoadStoreQueue
  import opened ProgramOrder
  import opened FetchStall
  import opened CoreStages

  /** The entries keep their places and never lose progress. */
  ghost predicate Progresses(rob: seq<Instr>, rob': seq<Instr>) {
    && |rob| <= |rob'|
    && forall k :: 0 <= k < |rob| ==> Further(rob[k], rob'[k])
  }

  ghost predicate Further(i: Instr, j: Instr) {
    && i.id == j.id && OpOf(i) == OpOf(j)
    && (i.scheduled ==> j.scheduled) && (i.executed ==> j.executed) && (i.completed ==> j.completed)
  }

  lemma Then(rob: seq<Instr>, rob': seq<Instr>, rob'': seq<Instr>)
    requires Progresses(rob, rob') && Progresses(rob', rob'')
    ensures Progresses(rob, rob'')
  {
    hide OpOf;
    forall k | 0 <= k < |rob| ensures Further(rob[k], rob''[k]) {
      assert Further(rob[k], rob'[k]) && Further(rob'[k], rob''[k]);
    }
  }

  lemma CompletesProgresses(c: Config, v: Core, w: Core, stop: nat)
    requires Completes(c, v, w, stop)
    ensures Progresses(v.rob, w.rob)
  {
    hide SettlesAny;
  }

  lemma ExecutesProgresses(c: Config, v: Core, w: Core, stop: nat)
    requires Executes(c, v, w, stop)
    ensures Progresses(v.rob, w.rob)
  {
    hide CanStart, StartsMemory;
  }

  lemma SchedulesProgresses(c: Config, v: Core, w: Core, allocs: seq<Alloc>)
    requires Schedules(c, v, w, allocs)
    ensures Progresses(v.rob, w.rob)
  {
    hide ScanStep, Unexecuted, OutOfRegisters;
  }

  lemma DispatchesProgresses(c: Config, v: Core, w: Core, qs: seq<Queues>, n: nat)
    requires Dispatches(c, v, w, qs, n)
    ensures Progresses(v.rob, w.rob)
  {
    hide MayDispatch, DispatchedAs;
    assert forall k :: 0 <= k < |v.rob| ==> w.rob[k] == w.rob[..|v.rob|][k];
  }

  lemma MemoryProgresses(rob: seq<Instr>, rob': seq<Instr>)
    requires OnlyMemOps(rob, rob')
    ensures Progresses(rob, rob')
  {
  }

  /** From completion on, the entries of the reorder buffer stay where they are. */
  lemma BackEndProgresses(c: Config, v: Core, x: Inputs, b: BackEnd, w: Core)
    requires RunsBackEnd(c, v, x, b, w)
    ensures Progresses(b.retired.rob, b.completed.rob) && Progresses(b.completed.rob, b.executed.rob)
    ensures Progresses(b.executed.rob, b.scheduled.rob) && Progresses(b.scheduled.rob, w.rob)
  {
    CompletesProgresses(c, b.retired, b.completed, b.completeStop);
    ExecutesProgresses(c, b.completed, b.executed, b.executeStop);
    SchedulesProgresses(c, b.executed, b.scheduled, b.allocs);
    hide Completes, Executes, Schedules, Progresses;
    assert b.arrived.rob == b.scheduled.rob;
    hide Arrives, IssuedSpan, StoreSpan, Executed, WritableSpan, Releases, Sends, AnsweredBy;
    MemoryProgresses(b.arrived.rob, b.answered.rob);
    MemoryProgresses(b.answered.rob, w.rob);
    Then(b.scheduled.rob, b.answered.rob, w.rob);
  }

  lemma FrontEndProgresses(c: Config, v: Core, x: Inputs, f: FrontEnd, w: Core)
    requires RunsFrontEnd(c, v, x, f, w)
    ensures Progresses(v.rob, w.rob) && w.retired == v.retired && w.numRetired == v.numRetired && w.written == v.written
    ensures w.rob == f.dispatched.rob && w.lq == f.dispatched.lq && w.sq == f.dispatched.sq
  {
    DispatchesProgresses(c, v, f.dispatched, f.queues, f.entered);
    hide Progresses, Dispatched, IsCut, NoneReady, Merge, AnyResumes, PromotableSpan, HasRead, StopsAt, MissesAt;
  }

  /** In a cycle the completed entries at the head of the reorder buffer, as many as the width
      allows, retire in order; no other entry leaves, and none loses progress. */
  lemma CycleRetires(c: Config, v: Core, x: Inputs, b: BackEnd, m: Core, f: FrontEnd, w: Core)
    requires Cycle(c, v, x, b, m, f, w)
    ensures var n := CompletedSpan(v.rob, c.retireWidth);
      w.retired == v.retired + v.rob[..n] && w.numRetired == v.numRetired + n && Progresses(v.rob[n..], w.rob)
  {
    BackEndProgresses(c, Ticked(v, x), x, b, m);
    FrontEndProgresses(c, m, x, f, w);
    hide RunsFrontEnd, Progresses;
    Then(b.retired.rob, b.completed.rob, b.executed.rob);
    Then(b.retired.rob, b.executed.rob, b.scheduled.rob);
    Then(b.retired.rob, b.scheduled.rob, m.rob);
    Then(b.retired.rob, m.rob, w.rob);
    BackEndRetires(c, Ticked(v, x), x, b, m);
  }

  lemma BackEndRetires(c: Config, v: Core, x: Inputs, b: BackEnd, w: Core)
    requires RunsBackEnd(c, v, x, b, w)
    ensures var n := CompletedSpan(v.rob, c.retireWidth);
      b.retired.rob == v.rob[n..] && w.retired == v.retired + v.rob[..n] && w.numRetired == v.numRetired + n
  {
    hide CompletedSpan, SettlesAny, Completable, Startable, Starts, StartsMemory, ScanStep, Unexecuted, OutOfRegisters, OnlyMemOps,
         IssuedSpan, StoreSpan, Executed, WritableSpan, Releases, Sends, AnsweredBy;
  }

  lemma {:induction false} CompletableAfter(rob: seq<Instr>, n: nat, k: nat, now: nat)
    requires n <= k <= |rob|
    ensures Completable(rob[n..], k - n, now) <= Completable(rob, k, now)
    decreases k
  {
    hide CanComplete;
    if k > n {
      CompletableAfter(rob, n, k - 1, now);
    }
  }

  lemma {:induction false} CompletableGrows(rob: seq<Instr>, j: nat, k: nat, now: nat)
    requires j <= k <= |rob|
    ensures Completable(rob, j, now) <= Completable(rob, k, now)
    decreases k
  {
    hide CanComplete;
    if k > j {
      CompletableGrows(rob, j, k - 1, now);
    }
  }

  lemma {:induction false} StartableGrows(a: Alloc, rob: seq<Instr>, j: nat, k: nat, now: nat)
    requires j <= k <= |rob|
    ensures Startable(a, rob, j, now) <= Startable(a, rob, k, now)
    decreases k
  {
    hide CanStart;
    if k > j {
      StartableGrows(a, rob, j, k - 1, now);
    }
  }

  lemma {:induction false} UnexecutedGrows(rob: seq<Instr>, j: nat, k: nat)
    requires j <= k <= |rob|
    ensures Unexecuted(rob, j) <= Unexecuted(rob, k)
    decreases k
  {
    if k > j {
      UnexecutedGrows(rob, j, k - 1);
    }
  }

  // ---- what each stage does, in the terms of an instruction -------------------------------

  lemma CompletedExactly(c: Config, v: Core, w: Core, stop: nat, k: nat)
    requires Completes(c, v, w, stop) && k < |v.rob|
    ensures k < |w.rob| && w.rob[k] == v.rob[k].(completed := w.rob[k].completed)
    ensures w.rob[k].completed <==>
      v.rob[k].completed || (k < stop && v.rob[k].executed && v.rob[k].ready <= v.now && v.rob[k].completedMemOps == |v.rob[k].srcMem| + |v.rob[k].dstMem|)
  {
    hide SettlesAny, Completable;
  }

  /** The source registers of a renamed instruction hold their values. */
  ghost predicate SourcesIn(a: Alloc, i: Instr)
    requires forall m :: 0 <= m < |i.src| ==> 0 <= i.src[m] < |a.file|
  {
    forall m :: 0 <= m < |i.src| ==> a.file[i.src[m]].valid
  }

  lemma StartedExactly(c: Config, v: Core, w: Core, stop: nat, k: nat)
    requires Executes(c, v, w, stop) && k < |v.rob| && forall m :: 0 <= m < |v.rob[k].src| ==> 0 <= v.rob[k].src[m] < |v.regs.file|
    ensures k < |w.rob| && w.rob[k] == v.rob[k].(executed := w.rob[k].executed, ready := w.rob[k].ready)
    ensures w.rob[k].executed <==>
      v.rob[k].executed || (k < stop && v.rob[k].scheduled && v.rob[k].ready <= v.now && SourcesIn(v.regs, v.rob[k]))
    ensures w.rob[k].ready == if w.rob[k].executed && !v.rob[k].executed then v.now + (if v.warmup then 0 else c.execLatency) else v.rob[k].ready
  {
    hide Startable, StartsMemory;
  }

  lemma ScheduledExactly(c: Config, v: Core, w: Core, allocs: seq<Alloc>, k: nat)
    requires Schedules(c, v, w, allocs) && k < |v.rob|
    ensures k < |w.rob| && (w.rob[k].scheduled <==> v.rob[k].scheduled || (k < |allocs| - 1 && v.rob[k].ready <= v.now))
    ensures v.rob[k].scheduled || !w.rob[k].scheduled ==> w.rob[k] == v.rob[k]
    ensures k < |allocs| - 1 ==>
      |allocs[k].free| >= Unmapped(allocs[k].frontend, v.rob[k].src, 0) + |v.rob[k].dst|
  {
    hide Unexecuted, Unmapped;
    assert k < |allocs| - 1 ==> ScanStep(v.rob, allocs, k, v.now);
  }

  /** A load is sent exactly if it is due since an earlier cycle, unsent, waits for no store, and
      fewer such loads than the width come before it. */
  lemma SentExactly(lq: Lq, lq': Lq, width: nat, now: nat, s: nat)
    requires Sends(lq, lq', |lq|, width, now) && s < |lq| && lq[s].Some?
    ensures |lq'| == |lq| && lq'[s].Some? && lq'[s].value == lq[s].value.(issued := lq'[s].value.issued)
    ensures lq'[s].value.issued <==>
      lq[s].value.issued || (lq[s].value.producer == None && lq[s].value.ready.At? && lq[s].value.ready.time < now && Sendable(lq, s, now) < width)
  {
    hide Sendable;
  }

  lemma ArrivedExactly(v: Core, w: Core, hit: set<nat>, arrived: set<nat>, k: nat)
    requires Arrives(v, w, hit, arrived) && k < |v.ifetch|
    ensures k < |w.ifetch|
    ensures var i, j := v.ifetch[k], w.ifetch[k];
      && (j.fetchCompleted <==> i.fetchCompleted || i.id in hit || i.id in arrived) && (j.decoded <==> i.decoded || i.id in hit)
      && j.ready == (if i.id in hit then v.now else i.ready)
      && j == i.(fetchCompleted := j.fetchCompleted, decoded := j.decoded, ready := j.ready)
  {
  }

  /** When decoding stops with width and room to spare, the older of the two heads left is not
      ready, or it still needs decoding and that width is used up. */
  lemma DecodesReady(c: Config, v: Core, w: Core, a: nat, b: nat)
    requires Decodes(c, v, w, a, b) && a + b < c.dibInorderWidth && |w.dispatch| < c.dispatchBufferSize
    ensures w.dibHit != [] && (w.decode == [] || w.dibHit[0].id < w.decode[0].id) ==> w.dibHit[0].ready > v.now
    ensures w.decode != [] && (w.dibHit == [] || w.decode[0].id <= w.dibHit[0].id) ==> w.decode[0].ready > v.now || b == c.decodeWidth
  {
    hide Merge, IsCut, AnyResumes, AfterDecode, Stamped;
  }

  /** The clock stands still while the stages run. */
  lemma SameClock(c: Config, v: Core, x: Inputs, b: BackEnd, w: Core)
    requires RunsBackEnd(c, v, x, b, w)
    ensures b.retired.now == v.now && b.completed.now == v.now && b.executed.now == v.now
    ensures b.retired.warmup == v.warmup && b.completed.warmup == v.warmup && b.executed.warmup == v.warmup
  {
    hide Schedules, Arrives, Answered, MemoryOperates, CompletedSpan, SettlesAny, Completable, Startable, Starts, StartsMemory;
  }

  /** After each of the first stages the entries only progress until the end of the cycle. */
  lemma CycleProgresses(c: Config, v: Core, x: Inputs, b: BackEnd, m: Core, f: FrontEnd, w: Core)
    requires Cycle(c, v, x, b, m, f, w)
    ensures Progresses(b.completed.rob, w.rob) && Progresses(b.executed.rob, w.rob) && Progresses(b.scheduled.rob, w.rob)
  {
    hide RunsBackEnd, RunsFrontEnd, Progresses;
    BackEndProgresses(c, Ticked(v, x), x, b, m);
    FrontEndProgresses(c, m, x, f, w);
    Then(b.scheduled.rob, m.rob, w.rob);
    Then(b.executed.rob, b.scheduled.rob, w.rob);
    Then(b.completed.rob, b.executed.rob, w.rob);
  }

  /** An executed entry whose time has come and whose memory operations are done is completed by
      the end of the cycle, unless the entries before it use up the width. */
  lemma CycleCompletes(c: Config, v: Core, x: Inputs, b: BackEnd, m: Core, f: FrontEnd, w: Core, k: nat)
    requires Cycle(c, v, x, b, m, f, w) && CompletedSpan(v.rob, c.retireWidth) <= k < |v.rob|
    requires CanComplete(v.rob[k], v.now + x.period) && Completable(v.rob, k, v.now + x.period) < c.execWidth
    ensures var j := k - CompletedSpan(v.rob, c.retireWidth);
      j < |w.rob| && w.rob[j].id == v.rob[k].id && w.rob[j].completed
  {
    hide RunsFrontEnd, Retires, Completes, Executes, Schedules, Arrives, Answered, MemoryOperates, Progresses, CompletedSpan, CanComplete,
         Completable;
    var n := CompletedSpan(v.rob, c.retireWidth);
    var u := Ticked(v, x);
    BackEndRetires(c, u, x, b, m);
    SameClock(c, u, x, b, m);
    CompletableAfter(v.rob, n, k, u.now);
    CycleProgresses(c, v, x, b, m, f, w);
    CompletedThen(c, b.retired, b.completed, b.completeStop, k - n, w.rob);
  }

  lemma CompletedThen(c: Config, v: Core, w: Core, stop: nat, k: nat, rob: seq<Instr>)
    requires Completes(c, v, w, stop) && Progresses(w.rob, rob)
    requires k < |v.rob| && CanComplete(v.rob[k], v.now) && Completable(v.rob, k, v.now) < c.execWidth
    ensures k < |rob| && rob[k].completed && rob[k].id == v.rob[k].id
  {
    hide SettlesAny, Completable, CanComplete;
    if stop <= k {
      CompletableGrows(v.rob, stop, k, v.now);
    }
    assert Further(w.rob[k], rob[k]);
  }

  /** A scheduled entry whose time has come and whose sources are valid once completion has run
      starts, with its loads and stores, unless the entries before it use up the width. */
  lemma CycleStarts(c: Config, v: Core, x: Inputs, b: BackEnd, m: Core, f: FrontEnd, w: Core, k: nat)
    requires Cycle(c, v, x, b, m, f, w) && k < |b.completed.rob|
    requires CanStart(b.completed.regs, b.completed.rob[k], v.now + x.period)
    requires Startable(b.completed.regs, b.completed.rob, k, v.now + x.period) < c.execWidth
    ensures k < |w.rob| && w.rob[k].executed && w.rob[k].id == b.completed.rob[k].id
    ensures LoadsReady(b.completed.lq, b.executed.lq, w.rob[k].id, v.now + x.period + if x.stillWarm then 0 else c.execLatency)
  {
    hide RunsFrontEnd, Retires, Completes, Executes, Schedules, Arrives, Answered, MemoryOperates, Progresses, CanStart, Startable, LoadsReady;
    SameClock(c, Ticked(v, x), x, b, m);
    CycleProgresses(c, v, x, b, m, f, w);
    StartedThen(c, b.completed, b.executed, b.executeStop, k, w.rob);
  }

  ghost predicate LoadsReady(lq: Lq, lq': Lq, id: nat, t: nat) {
    |lq'| == |lq| && forall s :: 0 <= s < |lq| && lq[s].Some? && lq[s].value.id == id ==> lq'[s] == Some(lq[s].value.(ready := At(t)))
  }

  lemma StartedThen(c: Config, v: Core, w: Core, stop: nat, k: nat, rob: seq<Instr>)
    requires Executes(c, v, w, stop) && Progresses(w.rob, rob)
    requires k < |v.rob| && CanStart(v.regs, v.rob[k], v.now) && Startable(v.regs, v.rob, k, v.now) < c.execWidth
    ensures k < |rob| && rob[k].executed && rob[k].id == v.rob[k].id
    ensures LoadsReady(v.lq, w.lq, rob[k].id, v.now + v.Latency(c.execLatency))
  {
    hide CanStart, Startable;
    if stop <= k {
      StartableGrows(v.regs, v.rob, stop, k, v.now);
    }
    assert Further(w.rob[k], rob[k]);
  }

  /** An unscheduled entry whose time has come is scheduled by the end of the cycle if the search
      reaches it: no entry up to it finds too few registers free, and the unexecuted entries
      before it do not use up the search width. */
  lemma CycleSchedules(c: Config, v: Core, x: Inputs, b: BackEnd, m: Core, f: FrontEnd, w: Core, k: nat)
    requires Cycle(c, v, x, b, m, f, w) && k < |b.executed.rob| && CanSchedule(b.executed.rob[k], v.now + x.period)
    requires Unexecuted(b.executed.rob, k) < c.schedulerSize
    requires forall j :: 0 <= j <= k ==> !OutOfRegisters(b.scheduled.regs, b.executed.rob[j])
    ensures k < |w.rob| && w.rob[k].scheduled && w.rob[k].id == b.executed.rob[k].id
  {
    hide RunsFrontEnd, Retires, Completes, Executes, Schedules, Arrives, Answered, MemoryOperates, Progresses, CanSchedule, Unexecuted,
         OutOfRegisters;
    SameClock(c, Ticked(v, x), x, b, m);
    CycleProgresses(c, v, x, b, m, f, w);
    ScheduledThen(c, b.executed, b.scheduled, b.allocs, k, w.rob);
  }

  lemma ScheduledThen(c: Config, v: Core, w: Core, allocs: seq<Alloc>, k: nat, rob: seq<Instr>)
    requires Schedules(c, v, w, allocs) && Progresses(w.rob, rob)
    requires k < |v.rob| && CanSchedule(v.rob[k], v.now) && Unexecuted(v.rob, k) < c.schedulerSize
    requires forall j :: 0 <= j <= k ==> !OutOfRegisters(w.regs, v.rob[j])
    ensures k < |rob| && rob[k].scheduled && rob[k].id == v.rob[k].id
  {
    hide ScanStep, Unexecuted, OutOfRegisters;
    if |allocs| - 1 <= k {
      UnexecutedGrows(v.rob, |allocs| - 1, k);
    }
    assert Further(w.rob[k], rob[k]);
  }

  /** The oldest store that has not executed does if it is ready, and the loads that wait for it
      leave the load queue; a store reaches the cache only executed. */
  lemma CycleStores(c: Config, v: Core, x: Inputs, b: BackEnd, m: Core, f: FrontEnd, w: Core)
    requires Cycle(c, v, x, b, m, f, w) && c.sqWidth > 0
    requires var j := IssuedSpan(b.answered.sq); j < |b.answered.sq| && b.answered.sq[j].ready.By(b.answered.now)
    ensures var j := IssuedSpan(b.answered.sq);
      && |w.written| >= |v.written| && |w.written + w.sq| > |v.written| + j && (w.written + w.sq)[|v.written| + j].issued
      && (w.written + w.sq)[|v.written| + j].id == b.answered.sq[j].id
      && |m.lq| == |b.answered.lq| && forall s :: 0 <= s < |m.lq| && s in b.answered.sq[j].deps ==> m.lq[s].None?
  {
    hide RunsFrontEnd, Retires, Completes, Executes, Schedules, Arrives, Answered, MemoryOperates, IssuedSpan, Dispatched;
    FrontEndStores(c, m, x, f, w);
    SameWritten(c, Ticked(v, x), x, b, m);
    MemoryExecutes(c, b.answered, m, x.loadRoom, x.storeRoom, b.released, w.sq);
  }

  lemma SameWritten(c: Config, v: Core, x: Inputs, b: BackEnd, w: Core)
    requires RunsBackEnd(c, v, x, b, w)
    ensures b.answered.written == v.written
  {
    hide MemoryOperates, CompletedSpan, SettlesAny, Completable, Startable, Starts, StartsMemory, ScanStep, Unexecuted, OutOfRegisters,
         OnlyMemOps, AnsweredBy;
  }

  /** After the stores have operated, the queue only grows at its end. */
  lemma FrontEndStores(c: Config, v: Core, x: Inputs, f: FrontEnd, w: Core)
    requires RunsFrontEnd(c, v, x, f, w)
    ensures w.written == v.written && SameHeadStores(v.sq, w.sq)
  {
    hide Decodes, Promotes, Arrives, Reads, Progresses, MayDispatch, Enters;
    FrontEndProgresses(c, v, x, f, w);
    QueuesGrow(c, v, f.dispatched.rob, f.queues, f.entered, f.entered);
  }

  ghost predicate SameHeadStores(sq: seq<SqEntry>, sq': seq<SqEntry>) {
    |sq| <= |sq'| && forall j :: 0 <= j < |sq| ==> sq'[j].id == sq[j].id && sq'[j].issued == sq[j].issued
  }

  lemma {:induction false} QueuesGrow(c: Config, v: Core, rob: seq<Instr>, qs: seq<Queues>, n: nat, k: nat)
    requires Dispatched(c, v, rob, qs, n) && k <= n
    ensures SameHeadStores(v.sq, qs[k].sq)
  {
    hide MayDispatch, Enters;
    if k > 0 {
      QueuesGrow(c, v, rob, qs, n, k - 1);
      assert DispatchedAs(v.dispatch[k - 1], rob[|v.rob| + k - 1], qs[k - 1], qs[k], v.now + v.Latency(c.schedulingLatency));
      EntersKeepsStores(v.dispatch[k - 1], qs[k - 1].lq, qs[k - 1].sq, qs[k].lq, qs[k].sq, rob[|v.rob| + k - 1].completedMemOps);
    }
  }

  lemma EntersKeepsStores(i: Instr, lq: Lq, sq: seq<SqEntry>, lq': Lq, sq': seq<SqEntry>, done: nat)
    requires Enters(i, lq, sq, lq', sq', done)
    ensures SameHeadStores(sq, sq')
  {
    hide Settled, NewStores;
    forall j | 0 <= j < |sq| ensures sq'[j].id == sq[j].id && sq'[j].issued == sq[j].issued {
      assert sq'[..|sq|][j] == sq'[j];
    }
  }

  lemma MemoryExecutes(c: Config, v: Core, w: Core, loadRoom: nat, storeRoom: nat, released: Lq, sq: seq<SqEntry>)
    requires MemoryOperates(c, v, w, loadRoom, storeRoom, released) && SameHeadStores(w.sq, sq) && c.sqWidth > 0
    requires IssuedSpan(v.sq) < |v.sq| && v.sq[IssuedSpan(v.sq)].ready.By(v.now)
    ensures var j := IssuedSpan(v.sq);
      && |w.written| >= |v.written| && |w.written + sq| > |v.written| + j && (w.written + sq)[|v.written| + j].issued
      && (w.written + sq)[|v.written| + j].id == v.sq[j].id
      && |w.lq| == |v.lq| && forall s :: 0 <= s < |w.lq| && s in v.sq[j].deps ==> w.lq[s].None?
  {
    hide Sendable, OnlyMemOps;
    var j := IssuedSpan(v.sq);
    var n := StoreSpan(v.sq, j, c.sqWidth, v.now);
    assert n > 0;
    var stores := Executed(v.sq, j, n, v.now);
    assert stores[j].issued && stores[j].id == v.sq[j].id;
    var done := |w.written| - |v.written|;
    if j >= done {
      assert stores[done..][j - done] == stores[j];
    }
    forall s | 0 <= s < |w.lq| && s in v.sq[j].deps ensures w.lq[s].None? {
      assert Released(v.sq, j, n, s);
    }
  }

  /** The head of the dispatch buffer enters the reorder buffer if its time has come and there
      is room. */
  lemma CycleDispatches(c: Config, v: Core, x: Inputs, b: BackEnd, m: Core, f: FrontEnd, w: Core)
    requires Cycle(c, v, x, b, m, f, w) && c.dispatchWidth > 0
    requires m.dispatch != [] && MayDispatch(c, m.dispatch[0], |m.rob|, Queues(m.lq, m.sq), m.now)
    ensures |w.rob| > |m.rob| && w.rob[|m.rob|].id == m.dispatch[0].id
    ensures |f.queues| > 1 && DispatchedAs(m.dispatch[0], w.rob[|m.rob|], Queues(m.lq, m.sq), f.queues[1], m.now + m.Latency(c.schedulingLatency))
  {
    hide RunsBackEnd, MayDispatch, Enters, Decodes, Promotes, Arrives, Reads, Progresses;
    FrontEndProgresses(c, m, x, f, w);
    assert f.entered > 0;
    assert DispatchedAs(m.dispatch[0], f.dispatched.rob[|m.rob| + 0], f.queues[0], f.queues[1], m.now + m.Latency(c.schedulingLatency));
  }

  /** The program grows by what the cycle reads, the next instructions of the input queue; it
      reads at least one if fetch runs and there is room. */
  lemma CycleReads(c: Config, v: Core, x: Inputs, b: BackEnd, m: Core, f: FrontEnd, w: Core)
    requires Cycle(c, v, x, b, m, f, w)
    ensures f.count <= |v.inputQueue| && w.inputQueue == v.inputQueue[f.count..]
    ensures |w.program| == |v.program| + f.count && v.program <= w.program
    ensures forall k :: 0 <= k < f.count ==> w.program[|v.program| + k].id == v.inputQueue[k].id
    ensures (v.inputQueue != [] && f.checked.fetchResume.By(f.checked.now) && c.fetchWidth > 0 && |f.checked.ifetch| < c.ifetchBufferSize)
      ==> f.count > 0
  {
    hide RunsBackEnd, Dispatches, Decodes, Promotes, Arrives, HasRead, StopsAt, MissesAt;
    BackEndInput(c, Ticked(v, x), x, b, m);
    FrontEndInput(c, m, x, f, w);
    ReadInOrder(f.checked, w.ifetch, w.program, x.answers, f.count);
  }

  lemma BackEndInput(c: Config, v: Core, x: Inputs, b: BackEnd, w: Core)
    requires RunsBackEnd(c, v, x, b, w)
    ensures w.inputQueue == v.inputQueue && w.program == v.program
  {
    hide CompletedSpan, SettlesAny, Completable, Startable, Starts, StartsMemory, ScanStep, Unexecuted, OutOfRegisters, OnlyMemOps,
         IssuedSpan, StoreSpan, Executed, WritableSpan, Releases, Sends, AnsweredBy;
  }

  lemma FrontEndInput(c: Config, v: Core, x: Inputs, f: FrontEnd, w: Core)
    requires RunsFrontEnd(c, v, x, f, w)
    ensures f.checked.inputQueue == v.inputQueue && f.checked.program == v.program
  {
    hide Reads, Dispatched, IsCut, NoneReady, Merge, AnyResumes, PromotableSpan;
  }

  lemma ReadInOrder(v: Core, ifetch: seq<Instr>, program: seq<Op>, answers: seq<Prediction>, n: nat)
    requires HasRead(v, ifetch, program, answers, n)
    ensures n <= |v.inputQueue| && |program| == |v.program| + n && v.program <= program
    ensures forall k :: 0 <= k < n ==> program[|v.program| + k].id == v.inputQueue[k].id
  {
    hide Guessed, ReadsOther, Without;
    forall k | 0 <= k < n ensures program[|v.program| + k].id == v.inputQueue[k].id {
      assert ifetch[|v.ifetch|..][k] == ifetch[|v.ifetch| + k];
    }
  }
}
