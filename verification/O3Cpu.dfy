/** The out-of-order core: one class whose methods are the pipeline stages, from the input
    queue to retirement, over one renaming, memory-ordering and program-order invariant. */
module OutOfOrderCore {
  import opened Prelude
  import opened Instruction
  import opened RegisterAllocation
  import opened Renaming
  import opened Retirement
  import opened LoadStoreQueue
  import opened ProgramOrder
  import opened FetchStall
  import opened CoreStages

  /** Instructions that have not been dispatched: no stage has renamed or executed them. */
  ghost predicate Untouched(s: seq<Instr>) {
    forall k :: 0 <= k < |s| ==> Unrenamed(s[k]) && s[k].completedMemOps == 0
  }

  /** Unscheduled entries become ready in program order, none later than `limit`. */
  ghost predicate ReadyInOrder(rob: seq<Instr>, n: nat, limit: nat) {
    && (forall i, j :: n <= i < j < |rob| ==> rob[i].ready <= rob[j].ready)
    && (forall i :: n <= i < |rob| ==> rob[i].ready <= limit)
  }

  /** What has been read precedes what has not. */
  ghost predicate ReadBefore(program: seq<Op>, queue: seq<Instr>) {
    forall i, j :: 0 <= i < |program| && 0 <= j < |queue| ==> program[i].id < queue[j].id
  }

  ghost predicate StoresKnown(known: seq<Instr>, sq: seq<SqEntry>) {
    forall j :: 0 <= j < |sq| ==> HasId(known, sq[j].id)
  }

  /** Stores reach the cache in program order and only after their instruction retired. */
  ghost predicate StoresWritten(retired: seq<Instr>, written: seq<SqEntry>, sq: seq<SqEntry>) {
    && (forall i, j :: 0 <= i < j < |written| ==> written[i].id <= written[j].id)
    && (forall i, j :: 0 <= i < |written| && 0 <= j < |sq| ==> written[i].id <= sq[j].id)
    && (forall i :: 0 <= i < |written| ==> written[i].issued && HasId(retired, written[i].id))
  }

  lemma SameIdsKnown(retired: seq<Instr>, rob: seq<Instr>, rob': seq<Instr>, sq: seq<SqEntry>)
    requires StoresKnown(retired + rob, sq) && |rob| == |rob'|
    requires forall k :: 0 <= k < |rob| ==> rob[k].id == rob'[k].id
    ensures StoresKnown(retired + rob', sq)
  {
    forall j | 0 <= j < |sq| ensures HasId(retired + rob', sq[j].id) {
      OwnersKept(retired + rob, retired + rob', sq[j].id);
    }
  }

  class O3Cpu {
    const cfg: Config
    const regs: RegisterAllocator

    var now: nat
    var warmup: bool
    var numRetired: nat
    var fetchResume: Ready
    var inputQueue: seq<Instr>
    var ifetch: seq<Instr>
    var dibHit: seq<Instr>
    var decode: seq<Instr>
    var dispatch: seq<Instr>
    var rob: seq<Instr>
    var lq: seq<Option<LqEntry>>
    var sq: seq<SqEntry>

    /** History: instructions retired so far, operations fetched so far, stores written to the
        cache so far, and how many reorder-buffer entries are scheduled. */
    ghost var retired: seq<Instr>
    ghost var program: seq<Op>
    ghost var written: seq<SqEntry>
    ghost var scheduled: nat

    function Latency(cycles: nat): nat
      reads this
    {
      if warmup then 0 else cycles
    }

    ghost function View(): Core
      reads this, regs, regs.frontendRAT, regs.backendRAT
    {
      Core(now, warmup, numRetired, fetchResume, inputQueue, ifetch, dibHit, decode, dispatch, rob, lq, sq, regs.View(), retired,
           program, written)
    }

    ghost predicate RegistersValid()
      reads this, regs, regs.frontendRAT, regs.backendRAT
    {
      && regs.Valid()
      && |regs.physicalRegisterFile| <= ARCH_REGISTERS
      && RenameInv(regs.View(), rob, scheduled, retired)
      && ReadyInOrder(rob, scheduled, now + Latency(cfg.schedulingLatency))
    }

    ghost predicate MemoryValid()
      reads this
    {
      && LsqInv(rob, lq, sq)
      && StoresKnown(retired + rob, sq)
      && |sq| <= cfg.sqSize
      && StoresWritten(retired, written, sq)
    }

    ghost predicate FrontValid()
      reads this
    {
      && PipelineInv(retired, rob, dispatch, dibHit, decode, ifetch, program)
      && Untouched(dispatch) && Untouched(dibHit) && Untouched(decode) && Untouched(ifetch) && Untouched(inputQueue)
      && InProgramOrder(inputQueue)
      && ReadBefore(program, inputQueue)
      && |ifetch| <= cfg.ifetchBufferSize && |decode| <= cfg.decodeBufferSize && |dibHit| <= cfg.dibHitBufferSize
      && |dispatch| <= cfg.dispatchBufferSize && |rob| <= cfg.robSize
      && numRetired == |retired|
    }

    /** Fetch waits for at most one branch, and nothing is read behind it. */
    ghost predicate FetchValid()
      reads this
    {
      FetchInv(fetchResume, retired, rob, dispatch, dibHit, decode, ifetch) && Unguessed(inputQueue)
    }

    ghost predicate Valid()
      reads this, regs, regs.frontendRAT, regs.backendRAT
    {
      RegistersValid() && MemoryValid() && FrontValid() && FetchValid()
    }

    constructor (cfg: Config)
      requires cfg.registerFileSize <= ARCH_REGISTERS
      ensures Valid() && fresh(regs) && fresh(regs.frontendRAT) && fresh(regs.backendRAT)
      ensures this.cfg == cfg && warmup && retired == [] && program == [] && rob == []
    {
      this.cfg := cfg;
      regs := new RegisterAllocator(cfg.registerFileSize);
      now, warmup, numRetired, fetchResume := 0, true, 0, At(0);
      inputQueue, ifetch, dibHit, decode, dispatch, rob := [], [], [], [], [], [];
      lq := EmptySlots(cfg.lqSize);
      sq := [];
      retired, program, written, scheduled := [], [], [], 0;
      new;
      hide Valid;
      EmptyIsValid();
    }

    lemma EmptyIsValid()
      requires regs.Valid() && regs.View() == InitialAlloc(cfg.registerFileSize)
      requires |regs.physicalRegisterFile| <= ARCH_REGISTERS && numRetired == 0 && scheduled == 0
      requires inputQueue == [] && ifetch == [] && dibHit == [] && decode == [] && dispatch == [] && rob == []
      requires sq == [] && retired == [] && program == [] && written == [] && lq == EmptySlots(cfg.lqSize)
      requires fetchResume.At?
      ensures Valid()
    {
      hide RenameInv, LsqInv, PipelineInv, FetchInv, WellFormed, HasId, Unrenamed, InitialAlloc, EmptySlots;
      InitialRenaming(cfg.registerFileSize);
      InitialMemory(cfg.lqSize);
      InitialPipeline();
      EmptyStall(fetchResume);
      assert RegistersValid();
      hide RegistersValid;
      assert FrontValid();
      hide FrontValid;
    }

    // ---- what every reachable state promises ---------------------------------------------

    /** Dataflow: a source of a scheduled entry names a register that is not free, and that holds
        or will hold the value of the youngest older writer in program order. */
    lemma Dataflow(k: nat, m: nat)
      requires Valid() && k < |rob| && rob[k].scheduled && m < |rob[k].src|
      ensures |rob[k].archSrc| == |rob[k].src| && 0 <= rob[k].src[m] < |regs.physicalRegisterFile|
      ensures rob[k].src[m] !in regs.freeRegisters
      ensures regs.physicalRegisterFile[rob[k].src[m]].producer == ProducerId(retired + rob, |retired| + k, rob[k].archSrc[m])
      ensures rob[k].executed ==> ProducerDone(rob, k, rob[k].archSrc[m])
    {
      hide FetchInv, Unguessed, ReadBefore, RenameInv, LsqInv, PipelineInv, WellFormed;
      hide MemoryValid, FrontValid, ReadyInOrder, YoungestWriter, ProducerDone, ProducerId;
      ExecutedIsScheduled(regs.View(), rob, scheduled, retired, k);
      RenamingPreservesDataflow(regs.View(), rob, scheduled, retired, k, m);
    }

    /** Order and accounting: what retired is a prefix of the program, every memory operation of
        an entry is finished, queued as a load, or queued as an unexecuted store, exactly once,
        and executed stores come first in a queue in program order. */
    lemma OrderAndAccounting(k: nat)
      requires Valid() && k < |rob|
      ensures Ops(retired) <= program && |retired| == numRetired
      ensures rob[k].completedMemOps + Live(lq, |lq|, rob[k].id) + Unfetched(sq, |sq|, rob[k].id) == rob[k].NumMemOps()
      ensures rob[k].completed ==> rob[k].completedMemOps == rob[k].NumMemOps()
      ensures forall i, j :: 0 <= i < j < |sq| ==> sq[i].id <= sq[j].id && (sq[j].issued ==> sq[i].issued)
    {
      hide RegistersValid, PipelineInv, StoresKnown, StoresWritten, Linked, Forwards, Owned, InProgramOrder;
      RetiredIsPrefix(retired, rob, dispatch, dibHit, decode, ifetch, program);
    }

    /** After a misprediction: fetch waits indefinitely exactly while a mispredicted branch is
        unresolved in some stage, and that branch is the last instruction read, so there is only
        one and nothing is in flight behind it. */
    lemma FetchWaits()
      requires Valid()
      ensures fetchResume.Never? <==> exists i :: i in rob + dispatch + dibHit + decode + ifetch && Unresolved(i)
      ensures forall i :: i in rob + dispatch + dibHit + decode + ifetch && Unresolved(i) ==>
        program != [] && OpOf(i) == program[|program| - 1]
    {
      hide RegistersValid, MemoryValid, PipelineInv, Untouched, Unresolved, InProgramOrder, Unguessed, StallInv;
      StalledByYoungest(fetchResume, retired, rob, dispatch, dibHit, decode, ifetch, program);
    }

    // ---- retirement ----------------------------------------------------------------------

    /** Commits the writes of the oldest unretired entry, `rob[k]`. */
    method CommitWrites(k: nat, ghost n: nat, ghost h: seq<Instr>)
      requires regs.Valid() && k < |rob| && rob[k].completed
      requires 1 <= n && RenameInv(regs.View(), rob[k..], n, h)
      modifies regs, regs.backendRAT
      ensures regs.Valid() && |regs.physicalRegisterFile| == old(|regs.physicalRegisterFile|)
      ensures RenameInv(regs.View(), rob[k + 1..], n - 1, h + [rob[k]])
    {
      hide FetchInv, Unguessed, ReadBefore, RenameInv;
      var i := rob[k];
      ghost var v := rob[k..];
      RetireBegin(regs.View(), v, n, h);
      v := v[0 := Retiring(i, 0)];
      for m := 0 to |i.dst|
        invariant regs.Valid() && Shaped(i) && |regs.physicalRegisterFile| == old(|regs.physicalRegisterFile|)
        invariant v == rob[k..][0 := Retiring(i, m)]
        invariant RenameInv(regs.View(), v, n, h + [Retired(i, m)])
      {
        CommitStep(regs.View(), v, n, h, i, m);
        regs.RetireDestRegister(i.dst[m]);
        v := v[0 := Retiring(i, m + 1)];
      }
      assert Retired(i, |i.dst|) == i by {
        assert i.archDst[..|i.dst|] == i.archDst;
      }
      RetireEnd(regs.View(), v, n, h + [i]);
      assert v[1..] == rob[k + 1..];
    }

    /** Commits the writes of the oldest `count` entries, which are completed. */
    method CommitSpan(count: nat)
      requires RegistersValid() && LsqInv(rob, lq, sq) && count <= |rob|
      requires forall k :: 0 <= k < count ==> rob[k].completed
      modifies regs, regs.backendRAT
      ensures regs.Valid() && |regs.physicalRegisterFile| <= ARCH_REGISTERS && count <= scheduled
      ensures RenameInv(regs.View(), rob[count..], scheduled - count, retired + rob[..count])
      ensures LsqInv(rob[count..], lq, sq)
    {
      hide FetchInv, Unguessed, ReadBefore, RenameInv, LsqInv, WellFormed, ReadyInOrder;
      assert rob[0..] == rob && retired + rob[..0] == retired;
      for k := 0 to count
        invariant regs.Valid() && |regs.physicalRegisterFile| <= ARCH_REGISTERS
        invariant k <= scheduled && RenameInv(regs.View(), rob[k..], scheduled - k, retired + rob[..k])
        invariant LsqInv(rob[k..], lq, sq)
      {
        CompletedIsScheduled(regs.View(), rob[k..], scheduled - k, retired + rob[..k]);
        CommitWrites(k, scheduled - k, retired + rob[..k]);
        assert retired + rob[..k] + [rob[k]] == retired + rob[..k + 1];
        RetireMemoryStep(rob[k..], lq, sq);
        assert rob[k..][1..] == rob[k + 1..];
      }
    }

    /** Retires the completed entries at the head of the reorder buffer, in order. */
    method RetireRob() returns (count: nat)
      requires Valid()
      modifies this`rob, this`numRetired, this`retired, this`scheduled, regs, regs.backendRAT
      ensures Valid() && count == CompletedSpan(old(rob), cfg.retireWidth)
      ensures Retires(cfg, old(View()), View())
    {
      hide FetchInv, Unguessed, ReadBefore, RenameInv, LsqInv, PipelineInv, WellFormed;
      hide Untouched, StoresKnown, StoresWritten, HasId, InProgramOrder, ReadyInOrder;
      hide CompletedSpan;
      count := CompletedSpan(rob, cfg.retireWidth);
      CommitSpan(count);
      numRetired := numRetired + count;
      RetireReady(rob, scheduled, count, now + Latency(cfg.schedulingLatency));
      RetirePipeline(retired, rob, dispatch, dibHit, decode, ifetch, program, count);
      RetireHistory(retired, rob, sq, written, count);
      RetireStall(fetchResume, retired, rob, dispatch, dibHit, decode, ifetch, count);
      retired := retired + rob[..count];
      rob := rob[count..];
      scheduled := scheduled - count;
      assert RegistersValid();
      hide RegistersValid;
      assert MemoryValid();
      hide MemoryValid;
    }

    // ---- completion ----------------------------------------------------------------------

    /** Marks the destinations of entry `k` valid. */
    method CompleteDestinations(k: nat)
      requires regs.Valid() && k < |rob|
      requires forall m :: 0 <= m < |rob[k].dst| ==> 0 <= rob[k].dst[m] < |regs.physicalRegisterFile|
      modifies regs
      ensures regs.Valid() && MarkedValid(old(regs.physicalRegisterFile), regs.physicalRegisterFile, rob[k].dst)
      ensures regs.View() == old(regs.View()).(file := regs.physicalRegisterFile)
    {
      var dst := rob[k].dst;
      for m := 0 to |dst|
        invariant regs.Valid() && MarkedValid(old(regs.physicalRegisterFile), regs.physicalRegisterFile, dst[..m])
        invariant regs.View() == old(regs.View()).(file := regs.physicalRegisterFile)
      {
        assert dst[..m + 1] == dst[..m] + [dst[m]];
        regs.CompleteDestRegister(dst[m]);
      }
      assert dst[..|dst|] == dst;
    }

    method DoCompleteExecution(k: nat)
      requires Valid() && k < |rob| && rob[k].executed && !rob[k].completed && rob[k].completedMemOps == rob[k].NumMemOps()
      modifies this`rob, this`fetchResume, regs
      ensures Valid()
      ensures rob == old(rob)[k := old(rob)[k].(completed := true)]
      ensures regs.View() == old(regs.View()).(file := regs.physicalRegisterFile)
      ensures fetchResume == if old(rob)[k].branch.mispredicted then At(now + cfg.mispredictPenalty) else old(fetchResume)
    {
      hide FetchInv, Unguessed, ReadBefore, RenameInv, LsqInv, PipelineInv, WellFormed, Untouched, HasId;
      ExecutedIsScheduled(regs.View(), rob, scheduled, retired, k);
      CompleteDestinations(k);
      ghost var i := rob[k].(completed := true);
      assert InProgramOrder(rob) by { OrderedByLsq(rob, lq, sq); }
      CompleteStep(old(regs.View()), regs.View(), rob, scheduled, retired, k, i);
      EntryProgress(retired, rob, k, i, lq, lq, sq, sq, written);
      ProgressPipeline(retired, rob, dispatch, dibHit, decode, ifetch, program, rob[k := i]);
      assert ReadyInOrder(rob[k := i], scheduled, now + Latency(cfg.schedulingLatency));
      hide ReadyInOrder, StoresKnown, InProgramOrder;
      ghost var resume := if i.branch.mispredicted then At(now + cfg.mispredictPenalty) else fetchResume;
      CompleteStall(fetchResume, retired, rob, dispatch, dibHit, decode, ifetch, k, rob[k := i], resume);
      rob := rob[k := rob[k].(completed := true)];
      if rob[k].branch.mispredicted {
        fetchResume := At(now + cfg.mispredictPenalty);
      }
    }

    /** Completes executed entries whose memory operations have all finished. */
    method CompleteInflightInstruction() returns (progress: nat, ghost stop: nat)
      requires Valid()
      modifies this`rob, this`fetchResume, regs
      ensures Valid() && stop <= |old(rob)| && progress == Completable(old(rob), stop, now)
      ensures Completes(cfg, old(View()), View(), stop)
    {
      hide Valid, SettlesAny, CompletesUpTo;
      CompletesNone(rob, now);
      var k := 0;
      progress := 0;
      SettlesNone(rob);
      while k < |rob| && progress < cfg.execWidth
        invariant Valid() && k <= |rob| == |old(rob)| && progress == Completable(old(rob), k, now) <= cfg.execWidth
        invariant CompletesUpTo(old(rob), rob, k, now)
        invariant fetchResume == if SettlesAny(old(rob), rob) then At(now + cfg.mispredictPenalty) else old(fetchResume)
        invariant regs.View() == old(regs.View()).(file := regs.physicalRegisterFile)
        decreases |rob| - k
      {
        CompletesNext(old(rob), rob, k, now);
        if CanComplete(rob[k], now) {
          ghost var before := rob;
          DoCompleteExecution(k);
          SettlesStep(old(rob), before, k, rob);
          progress := progress + 1;
        }
        k := k + 1;
      }
      stop := k;
    }

    // ---- execution -----------------------------------------------------------------------

    /** Starts entry `k`: its loads and stores become ready after the execution latency. */
    method DoExecution(k: nat)
      requires Valid() && k < |rob| && rob[k].scheduled && !rob[k].executed
      requires SourcesValid(regs.View(), rob[k])
      modifies this`rob, this`lq, this`sq
      ensures Valid()
      ensures rob == old(rob)[k := old(rob)[k].(executed := true, ready := now + Latency(cfg.execLatency))]
      ensures MarkedReady(old(lq), lq, old(sq), sq, old(rob)[k].id, At(now + Latency(cfg.execLatency)))
    {
      hide FetchInv, Unguessed, ReadBefore, RenameInv, LsqInv, PipelineInv, WellFormed, Untouched, HasId, SourcesValid;
      var id := rob[k].id;
      var ready := now + Latency(cfg.execLatency);
      ExecutedIsScheduled(regs.View(), rob, scheduled, retired, k);
      MarkQueues(id, At(ready));
      ghost var i := rob[k].(executed := true, ready := ready);
      ExecuteStep(regs.View(), rob, scheduled, retired, k, i);
      MarkedSame(old(lq), lq, old(sq), sq, id, At(ready));
      hide MarkedReady, SameButReady, StoresWritten;
      EntryProgress(retired, rob, k, i, old(lq), lq, old(sq), sq, written);
      ProgressPipeline(retired, rob, dispatch, dibHit, decode, ifetch, program, rob[k := i]);
      assert ReadyInOrder(rob[k := i], scheduled, now + Latency(cfg.schedulingLatency));
      EntryStall(fetchResume, retired, rob, dispatch, dibHit, decode, ifetch, k, i);
      hide ReadyInOrder, StoresKnown, InProgramOrder;
      rob := rob[k := rob[k].(executed := true, ready := ready)];
    }

    method MarkQueues(id: nat, ready: Ready)
      modifies this`lq, this`sq
      ensures MarkedReady(old(lq), lq, old(sq), sq, id, ready)
    {
      for s := 0 to |lq|
        invariant |lq| == |old(lq)|
        invariant forall t :: 0 <= t < s ==> lq[t] == ReadySlot(old(lq)[t], id, ready)
        invariant forall t :: s <= t < |lq| ==> lq[t] == old(lq)[t]
        modifies this`lq
      {
        if lq[s].Some? && lq[s].value.id == id {
          lq := lq[s := Some(lq[s].value.(ready := ready))];
        }
      }
      for j := 0 to |sq|
        invariant |sq| == |old(sq)|
        invariant forall t :: 0 <= t < j ==> sq[t] == ReadyStore(old(sq)[t], id, ready)
        invariant forall t :: j <= t < |sq| ==> sq[t] == old(sq)[t]
        modifies this`sq
      {
        if sq[j].id == id {
          sq := sq[j := sq[j].(ready := ready)];
        }
      }
    }

    /** Whether every source of scheduled entry `k` is valid. */
    method SourcesReady(k: nat) returns (ready: bool)
      requires Valid() && k < |rob| && rob[k].scheduled
      ensures ready <==> SourcesValid(regs.View(), rob[k])
    {
      hide FetchInv, Unguessed, ReadBefore, RenameInv, LsqInv, PipelineInv, WellFormed, FrontValid, MemoryValid, ReadyInOrder;
      ExecutedIsScheduled(regs.View(), rob, scheduled, retired, k);
      ready := true;
      for m := 0 to |rob[k].src|
        invariant ready <==> forall t :: 0 <= t < m ==> regs.physicalRegisterFile[rob[k].src[t]].valid
      {
        ready := ready && regs.IsValid(rob[k].src[m]);
      }
    }

    /** Executes scheduled entries whose source registers are all valid. */
    method ExecuteInstruction() returns (progress: nat, ghost stop: nat)
      requires Valid()
      modifies this`rob, this`lq, this`sq
      ensures Valid() && stop <= |old(rob)| && progress == Startable(regs.View(), old(rob), stop, now)
      ensures Executes(cfg, old(View()), View(), stop)
    {
      hide Valid, SourcesValid, StartsMemory, MarkedReady, Starts;
      StartsNone(regs.View(), rob, now, now + Latency(cfg.execLatency));
      var k := 0;
      progress := 0;
      NoneStarted(regs.View(), rob, now, At(now + Latency(cfg.execLatency)), lq, sq);
      while k < |rob| && progress < cfg.execWidth
        invariant Valid() && k <= |rob| == |old(rob)| && progress == Startable(regs.View(), old(rob), k, now) <= cfg.execWidth
        invariant Starts(regs.View(), old(rob), rob, k, now, now + Latency(cfg.execLatency))
        invariant StartsMemory(regs.View(), old(rob), k, now, At(now + Latency(cfg.execLatency)), old(lq), lq, old(sq), sq)
        decreases |rob| - k
      {
        ghost var lq0, sq0 := lq, sq;
        StartsNext(regs.View(), old(rob), rob, k, now, now + Latency(cfg.execLatency));
        if rob[k].scheduled && !rob[k].executed && rob[k].ready <= now {
          var ready := SourcesReady(k);
          if ready {
            DoExecution(k);
            progress := progress + 1;
          }
        }
        StartedNext(regs.View(), old(rob), k, now, At(now + Latency(cfg.execLatency)), old(lq), lq0, lq, old(sq), sq0, sq);
        k := k + 1;
      }
      stop := k;
    }

    // ---- scheduling ----------------------------------------------------------------------

    /** How many of `names` the frontend table does not map. */
    method CountUnmapped(names: seq<int>) returns (c: nat)
      requires regs.Valid() && forall t :: 0 <= t < |names| ==> IsArch(names[t])
      ensures c == Unmapped(regs.View().frontend, names, 0)
    {
      c := 0;
      var m := |names|;
      while m > 0
        invariant 0 <= m <= |names| && c == Unmapped(regs.View().frontend, names, m)
      {
        m := m - 1;
        if !regs.IsAllocated(names[m]) {
          c := c + 1;
        }
      }
    }

    /** Renames the sources of entry `k` one after the other, in place. */
    method RenameSources(k: nat)
      requires regs.Valid() && k < |rob| && Unrenamed(rob[k])
      requires RenameInv(regs.View(), rob, scheduled, retired)
      requires |regs.freeRegisters| >= Unmapped(regs.View().frontend, rob[k].archSrc, 0) + |rob[k].dst|
      modifies this`rob, regs, regs.frontendRAT, regs.backendRAT
      ensures regs.Valid() && |regs.physicalRegisterFile| == old(|regs.physicalRegisterFile|)
      ensures |rob| == |old(rob)| && |rob[k].src| == |rob[k].archSrc|
      ensures rob == old(rob)[k := old(rob)[k].(src := rob[k].src)]
      ensures RenameInv(regs.View(), old(rob), scheduled, retired)
      ensures forall m :: 0 <= m < |rob[k].src| ==> 0 <= rob[k].src[m] == regs.View().frontend[rob[k].archSrc[m]]
      ensures |regs.freeRegisters| >= |rob[k].dst|
    {
      hide FetchInv, Unguessed, ReadBefore, RenameInv, Unmapped, RenameSrc;
      var names := rob[k].src;
      for m := 0 to |names|
        invariant regs.Valid() && |regs.physicalRegisterFile| == old(|regs.physicalRegisterFile|)
        invariant |rob| == |old(rob)| && |rob[k].src| == |names|
        invariant rob == old(rob)[k := old(rob)[k].(src := rob[k].src)]
        invariant RenameInv(regs.View(), old(rob), scheduled, retired)
        invariant forall t :: 0 <= t < m ==> 0 <= rob[k].src[t] == regs.View().frontend[names[t]]
        invariant forall t :: m <= t < |names| ==> rob[k].src[t] == names[t]
        invariant |regs.freeRegisters| >= Unmapped(regs.View().frontend, names, m) + |rob[k].dst|
      {
        SourceStep(regs.View(), old(rob), scheduled, retired, names, m, |rob[k].dst|);
        var p := regs.RenameSrcRegister(rob[k].src[m]);
        rob := rob[k := rob[k].(src := rob[k].src[m := p])];
      }
    }

    /** Gives every destination of entry `k` a free register, in place. */
    method RenameDestinations(k: nat, ghost before: seq<Instr>)
      requires regs.Valid() && k == scheduled < |rob| && |before| == |rob|
      requires rob == before[k := before[k].(src := rob[k].src)]
      requires Unrenamed(before[k]) && |rob[k].src| == |rob[k].archSrc|
      requires RenameInv(regs.View(), before[k := Renamed(before[k], rob[k].src)], scheduled + 1, retired)
      requires |regs.freeRegisters| >= |rob[k].dst|
      modifies this`rob, regs, regs.frontendRAT
      ensures regs.Valid() && |regs.physicalRegisterFile| == old(|regs.physicalRegisterFile|)
      ensures |rob| == |old(rob)| && rob == old(rob)[k := old(rob)[k].(dst := rob[k].dst)]
      ensures RenameInv(regs.View(), before[k := rob[k].(scheduled := true)], scheduled + 1, retired)
    {
      hide FetchInv, Unguessed, ReadBefore, RenameInv;
      var names := rob[k].dst;
      ghost var v := before[k := Renamed(before[k], rob[k].src)];
      for m := 0 to |names|
        invariant regs.Valid() && |regs.physicalRegisterFile| == old(|regs.physicalRegisterFile|)
        invariant |rob| == |before| && |rob[k].dst| == |names|
        invariant rob == old(rob)[k := old(rob)[k].(dst := rob[k].dst)]
        invariant forall t :: m <= t < |names| ==> rob[k].dst[t] == names[t]
        invariant v == before[k := rob[k].(scheduled := true, dst := rob[k].dst[..m], archDst := names[..m])]
        invariant RenameInv(regs.View(), v, scheduled + 1, retired)
        invariant |regs.freeRegisters| >= |names| - m
      {
        DestinationStep(regs.View(), v, k, retired, names[m]);
        v := v[k := WithDst(v[k], names[m], regs.freeRegisters[0])];
        ghost var taken := rob[k].dst[..m];
        var p := regs.RenameDestRegister(rob[k].dst[m], rob[k].id);
        rob := rob[k := rob[k].(dst := rob[k].dst[m := p])];
        assert names[..m + 1] == names[..m] + [names[m]];
        assert rob[k].dst[..m + 1] == taken + [p];
      }
      assert names[..|names|] == names && rob[k].dst[..|names|] == rob[k].dst;
    }

    /** Renames entry `k`. */
    method RenameEntry(k: nat)
      requires RegistersValid() && k == scheduled < |rob|
      requires |regs.freeRegisters| >= Unmapped(regs.View().frontend, rob[k].archSrc, 0) + |rob[k].dst|
      modifies this`rob, regs, regs.frontendRAT, regs.backendRAT
      ensures regs.Valid() && |regs.physicalRegisterFile| == old(|regs.physicalRegisterFile|)
      ensures |rob| == |old(rob)|
      ensures rob == old(rob)[k := old(rob)[k].(src := rob[k].src, dst := rob[k].dst)]
      ensures RenameInv(regs.View(), old(rob)[k := rob[k].(scheduled := true)], scheduled + 1, retired)
    {
      hide FetchInv, Unguessed, ReadBefore, RenameInv, WellFormed;
      ExecutedIsScheduled(regs.View(), rob, scheduled, retired, k);
      ghost var before := rob;
      RenameSources(k);
      BeginScheduleStep(regs.View(), before, scheduled, retired, rob[k].src);
      RenameDestinations(k, before);
    }

    /** Schedules entry `k`: first its sources, then its destinations, are renamed. */
    method DoScheduling(k: nat)
      requires Valid() && k == scheduled < |rob|
      requires |regs.freeRegisters| >= Unmapped(regs.View().frontend, rob[k].archSrc, 0) + |rob[k].dst|
      modifies this`rob, this`scheduled, regs, regs.frontendRAT, regs.backendRAT
      ensures Valid() && scheduled == old(scheduled) + 1
      ensures rob == old(rob)[k := old(rob)[k].(src := rob[k].src, dst := rob[k].dst, scheduled := true)]
    {
      hide FetchInv, Unguessed, ReadBefore, RenameInv, LsqInv, PipelineInv, WellFormed;
      hide Untouched, HasId, Unmapped, ReadyInOrder, StoresKnown, StoresWritten, InProgramOrder;
      ExecutedIsScheduled(regs.View(), rob, scheduled, retired, k);
      ghost var before := rob;
      RenameEntry(k);
      ghost var i := rob[k].(scheduled := true);
      ScheduledReady(before, k, i, now + Latency(cfg.schedulingLatency));
      EntryProgress(retired, before, k, i, lq, lq, sq, sq, written);
      ProgressPipeline(retired, before, dispatch, dibHit, decode, ifetch, program, before[k := i]);
      EntryStall(fetchResume, retired, before, dispatch, dibHit, decode, ifetch, k, i);
      rob := rob[k := rob[k].(scheduled := true)];
      scheduled := scheduled + 1;
      assert rob == before[k := i];
      assert RegistersValid();
      hide RegistersValid;
      assert MemoryValid();
      hide MemoryValid;
      assert FrontValid();
      hide FrontValid;
    }

    /** Whether the free registers surely suffice to rename entry `k`. The test is made on every
        entry, renamed or not. */
    method EnoughRegisters(k: nat) returns (enough: bool)
      requires Valid() && k < |rob|
      ensures enough <==> !OutOfRegisters(regs.View(), rob[k])
      ensures enough && !rob[k].scheduled ==>
        |regs.freeRegisters| >= Unmapped(regs.View().frontend, rob[k].archSrc, 0) + |rob[k].dst|
    {
      hide FetchInv, Unguessed, ReadBefore, RenameInv, LsqInv, PipelineInv, WellFormed, FrontValid, MemoryValid, Unmapped;
      ExecutedIsScheduled(regs.View(), rob, scheduled, retired, k);
      var toAllocate := CountUnmapped(rob[k].src);
      enough := |regs.freeRegisters| >= toAllocate + |rob[k].dst|;
    }

    /** Entry `k` is the first that is not scheduled, if all before it are or are not ready. */
    lemma NextToSchedule(k: nat)
      requires Valid() && k < |rob| && !rob[k].scheduled && rob[k].ready <= now
      requires forall j :: 0 <= j < k ==> rob[j].scheduled || rob[j].ready > now
      ensures k == scheduled
    {
      hide FetchInv, Unguessed, ReadBefore, RenameInv, LsqInv, PipelineInv, WellFormed, FrontValid, MemoryValid;
      ExecutedIsScheduled(regs.View(), rob, scheduled, retired, k);
      if scheduled < k {
        ExecutedIsScheduled(regs.View(), rob, scheduled, retired, scheduled);
      }
    }

    /** Schedules ready entries in program order while registers and search bandwidth last. */
    method ScheduleInstruction() returns (progress: nat, ghost allocs: seq<Alloc>)
      requires Valid()
      modifies this`rob, this`scheduled, regs, regs.frontendRAT, regs.backendRAT
      ensures Valid() && scheduled == old(scheduled) + progress
      ensures Schedules(cfg, old(View()), View(), allocs)
    {
      hide Valid, OutOfRegisters, Unmapped, ScanStep, ScheduledUpTo;
      ScheduledNone(rob, now);
      var searchBw := cfg.schedulerSize;
      var k := 0;
      progress := 0;
      allocs := [regs.View()];
      while k < |rob| && searchBw > 0
        invariant Valid() && k <= |rob| == |old(rob)| && scheduled == old(scheduled) + progress
        invariant searchBw >= 0 && searchBw + Unexecuted(old(rob), k) == cfg.schedulerSize
        invariant forall j :: 0 <= j < k ==> rob[j].scheduled || rob[j].ready > now
        invariant |allocs| == k + 1 && allocs[0] == old(regs.View()) && allocs[k] == regs.View()
        invariant forall j :: 0 <= j < k ==> ScanStep(old(rob), allocs, j, now)
        invariant ScheduledUpTo(old(rob), rob, k, now)
        decreases |rob| - k
      {
        ghost var before := rob;
        NotYetScheduled(old(rob), rob, k, now);
        var room := EnoughRegisters(k);
        if !room {
          break;
        }
        if CanSchedule(rob[k], now) {
          NextToSchedule(k);
          DoScheduling(k);
          progress := progress + 1;
        }
        ScheduledNext(old(rob), before, rob, k, now);
        if !rob[k].executed {
          searchBw := searchBw - 1;
        }
        ScanNext(old(rob), allocs, regs.View(), k, now);
        allocs := allocs + [regs.View()];
        k := k + 1;
      }
    }

    // ---- dispatch and memory scheduling --------------------------------------------------

    /** The store a load of `addr` would take its value from: a scan for the greatest element
        under an order that ranks stores to other addresses lowest. */
    method FindForward(addr: Address) returns (best: nat)
      ensures sq == [] ==> best == 0
      ensures sq != [] ==> best < |sq|
      ensures sq != [] && sq[best].addr != addr ==> forall i :: 0 <= i < |sq| ==> sq[i].addr != addr
      ensures sq != [] && sq[best].addr == addr ==>
        forall i :: 0 <= i < |sq| && sq[i].addr == addr ==> sq[i].id <= sq[best].id && (i < best ==> sq[i].id < sq[best].id)
      ensures if sq != [] && sq[best].addr == addr then IsYoungest(sq, addr, best) else NoneTo(sq, addr)
    {
      best := 0;
      var i := 1;
      while i < |sq|
        invariant 1 <= i && (sq == [] || (i <= |sq| && best < i))
        invariant sq == [] ==> best == 0
        invariant sq != [] && sq[best].addr != addr ==> forall t :: 0 <= t < i ==> sq[t].addr != addr
        invariant sq != [] && sq[best].addr == addr ==>
          forall t :: 0 <= t < i && sq[t].addr == addr ==> sq[t].id <= sq[best].id && (t < best ==> sq[t].id < sq[best].id)
      {
        if sq[best].addr != addr || (sq[i].addr == addr && sq[best].id < sq[i].id) {
          best := i;
        }
        i := i + 1;
      }
    }

    method FindFreeSlot() returns (s: nat)
      requires FreeSlots(lq, |lq|) > 0
      ensures s < |lq| && lq[s].None? && forall t :: 0 <= t < s ==> lq[t].Some?
    {
      s := 0;
      while s < |lq| && lq[s].Some?
        invariant s <= |lq| && FreeSlots(lq, s) == 0 && forall t :: 0 <= t < s ==> lq[t].Some?
      {
        s := s + 1;
      }
    }

    /** Places a load of instruction `id` and says whether it is finished: it is at once if the
        youngest store to its address has executed, waits for that store if it has not, and
        otherwise will go to the cache. */
    method PlaceLoad(id: nat, addr: Address) returns (done: bool)
      requires FreeSlots(lq, |lq|) > 0
      modifies this`lq, this`sq
      ensures LoadOutcome(old(lq), old(sq), lq, sq, id, addr, done)
      ensures |lq| == |old(lq)| && FreeSlots(lq, |lq|) + 1 >= old(FreeSlots(lq, |lq|))
    {
      hide IsYoungest, NoneTo, Forwardable, LoadOutcome;
      var s := FindFreeSlot();
      var e := LqEntry(id, addr, Never, false, None);
      var best := FindForward(addr);
      if sq != [] && sq[best].addr == addr {
        if sq[best].issued {
          OutcomeForwarded(lq, sq, id, addr, best);
          return true;
        }
        OutcomeWaits(lq, sq, id, addr, s, best);
        FreeSlotsUpdate(lq, |lq|, s, Some(e.(producer := Some(sq[best].id))));
        lq := lq[s := Some(e.(producer := Some(sq[best].id)))];
        sq := sq[best := AddDependent(sq[best], s)];
      } else {
        OutcomeAlone(lq, sq, id, addr, s);
        FreeSlotsUpdate(lq, |lq|, s, Some(e));
        lq := lq[s := Some(e)];
      }
      done := false;
    }

    /** Queues load `m` of the youngest reorder-buffer entry, and counts it if it is finished. */
    method ScheduleLoad(m: nat)
      requires rob != [] && m < |rob[|rob| - 1].srcMem| && !rob[|rob| - 1].completed && FreeSlots(lq, |lq|) > 0
      requires forall j :: 0 <= j < |sq| ==> sq[j].id < rob[|rob| - 1].id
      requires LsqInv(rob[|rob| - 1 := Partial(rob[|rob| - 1], m, 0)], lq, sq)
      modifies this`rob, this`lq, this`sq
      ensures |rob| == |old(rob)| && |lq| == |old(lq)|
      ensures rob == old(rob)[|rob| - 1 := old(rob)[|rob| - 1].(completedMemOps := rob[|rob| - 1].completedMemOps)]
      ensures rob[|rob| - 1].completedMemOps
        == old(rob)[|rob| - 1].completedMemOps + One(Forwardable(old(sq), old(rob)[|rob| - 1].srcMem[m]))
      ensures LoadOutcome(old(lq), old(sq), lq, sq, old(rob)[|rob| - 1].id, old(rob)[|rob| - 1].srcMem[m],
                          Forwardable(old(sq), old(rob)[|rob| - 1].srcMem[m]))
      ensures FreeSlots(lq, |lq|) + 1 >= old(FreeSlots(lq, |lq|))
      ensures LsqInv(rob[|rob| - 1 := Partial(rob[|rob| - 1], m + 1, 0)], lq, sq)
    {
      hide LsqInv, IsYoungest, NoneTo, Forwardable, LoadOutcome;
      var k := |rob| - 1;
      var i := rob[k];
      var done := PlaceLoad(i.id, i.srcMem[m]);
      OutcomeDone(old(lq), old(sq), lq, sq, i.id, i.srcMem[m], done);
      ghost var v := rob[k := Partial(i, m, 0)];
      LoadStep(v, old(lq), old(sq), lq, sq, k, i.srcMem[m], done);
      PartialLoad(i, m);
      if done {
        rob := rob[k := Finished(i)];
      }
      assert rob[k := Partial(rob[k], m + 1, 0)] == v[k := AddLoad(v[k], i.srcMem[m], One(done))];
    }

    /** Queues the stores of the youngest reorder-buffer entry. */
    method QueueStores()
      requires rob != [] && !rob[|rob| - 1].completed
      requires forall j :: 0 <= j < |sq| ==> sq[j].id < rob[|rob| - 1].id
      requires LsqInv(rob[|rob| - 1 := Partial(rob[|rob| - 1], |rob[|rob| - 1].srcMem|, 0)], lq, sq)
      modifies this`sq
      ensures LsqInv(rob, lq, sq) && sq == old(sq) + NewStores(rob[|rob| - 1], |rob[|rob| - 1].dstMem|)
    {
      hide LsqInv;
      var k := |rob| - 1;
      var i := rob[k];
      for t := 0 to |i.dstMem|
        invariant sq == old(sq) + NewStores(i, t)
        invariant LsqInv(rob[k := Partial(i, |i.srcMem|, t)], lq, sq)
      {
        var e := SqEntry(i.id, i.dstMem[t], Never, false, []);
        StoreStep(rob[k := Partial(i, |i.srcMem|, t)], lq, sq, k, e);
        PartialStore(i, t);
        assert NewStores(i, t + 1) == NewStores(i, t) + [e];
        assert rob[k := Partial(i, |i.srcMem|, t)][k := Partial(i, |i.srcMem|, t + 1)] == rob[k := Partial(i, |i.srcMem|, t + 1)];
        sq := sq + [e];
      }
      PartialWhole(rob, k);
    }

    /** Queues the loads, then the stores, of the youngest reorder-buffer entry. */
    method DoMemoryScheduling()
      requires rob != [] && !rob[|rob| - 1].completed && rob[|rob| - 1].completedMemOps == 0
      requires FreeSlots(lq, |lq|) >= |rob[|rob| - 1].srcMem|
      requires forall j :: 0 <= j < |sq| ==> sq[j].id < rob[|rob| - 1].id
      requires LsqInv(rob[|rob| - 1 := Partial(rob[|rob| - 1], 0, 0)], lq, sq)
      modifies this`rob, this`lq, this`sq
      ensures |rob| == |old(rob)| && |lq| == |old(lq)|
      ensures rob == old(rob)[|rob| - 1 := old(rob)[|rob| - 1].(completedMemOps := rob[|rob| - 1].completedMemOps)]
      ensures LsqInv(rob, lq, sq)
      ensures Enters(old(rob)[|rob| - 1], old(lq), old(sq), lq, sq, rob[|rob| - 1].completedMemOps)
    {
      hide LsqInv, LoadsPlaced, LoadOutcome, Forwardable, Settled, FreeSlots, NewStores;
      var k := |rob| - 1;
      ghost var slots: seq<Option<nat>> := [];
      NonePlaced(rob[k].id, lq, sq);
      for m := 0 to |rob[k].srcMem|
        invariant |rob| == |old(rob)| && |lq| == |old(lq)|
        invariant rob == old(rob)[k := old(rob)[k].(completedMemOps := rob[k].completedMemOps)]
        invariant rob[k].completedMemOps == Settled(slots)
        invariant FreeSlots(lq, |lq|) >= |rob[k].srcMem| - m
        invariant LoadsPlaced(rob[k].id, rob[k].srcMem[..m], old(lq), old(sq), lq, sq, slots)
        invariant LsqInv(rob[k := Partial(rob[k], m, 0)], lq, sq)
      {
        ghost var lq0, sq0 := lq, sq;
        PlacedStores(rob[k].id, rob[k].srcMem[..m], old(lq), old(sq), lq, sq, slots, rob[k].id);
        ScheduleLoad(m);
        assert rob[k].srcMem[..m + 1] == rob[k].srcMem[..m] + [rob[k].srcMem[m]];
        slots := PlaceNext(rob[k].id, rob[k].srcMem[..m], rob[k].srcMem[m], old(lq), old(sq), lq0, sq0, lq, sq, slots,
                           Forwardable(sq0, rob[k].srcMem[m]));
      }
      ghost var stores := sq;
      assert rob[k].srcMem[..|rob[k].srcMem|] == rob[k].srcMem;
      PlacedStores(rob[k].id, rob[k].srcMem, old(lq), old(sq), lq, sq, slots, rob[k].id);
      QueueStores();
      assert sq[..|stores|] == stores && sq[|stores|..] == NewStores(rob[k], |rob[k].dstMem|);
      SameNewStores(old(rob)[k], rob[k]);
    }

    /** Pushes `i`, queues its memory operations and makes it ready after the scheduling latency. */
    method Enter(i: Instr)
      requires !i.completed && i.completedMemOps == 0 && FreeSlots(lq, |lq|) >= |i.srcMem|
      requires forall j :: 0 <= j < |sq| ==> sq[j].id < i.id
      requires LsqInv((rob + [i])[|rob| := Partial(i, 0, 0)], lq, sq)
      modifies this`rob, this`lq, this`sq
      ensures |rob| == |old(rob)| + 1 && |lq| == |old(lq)|
      ensures rob == old(rob) + [i.(completedMemOps := rob[|old(rob)|].completedMemOps,
                                    ready := now + Latency(cfg.schedulingLatency))]
      ensures Enters(i, old(lq), old(sq), lq, sq, rob[|old(rob)|].completedMemOps)
      ensures LsqInv(old(rob) + [i.(completedMemOps := rob[|old(rob)|].completedMemOps)], lq, sq)
    {
      hide LsqInv, FreeSlots, Enters;
      rob := rob + [i];
      DoMemoryScheduling();
      assert rob == old(rob) + [i.(completedMemOps := rob[|rob| - 1].completedMemOps)];
      rob := rob[|rob| - 1 := rob[|rob| - 1].(ready := now + Latency(cfg.schedulingLatency))];
    }

    /** Moves the oldest decoded instruction into the reorder buffer and the memory queues. */
    method DispatchOne()
      requires Valid() && dispatch != [] && |rob| < cfg.robSize
      requires FreeSlots(lq, |lq|) >= |dispatch[0].srcMem| && |dispatch[0].dstMem| + |sq| <= cfg.sqSize
      modifies this`rob, this`dispatch, this`lq, this`sq
      ensures Valid() && dispatch == old(dispatch)[1..] && |rob| == |old(rob)| + 1 && |lq| == |old(lq)|
      ensures rob == old(rob) + [old(dispatch)[0].(completedMemOps := rob[|old(rob)|].completedMemOps,
                                                   ready := now + Latency(cfg.schedulingLatency))]
      ensures Enters(old(dispatch)[0], old(lq), old(sq), lq, sq, rob[|old(rob)|].completedMemOps)
    {
      hide FetchInv, Unguessed, ReadBefore, RenameInv, LsqInv, PipelineInv, WellFormed, Untouched, HasId, Unrenamed, Enters;
      hide InProgramOrder, StoresKnown, StoresWritten, ReadyInOrder, FreeSlots, SameStores, NewStores;
      var i := dispatch[0];
      ghost var rob0, sq0, lq0 := rob, sq, lq;
      DispatchReady(retired, rob, dispatch, dibHit, decode, ifetch, program, lq, sq, written);
      Enter(i);
      dispatch := dispatch[1..];
      ghost var j := rob[|rob0|];
      EnteredStores(i, lq0, sq0, lq, sq, j.completedMemOps);
      DispatchRegisters(rob0, i, j);
      hide RegistersValid;
      DispatchMemory(retired, rob0, i, lq, sq0, sq, j, written);
      DispatchPipeline(retired, rob0, old(dispatch), dibHit, decode, ifetch, program, j);
      DispatchStall(fetchResume, retired, rob0, old(dispatch), dibHit, decode, ifetch, j);
      assert MemoryValid();
      hide MemoryValid;
      assert FrontValid();
      hide FrontValid;
    }

    method CountFreeSlots() returns (c: nat)
      ensures c == FreeSlots(lq, |lq|)
    {
      c := 0;
      for s := 0 to |lq|
        invariant c == FreeSlots(lq, s)
      {
        if lq[s].None? {
          c := c + 1;
        }
      }
    }

    /** Dispatches ready instructions while the reorder buffer and memory queues have room. */
    method DispatchInstruction() returns (progress: nat, ghost queues: seq<Queues>)
      requires Valid()
      modifies this`rob, this`dispatch, this`lq, this`sq
      ensures Valid() && Dispatches(cfg, old(View()), View(), queues, progress)
    {
      hide Valid, FreeSlots, Enters, Dispatched;
      SizesBounded();
      progress := 0;
      queues := [Queues(lq, sq)];
      DispatchedNone(cfg, View());
      while progress < cfg.dispatchWidth && dispatch != []
        invariant Valid() && progress <= cfg.dispatchWidth && progress <= |old(dispatch)| && |rob| <= cfg.robSize
        invariant dispatch == old(dispatch)[progress..] && |rob| == |old(rob)| + progress
        invariant |queues| == progress + 1 && queues[progress] == Queues(lq, sq)
        invariant Dispatched(cfg, old(View()), rob, queues, progress)
        decreases |dispatch|
      {
        var free := CountFreeSlots();
        assert MayDispatch(cfg, dispatch[0], |rob|, Queues(lq, sq), now) <==>
          dispatch[0].ready <= now && |rob| != cfg.robSize && free >= |dispatch[0].srcMem| && |dispatch[0].dstMem| + |sq| <= cfg.sqSize;
        if dispatch[0].ready > now || |rob| == cfg.robSize || free < |dispatch[0].srcMem|
           || |dispatch[0].dstMem| + |sq| > cfg.sqSize {
          break;
        }
        ghost var rob0 := rob;
        DispatchOne();
        DispatchedNext(cfg, old(View()), rob0, queues, progress, rob[|rob0|], Queues(lq, sq));
        queues := queues + [Queues(lq, sq)];
        progress := progress + 1;
      }
    }

    lemma SizesBounded()
      requires Valid()
      ensures |rob| <= cfg.robSize
    {
      hide RegistersValid, MemoryValid, FetchValid, PipelineInv;
    }

    lemma DispatchRegisters(rob0: seq<Instr>, i: Instr, j: Instr)
      requires regs.Valid() && |regs.physicalRegisterFile| <= ARCH_REGISTERS
      requires RenameInv(regs.View(), rob0, scheduled, retired)
      requires ReadyInOrder(rob0, scheduled, now + Latency(cfg.schedulingLatency))
      requires Unrenamed(i) && rob == rob0 + [j]
      requires j == i.(completedMemOps := j.completedMemOps, ready := now + Latency(cfg.schedulingLatency))
      ensures RegistersValid()
    {
      hide FetchInv, Unguessed, ReadBefore, RenameInv;
      DispatchStep(regs.View(), rob0, scheduled, retired, j);
    }

    // ---- the load and store queues -------------------------------------------------------

    /** Counts one finished operation of instruction `id`, found by binary search. */
    method FinishInRob(id: nat) returns (k: nat)
      requires InProgramOrder(rob) && HasId(rob, id)
      requires forall j :: 0 <= j < |rob| && rob[j].id == id ==> rob[j].completedMemOps < rob[j].NumMemOps()
      modifies this`rob
      ensures k < |rob| == |old(rob)| && old(rob)[k].id == id
      ensures rob == old(rob)[k := Finished(old(rob)[k])]
      ensures rob[k].completedMemOps <= rob[k].NumMemOps()
    {
      k := PartitionPoint(rob, (x: Instr) => x.id < id);
      assert k < |rob| && rob[k].id == id by {
        var m :| 0 <= m < |rob| && rob[m].id == id;
        assert k <= m;
      }
      rob := rob[k := rob[k].(completedMemOps := rob[k].completedMemOps + 1)];
    }

    /** Releases the load in slot `sq[j].deps[x]`: it must still wait for this store. The
        entry `own` of the store itself is already counted. */
    method ReleaseDependent(j: nat, x: nat, ghost own: nat)
      requires j < |sq| && !sq[j].issued && x < |sq[j].deps|
      requires own < |rob| && rob[own].id == sq[j].id && rob[own].completedMemOps > 0
      requires LsqInv(rob[own := Unfinished(rob[own])], lq, sq[j := sq[j].(deps := sq[j].deps[x..])])
      modifies this`rob, this`lq
      ensures OnlyMemOps(old(rob), rob) && rob[own] == old(rob)[own]
      ensures sq[j].deps[x] < |lq| == |old(lq)| && lq == old(lq)[sq[j].deps[x] := None]
      ensures LsqInv(rob[own := Unfinished(rob[own])], lq, sq[j := sq[j].(deps := sq[j].deps[x + 1..])])
    {
      hide LsqInv;
      var d := sq[j].deps[x];
      ghost var v := rob[own := Unfinished(rob[own])];
      ghost var sq' := sq[j := sq[j].(deps := sq[j].deps[x..])];
      DependentPending(rob, lq, sq', own, j);
      assert lq[d].Some?;
      assert lq[d].value.producer == Some(sq[j].id);
      var k := FinishInRob(lq[d].value.id);
      ReleaseStep(v, lq, sq', j, k);
      lq := lq[d := None];
      assert rob[own := Unfinished(rob[own])] == v[k := Finished(v[k])];
      assert sq[j := sq[j].(deps := sq[j].deps[x + 1..])] == sq'[j := ReleaseFirst(sq'[j])];
    }

    /** Executes store `j`: counts it, then releases every load that waits for it. */
    method DoFinishStore(j: nat)
      requires LsqInv(rob, lq, sq) && j < |sq| && !sq[j].issued
      modifies this`rob, this`lq
      ensures OnlyMemOps(old(rob), rob) && |lq| == |old(lq)|
      ensures forall s :: 0 <= s < |lq| && s !in sq[j].deps ==> lq[s] == old(lq)[s]
      ensures forall s :: 0 <= s < |lq| && s in sq[j].deps ==> lq[s].None?
      ensures exists own: nat :: own < |rob| && Executing(rob, lq, sq, j, own)
    {
      hide LsqInv;
      var e := sq[j];
      StoreOwner(rob, lq, sq, j);
      var own := FinishInRob(e.id);
      assert rob[own := Unfinished(rob[own])] == old(rob);
      assert sq[j := e.(deps := e.deps[0..])] == sq;
      for x := 0 to |e.deps|
        invariant OnlyMemOps(old(rob), rob) && |lq| == |old(lq)|
        invariant rob[own].id == e.id && rob[own].completedMemOps > 0
        invariant LsqInv(rob[own := Unfinished(rob[own])], lq, sq[j := e.(deps := e.deps[x..])])
        invariant forall s :: 0 <= s < |lq| && s !in e.deps[..x] ==> lq[s] == old(lq)[s]
        invariant forall s :: 0 <= s < |lq| && s in e.deps[..x] ==> lq[s].None?
      {
        assert e.deps[..x + 1] == e.deps[..x] + [e.deps[x]];
        ReleaseDependent(j, x, own);
      }
      assert e.deps[..|e.deps|] == e.deps && e.deps[|e.deps|..] == [];
      assert Executing(rob, lq, sq, j, own);
    }

    /** Executes the stores `sq[from..from + count]`, the oldest ones that have not executed. */
    method ExecuteStores(from: nat, count: nat)
      requires LsqInv(rob, lq, sq) && from + count <= |sq|
      requires forall i :: 0 <= i < from ==> sq[i].issued
      requires forall i :: from <= i < from + count ==> !sq[i].issued
      modifies this`rob, this`lq, this`sq
      ensures LsqInv(rob, lq, sq) && OnlyMemOps(old(rob), rob) && |lq| == |old(lq)|
      ensures sq == Executed(old(sq), from, count, now) && Releases(old(lq), lq, old(sq), from, count)
    {
      hide LsqInv;
      for j := from to from + count
        invariant LsqInv(rob, lq, sq) && OnlyMemOps(old(rob), rob) && |lq| == |old(lq)| && |sq| == |old(sq)|
        invariant Releases(old(lq), lq, old(sq), from, j - from)
        invariant forall i :: 0 <= i < |sq| ==>
          sq[i] == if from <= i < j then old(sq)[i].(issued := true, ready := At(now)) else old(sq)[i]
      {
        DoFinishStore(j);
        ExecutedStep(rob, lq, sq, j, At(now));
        sq := sq[j := sq[j].(issued := true, ready := At(now))];
      }
    }

    /** Writes to the cache, in order, the executed stores of retired instructions. An entry's
        own flag is not consulted. */
    method CompleteStores(width: nat) returns (count: nat)
      requires Valid()
      modifies this`sq, this`written
      ensures Valid() && count == WritableSpan(old(sq), rob, width, now)
      ensures sq == old(sq)[count..] && written == old(written) + old(sq)[..count]
      ensures forall j :: 0 <= j < count ==> old(sq)[j].issued
    {
      hide FetchInv, Unguessed, ReadBefore, RenameInv, PipelineInv, LsqInv;
      hide StoresKnown, StoresWritten, Untouched, ReadyInOrder, WellFormed, InProgramOrder;
      count := WritableSpan(sq, rob, width, now);
      WriteStores(retired, rob, lq, sq, written, count);
      written := written + sq[..count];
      sq := sq[count..];
    }

    /** Sends loads that wait for no store to the cache, up to `width`. */
    method IssueLoads(width: nat) returns (issued: nat)
      requires Valid()
      modifies this`lq
      ensures Valid() && issued <= width && Sends(old(lq), lq, |old(lq)|, width, now)
    {
      hide FetchInv, Unguessed, ReadBefore, RenameInv, PipelineInv, LsqInv;
      hide StoresKnown, StoresWritten, Untouched, ReadyInOrder, WellFormed, InProgramOrder, Sends;
      SendsNone(lq, width, now);
      issued := 0;
      for s := 0 to |lq|
        invariant LsqInv(rob, lq, sq) && |lq| == |old(lq)| && issued == Min(width, Sendable(old(lq), s, now))
        invariant Sends(old(lq), lq, s, width, now)
      {
        SendsNext(old(lq), lq, s, width, now);
        if issued < width && CanSend(lq[s], now) {
          IssueStep(rob, lq, sq, s);
          issued := issued + 1;
          lq := lq[s := Some(lq[s].value.(issued := true))];
        }
      }
    }

    /** Executes ready stores and writes retired ones within the width; the data cache has room
        for `room` more writes. */
    method OperateStores(room: nat) returns (progress: nat, ghost released: Lq)
      requires Valid()
      modifies this`rob, this`lq, this`sq, this`written
      ensures Valid() && progress <= cfg.sqWidth && lq == released && StoresOperate(cfg, old(View()), View(), room)
    {
      hide FetchInv, Unguessed, ReadBefore, RenameInv, PipelineInv, LsqInv;
      hide StoresKnown, StoresWritten, Untouched, ReadyInOrder, WellFormed, InProgramOrder;
      hide StoreSpan, Executed, IssuedSpan, WritableSpan, Releases, Unguessed;
      ghost var rob0, sq0 := rob, sq;
      var from := FirstUnfetched();
      var ready := StoreSpan(sq, from, cfg.sqWidth, now);
      ExecuteStores(from, ready);
      released := lq;
      SameStoreIds(sq0, from, ready, now);
      StoresExecuted(retired, rob0, rob, scheduled, regs.View(), now + Latency(cfg.schedulingLatency), sq0, sq, written);
      ProgressPipeline(retired, rob0, dispatch, dibHit, decode, ifetch, program, rob);
      MemOpsStall(fetchResume, retired, rob0, rob, dispatch, dibHit, decode, ifetch);
      var completed := CompleteStores(Min(cfg.sqWidth - ready, room));
      SameHead(sq0, rob0, rob, from, ready, now, Min(cfg.sqWidth - ready, room));
      progress := ready + completed;
    }

    /** Operates the store queue, then sends loads; the data cache has room for `storeRoom` more
        writes and `loadRoom` more reads. */
    method OperateLsq(loadRoom: nat, storeRoom: nat) returns (progress: nat, ghost released: Lq)
      requires Valid()
      modifies this`rob, this`lq, this`sq, this`written
      ensures Valid() && progress <= cfg.sqWidth + cfg.lqWidth
      ensures MemoryOperates(cfg, old(View()), View(), loadRoom, storeRoom, released)
    {
      hide Valid, StoresOperate;
      progress, released := OperateStores(storeRoom);
      var issued := IssueLoads(Min(cfg.lqWidth, loadRoom));
      progress := progress + issued;
    }

    /** The first store that has not executed; the executed ones come first. */
    method FirstUnfetched() returns (n: nat)
      requires LsqInv(rob, lq, sq)
      ensures n == IssuedSpan(sq)
      ensures forall i :: 0 <= i < n ==> sq[i].issued
      ensures forall i :: n <= i < |sq| ==> !sq[i].issued
    {
      n := PartitionPoint(sq, (x: SqEntry) => x.issued);
      OnlyIssuedSpan(sq, n);
    }

    // ---- returns from the data cache -----------------------------------------------------

    /** Finishes the issued loads of one returned block. */
    method ReturnBlock(addr: Address)
      requires LsqInv(rob, lq, sq)
      modifies this`rob, this`lq
      ensures LsqInv(rob, lq, sq) && OnlyMemOps(old(rob), rob) && |lq| == |old(lq)|
      ensures forall s :: 0 <= s < |lq| ==> lq[s] == if Answers(old(lq)[s], addr) then None else old(lq)[s]
    {
      hide LsqInv;
      for s := 0 to |lq|
        invariant LsqInv(rob, lq, sq) && OnlyMemOps(old(rob), rob) && |lq| == |old(lq)|
        invariant forall t :: 0 <= t < s ==> lq[t] == if Answers(old(lq)[t], addr) then None else old(lq)[t]
        invariant forall t :: s <= t < |lq| ==> lq[t] == old(lq)[t]
      {
        if lq[s].Some? && lq[s].value.issued && BlockOf(lq[s].value.addr, BLOCK_SIZE) == BlockOf(addr, BLOCK_SIZE) {
          SlotOwner(rob, lq, sq, s);
          ghost var before := rob;
          var k := FinishInRob(lq[s].value.id);
          ReturnStep(before, lq, sq, s, k);
          lq := lq[s := None];
        }
      }
    }

    /** Handles as many returned blocks as the data-cache bandwidth allows. */
    method HandleMemoryReturn(returned: seq<Address>) returns (rest: seq<Address>)
      requires Valid()
      modifies this`rob, this`lq
      ensures Valid() && rest == returned[Min(cfg.l1dBandwidth, |returned|)..]
      ensures Answered(cfg, old(View()), View(), returned)
    {
      hide FetchInv, Unguessed, ReadBefore, RenameInv, PipelineInv, LsqInv;
      hide StoresKnown, StoresWritten, Untouched, ReadyInOrder, WellFormed, InProgramOrder;
      var n := Min(cfg.l1dBandwidth, |returned|);
      ghost var rob0 := rob;
      for i := 0 to n
        invariant LsqInv(rob, lq, sq) && OnlyMemOps(rob0, rob) && |lq| == |old(lq)|
        invariant forall s :: 0 <= s < |lq| ==> lq[s] == if AnsweredBy(old(lq)[s], returned, i) then None else old(lq)[s]
      {
        ReturnBlock(returned[i]);
      }
      StoresExecuted(retired, rob0, rob, scheduled, regs.View(), now + Latency(cfg.schedulingLatency), sq, sq, written);
      ProgressPipeline(retired, rob0, dispatch, dibHit, decode, ifetch, program, rob);
      MemOpsStall(fetchResume, retired, rob0, rob, dispatch, dibHit, decode, ifetch);
      rest := returned[n..];
    }

    // ---- the front of the pipeline -------------------------------------------------------

    /** Delivers an instruction of the trace to the input queue. */
    method Deliver(i: Instr)
      requires Valid() && Unrenamed(i) && i.completedMemOps == 0 && !i.branch.mispredicted
      requires forall j :: 0 <= j < |program| ==> program[j].id < i.id
      requires forall j :: 0 <= j < |inputQueue| ==> inputQueue[j].id < i.id
      modifies this`inputQueue
      ensures Valid() && inputQueue == old(inputQueue) + [i]
    {
      hide FetchInv, RenameInv, PipelineInv, LsqInv, StoresKnown, StoresWritten, ReadyInOrder, WellFormed, Unrenamed;
      inputQueue := inputQueue + [i];
    }

    /** Reads the next instruction: during warmup its registers are dropped, and it is ready at
        once. Says whether fetch stops behind it, and suspends fetch if it is mispredicted. */
    method InitializeOne(p: Prediction) returns (stop: bool)
      requires Valid() && inputQueue != [] && |ifetch| < cfg.ifetchBufferSize && !fetchResume.Never?
      modifies this`inputQueue, this`ifetch, this`program, this`fetchResume
      ensures Valid() && inputQueue == old(inputQueue)[1..] && |ifetch| == |old(ifetch)| + 1
      ensures ifetch == old(ifetch) + [Initialized(old(inputQueue)[0], p, warmup, now)]
      ensures program == old(program) + [OpOf(Initialized(old(inputQueue)[0], p, warmup, now))]
      ensures stop == StopsAt(old(inputQueue)[0], p, warmup)
      ensures fetchResume == if MissesAt(old(inputQueue)[0], p, warmup) then Never else old(fetchResume)
    {
      hide FetchInv, Unguessed, ReadBefore, RenameInv, PipelineInv, LsqInv;
      hide StoresKnown, StoresWritten, ReadyInOrder, WellFormed, StopsAt, MissesAt;
      hide Initialized, Untouched, InProgramOrder;
      var i := Initialized(inputQueue[0], p, warmup, now);
      ghost var resume := if MissesAt(inputQueue[0], p, warmup) then Never else fetchResume;
      ReadNext(p, i, resume);
      stop := StopsAt(inputQueue[0], p, warmup);
      if i.branch.mispredicted {
        fetchResume := Never;
      }
      program := program + [OpOf(i)];
      ifetch := ifetch + [i];
      inputQueue := inputQueue[1..];
    }

    /** What holds of the front of the pipeline once `i` has been read. */
    lemma ReadNext(p: Prediction, i: Instr, resume: Ready)
      requires Valid() && inputQueue != [] && !fetchResume.Never? && i == Initialized(inputQueue[0], p, warmup, now)
      requires resume == if MissesAt(inputQueue[0], p, warmup) then Never else fetchResume
      ensures i.branch.mispredicted == MissesAt(inputQueue[0], p, warmup)
      ensures PipelineInv(retired, rob, dispatch, dibHit, decode, ifetch + [i], program + [OpOf(i)])
      ensures FetchInv(resume, retired, rob, dispatch, dibHit, decode, ifetch + [i])
      ensures Untouched(ifetch + [i]) && Untouched(inputQueue[1..]) && Unguessed(inputQueue[1..])
      ensures InProgramOrder(inputQueue[1..]) && ReadBefore(program + [OpOf(i)], inputQueue[1..])
    {
      hide RegistersValid, MemoryValid, FetchInv, PipelineInv;
      InitializedUntouched(inputQueue[0], p, warmup, now);
      hide Unrenamed, Initialized, MissesAt;
      InitializePipeline(retired, rob, dispatch, dibHit, decode, ifetch, program, i);
      ReadStall(fetchResume, retired, rob, dispatch, dibHit, decode, ifetch, i, resume);
    }

    /** Fills the fetch buffer from the input queue, unless fetch waits for a mispredicted branch,
        up to the first branch behind which fetch stops; `answers` are the branch unit's. */
    method InitializeInstruction(answers: seq<Prediction>) returns (n: nat)
      requires Valid() && |answers| >= cfg.fetchWidth
      modifies this`inputQueue, this`ifetch, this`program, this`fetchResume
      ensures Valid() && Reads(cfg, old(View()), View(), answers, n)
    {
      hide Valid, Initialized, StopsAt, MissesAt, InProgramOrder, Apart, HasRead;
      FrontOrdered();
      HasReadNone(View(), answers);
      var width := Min(cfg.fetchWidth, cfg.ifetchBufferSize - |ifetch|);
      n := 0;
      var stop := false;
      while fetchResume.By(now) && n < width && !stop && inputQueue != []
        invariant Valid() && n <= |old(inputQueue)| && n <= width
        invariant inputQueue == old(inputQueue)[n..] && |ifetch| == |old(ifetch)| + n
        invariant HasRead(old(View()), ifetch, program, answers, n)
        invariant n > 0 ==> old(fetchResume).By(now)
        invariant forall k :: 0 <= k < n - 1 ==> !StopsAt(old(inputQueue)[k], answers[k], warmup)
        invariant stop <==> n > 0 && StopsAt(old(inputQueue)[n - 1], answers[n - 1], warmup)
        invariant n > 0 && MissesAt(old(inputQueue)[n - 1], answers[n - 1], warmup) ==> stop
        invariant fetchResume == if n > 0 && MissesAt(old(inputQueue)[n - 1], answers[n - 1], warmup) then Never else old(fetchResume)
        decreases |inputQueue|
      {
        MissStops(inputQueue[0], answers[n], warmup);
        HasReadNext(old(View()), ifetch, program, answers, n);
        stop := InitializeOne(answers[n]);
        n := n + 1;
      }
    }

    /** Marks fetched instructions: `hit` says which addresses the decoded-instruction buffer
        holds, `arrived` which the instruction cache has returned. */
    method MarkFetched(hit: set<nat>, arrived: set<nat>)
      requires Valid()
      modifies this`ifetch
      ensures Valid() && Arrives(old(View()), View(), hit, arrived)
    {
      hide FetchInv, Unguessed, ReadBefore, RenameInv, PipelineInv, LsqInv;
      hide StoresKnown, StoresWritten, ReadyInOrder, WellFormed, Unrenamed;
      ghost var before := ifetch;
      for k := 0 to |ifetch|
        invariant |ifetch| == |before|
        invariant forall j :: 0 <= j < k ==> ifetch[j] == Fetched(before[j], hit, arrived, now)
        invariant forall j :: k <= j < |ifetch| ==> ifetch[j] == before[j]
      {
        ifetch := ifetch[k := Fetched(ifetch[k], hit, arrived, now)];
      }
      FetchedPipeline(retired, rob, dispatch, dibHit, decode, before, program, ifetch, hit, arrived, now);
      assert SameFlags(before, ifetch);
      IfetchStall(fetchResume, retired, rob, dispatch, dibHit, decode, before, ifetch);
    }

    /** Promotes fetched instructions: those that hit in the decoded-instruction buffer bypass
        decode through their own buffer. */
    method PromoteToDecode() returns (n: nat)
      requires Valid()
      modifies this`ifetch, this`dibHit, this`decode
      ensures Valid() && n <= |old(ifetch)| && ifetch == old(ifetch)[n..]
      ensures Promotes(cfg, old(View()), View())
    {
      hide FetchInv, Unguessed, ReadBefore, RenameInv, PipelineInv, LsqInv, StoresKnown;
      hide StoresWritten, ReadyInOrder, WellFormed, InProgramOrder, Decoded, Untouched, PromotableSpan, Stamped;
      var room := Min(cfg.fetchWidth, Min(cfg.dibHitBufferSize - |dibHit|, cfg.decodeBufferSize - |decode|));
      n := PromotableSpan(ifetch, room, now);
      var hits := Decoded(ifetch[..n], true);
      var misses := Decoded(ifetch[..n], false);
      var dibTime, decodeTime := now + cfg.dibHitLatency, now + Latency(cfg.decodeLatency);
      Promoted(retired, rob, dispatch, dibHit, decode, ifetch, program, n, dibTime, decodeTime);
      PromotedStall(fetchResume, retired, rob, dispatch, dibHit, decode, ifetch, program, n, dibTime, decodeTime);
      dibHit := dibHit + Stamped(hits, dibTime);
      decode := decode + Stamped(misses, decodeTime);
      ifetch := ifetch[n..];
    }

    /** How many entries of each buffer go to dispatch: the next ready ones in program order,
        within the decode and in-order widths. */
    method ChooseDecoded(room: nat) returns (a: nat, b: nat)
      requires InProgramOrder(dibHit) && InProgramOrder(decode) && Apart(dibHit, decode)
      ensures IsCut(dibHit, decode, a, b) && a + b <= room && b <= cfg.decodeWidth
      ensures forall k :: 0 <= k < a ==> dibHit[k].ready <= now
      ensures forall k :: 0 <= k < b ==> decode[k].ready <= now
      ensures a + b == room || NoneReady(dibHit, decode, a, b, cfg.decodeWidth, now)
    {
      hide IsCut;
      a, b := 0, 0;
      assert IsCut(dibHit, decode, 0, 0) by { EmptyCut(dibHit, decode); }
      var inorderBw, decodeBw := room, cfg.decodeWidth;
      while a < |dibHit| && b < |decode| && inorderBw > 0 && decodeBw > 0
            && (if decode[b].id < dibHit[a].id then decode[b] else dibHit[a]).ready <= now
        invariant a <= |dibHit| && b <= |decode| && IsCut(dibHit, decode, a, b)
        invariant a + b + inorderBw == room && b + decodeBw == cfg.decodeWidth
        invariant forall k :: 0 <= k < a ==> dibHit[k].ready <= now
        invariant forall k :: 0 <= k < b ==> decode[k].ready <= now
        decreases inorderBw
      {
        if dibHit[a].id < decode[b].id {
          CutLeft(dibHit, decode, a, b);
          a := a + 1;
        } else {
          CutRight(dibHit, decode, a, b);
          b := b + 1;
          decodeBw := decodeBw - 1;
        }
        inorderBw := inorderBw - 1;
      }
      while a < |dibHit| && inorderBw > 0 && dibHit[a].ready <= now && (b == |decode| || dibHit[a].id < decode[b].id)
        invariant a <= |dibHit| && b <= |decode| && IsCut(dibHit, decode, a, b)
        invariant a + b + inorderBw == room && b + decodeBw == cfg.decodeWidth
        invariant forall k :: 0 <= k < a ==> dibHit[k].ready <= now
        invariant a == |dibHit| || b == |decode| || inorderBw == 0 || decodeBw == 0
          || (if decode[b].id < dibHit[a].id then decode[b] else dibHit[a]).ready > now
        decreases inorderBw
      {
        CutLeft(dibHit, decode, a, b);
        a := a + 1;
        inorderBw := inorderBw - 1;
      }
      while b < |decode| && inorderBw > 0 && decodeBw > 0 && decode[b].ready <= now
            && (a == |dibHit| || decode[b].id < dibHit[a].id)
        invariant a <= |dibHit| && b <= |decode| && IsCut(dibHit, decode, a, b)
        invariant a + b + inorderBw == room && b + decodeBw == cfg.decodeWidth
        invariant forall k :: 0 <= k < b ==> decode[k].ready <= now
        invariant a == |dibHit| || b == |decode| || inorderBw == 0 || decodeBw == 0
          || (if decode[b].id < dibHit[a].id then decode[b] else dibHit[a]).ready > now
        invariant a == |dibHit| || inorderBw == 0 || dibHit[a].ready > now || (b < |decode| && decode[b].id <= dibHit[a].id)
        decreases inorderBw
      {
        CutRight(dibHit, decode, a, b);
        b := b + 1;
        inorderBw := inorderBw - 1;
        decodeBw := decodeBw - 1;
      }
    }

    /** Decodes the first `b` entries in place: a misprediction that comes to light resumes fetch
        after the penalty. */
    method DoDecode(b: nat)
      requires b <= |decode|
      modifies this`decode, this`fetchResume
      ensures decode == AfterDecode(old(decode)[..b]) + old(decode)[b..]
      ensures fetchResume == if AnyResumes(old(decode)[..b]) then At(now + cfg.mispredictPenalty) else old(fetchResume)
    {
      hide Resumes, Resolved;
      for k := 0 to b
        invariant |decode| == |old(decode)|
        invariant forall j :: 0 <= j < k ==> decode[j] == Resolved(old(decode)[j])
        invariant forall j :: k <= j < |decode| ==> decode[j] == old(decode)[j]
        invariant fetchResume == if AnyResumes(old(decode)[..k]) then At(now + cfg.mispredictPenalty) else old(fetchResume)
      {
        ResumesNext(old(decode), k);
        ResolvedIs(decode[k]);
        if Resumes(decode[k]) {
          decode := decode[k := decode[k].(branch := decode[k].branch.(mispredicted := false))];
          fetchResume := At(now + cfg.mispredictPenalty);
        }
      }
    }

    /** Decodes: sends the chosen entries of both buffers, merged, to dispatch. */
    method DecodeInstruction() returns (a: nat, b: nat)
      requires Valid()
      modifies this`dispatch, this`dibHit, this`decode, this`fetchResume
      ensures Valid() && Decodes(cfg, old(View()), View(), a, b)
    {
      hide Valid, InProgramOrder, Apart, Merge, IsCut, NoneReady, AnyResumes, AfterDecode, Stamped;
      FrontOrdered();
      a, b := ChooseDecoded(Min(cfg.dibInorderWidth, cfg.dispatchBufferSize - |dispatch|));
      CutBounds(dibHit, decode, a, b);
      Decode(a, b);
    }

    lemma FrontOrdered()
      requires Valid()
      ensures InProgramOrder(dibHit) && InProgramOrder(decode) && Apart(dibHit, decode)
      ensures |dispatch| <= cfg.dispatchBufferSize && |ifetch| <= cfg.ifetchBufferSize
    {
      hide RegistersValid, MemoryValid, FetchValid, Untouched, InProgramOrder, Apart;
    }

    /** Sends the first `a` and `b` entries of the two buffers to dispatch. */
    method Decode(a: nat, b: nat)
      requires Valid() && IsCut(dibHit, decode, a, b) && a <= |dibHit| && b <= |decode| && |dispatch| + a + b <= cfg.dispatchBufferSize
      modifies this`dispatch, this`dibHit, this`decode, this`fetchResume
      ensures Valid() && dibHit == old(dibHit)[a..] && decode == old(decode)[b..]
      ensures dispatch == old(dispatch)
        + Stamped(Merge(old(dibHit)[..a], AfterDecode(old(decode)[..b])), now + Latency(cfg.dispatchLatency))
      ensures fetchResume == if AnyResumes(old(decode)[..b]) then At(now + cfg.mispredictPenalty) else old(fetchResume)
    {
      hide FetchInv, Unguessed, ReadBefore, RenameInv, LsqInv, StoresKnown, StoresWritten;
      hide ReadyInOrder, WellFormed, InProgramOrder, Merge, Untouched, IsCut;
      hide Apart, PipelineInv, AnyResumes, AfterDecode, Stamped;
      ghost var dec, resume, t := decode, fetchResume, now + Latency(cfg.dispatchLatency);
      DoDecode(b);
      DecodedAll(resume, retired, rob, dispatch, dibHit, dec, ifetch, program, a, b, t, fetchResume);
      assert decode[..b] == AfterDecode(dec[..b]) && decode[b..] == dec[b..];
      dispatch := dispatch + Stamped(Merge(dibHit[..a], decode[..b]), now + Latency(cfg.dispatchLatency));
      decode := decode[b..];
      dibHit := dibHit[a..];
      assert RegistersValid() && MemoryValid();
      hide RegistersValid, MemoryValid;
    }

    // ---- one cycle -----------------------------------------------------------------------

    /** Time passes; the warmup flag may only go from true to false. */
    method Tick(period: nat, stillWarm: bool)
      requires Valid() && (stillWarm ==> warmup)
      modifies this`now, this`warmup
      ensures Valid() && View() == old(View()).(now := old(View()).now + period, warmup := stillWarm)
    {
      hide FetchInv, Unguessed, ReadBefore, RenameInv, LsqInv, PipelineInv;
      hide StoresKnown, StoresWritten, WellFormed, InProgramOrder, Untouched;
      now := now + period;
      warmup := stillWarm;
    }

    /** The back end of a cycle: retire, complete, execute, schedule, then the memory system. */
    method OperateBackEnd(x: Inputs) returns (rest: seq<Address>, ghost b: BackEnd)
      requires Valid()
      modifies this`rob, this`lq, this`sq, this`numRetired, this`retired, this`written, this`scheduled, this`fetchResume, this`ifetch
      modifies regs, regs.frontendRAT, regs.backendRAT
      ensures rest == x.returned[Min(cfg.l1dBandwidth, |x.returned|)..]
      ensures Valid() && RunsBackEnd(cfg, old(View()), x, b, View())
    {
      hide Valid, View, Retires, Completes, Executes, Schedules, Arrives, Answered, MemoryOperates;
      var retiredCount := RetireRob();
      ghost var v1 := View();
      var completed, completeStop := CompleteInflightInstruction();
      ghost var v2 := View();
      var executed, executeStop := ExecuteInstruction();
      ghost var v3 := View();
      var scheduledCount, allocs := ScheduleInstruction();
      ghost var v4 := View();
      MarkFetched({}, x.arrived);
      ghost var v5 := View();
      rest := HandleMemoryReturn(x.returned);
      ghost var v6 := View();
      var progress, released := OperateLsq(x.loadRoom, x.storeRoom);
      b := BackEnd(v1, v2, v3, v4, v5, v6, completeStop, executeStop, allocs, released);
    }

    /** The front end of a cycle: dispatch, decode, promote, then fetch. */
    method OperateFrontEnd(x: Inputs) returns (ghost f: FrontEnd)
      requires Valid() && |x.answers| >= cfg.fetchWidth
      modifies this`rob, this`lq, this`sq, this`dispatch, this`dibHit, this`decode, this`ifetch, this`inputQueue, this`program,
               this`fetchResume
      ensures Valid() && RunsFrontEnd(cfg, old(View()), x, f, View())
    {
      hide Valid, View, Dispatches, Decodes, Promotes, Arrives, Reads;
      var dispatched, queues := DispatchInstruction();
      ghost var v1 := View();
      var hits, decodes := DecodeInstruction();
      ghost var v2 := View();
      var promoted := PromoteToDecode();
      ghost var v3 := View();
      MarkFetched(x.hit, {});
      ghost var v4 := View();
      var count := InitializeInstruction(x.answers);
      f := FrontEnd(v1, v2, v3, v4, queues, dispatched, hits, decodes, count);
    }

    /** One cycle: every stage once, oldest instructions first, as the simulator calls them.
        The caller supplies what the memory system and the branch unit answered. */
    method Operate(x: Inputs) returns (rest: seq<Address>, ghost b: BackEnd, ghost m: Core, ghost f: FrontEnd)
      requires Valid() && (x.stillWarm ==> warmup) && |x.answers| >= cfg.fetchWidth
      modifies this, regs, regs.frontendRAT, regs.backendRAT
      ensures rest == x.returned[Min(cfg.l1dBandwidth, |x.returned|)..]
      ensures Valid() && Cycle(cfg, old(View()), x, b, m, f, View())
    {
      hide Valid, View, RunsBackEnd, RunsFrontEnd;
      Tick(x.period, x.stillWarm);
      rest, b := OperateBackEnd(x);
      m := View();
      f := OperateFrontEnd(x);
    }
  }

  /** The oldest decoded instruction is younger than everything dispatched. */
  lemma DispatchIsYoungest(retired: seq<Instr>, rob: seq<Instr>, dispatch: seq<Instr>, dib: seq<Instr>, dec: seq<Instr>,
                           ifetch: seq<Instr>, program: seq<Op>)
    requires PipelineInv(retired, rob, dispatch, dib, dec, ifetch, program) && dispatch != []
    ensures forall k :: 0 <= k < |retired + rob| ==> (retired + rob)[k].id < dispatch[0].id
  {
    StagesOrdered(retired, rob, dispatch, dib, dec, ifetch, program);
    hide PipelineInv;
    var all := retired + rob + dispatch;
    assert all[|retired| + |rob|] == dispatch[0];
    forall k | 0 <= k < |retired + rob| ensures (retired + rob)[k].id < dispatch[0].id {
      assert all[k] == (retired + rob)[k];
    }
  }

  /** Before its memory operations are queued, the next instruction to dispatch has none
      pending and is younger than every queued store. */
  lemma DispatchReady(retired: seq<Instr>, rob: seq<Instr>, dispatch: seq<Instr>, dib: seq<Instr>, dec: seq<Instr>,
                      ifetch: seq<Instr>, program: seq<Op>, lq: Lq, sq: seq<SqEntry>, written: seq<SqEntry>)
    requires PipelineInv(retired, rob, dispatch, dib, dec, ifetch, program) && dispatch != [] && Untouched(dispatch)
    requires LsqInv(rob, lq, sq) && StoresKnown(retired + rob, sq) && StoresWritten(retired, written, sq)
    ensures Unrenamed(dispatch[0]) && !dispatch[0].completed && dispatch[0].completedMemOps == 0 && Untouched(dispatch[1..])
    ensures forall j :: 0 <= j < |sq| ==> sq[j].id < dispatch[0].id
    ensures forall j :: 0 <= j < |written| ==> written[j].id < dispatch[0].id
    ensures LsqInv((rob + [dispatch[0]])[|rob| := Partial(dispatch[0], 0, 0)], lq, sq)
  {
    var i := dispatch[0];
    DispatchIsYoungest(retired, rob, dispatch, dib, dec, ifetch, program);
    hide PipelineInv, LsqInv;
    assert Unrenamed(i) && i.completedMemOps == 0;
    forall k | 0 <= k < |rob| ensures rob[k].id < i.id {
      assert (retired + rob)[|retired| + k] == rob[k];
    }
    EnterStep(rob, lq, sq, Partial(i, 0, 0));
    assert (rob + [i])[|rob| := Partial(i, 0, 0)] == rob + [Partial(i, 0, 0)];
    forall j | 0 <= j < |sq| ensures sq[j].id < i.id {
      var m :| 0 <= m < |retired + rob| && (retired + rob)[m].id == sq[j].id;
    }
    forall j | 0 <= j < |written| ensures written[j].id < i.id {
      var m :| 0 <= m < |retired| && retired[m].id == written[j].id;
      assert (retired + rob)[m].id == written[j].id;
    }
  }

  lemma DispatchMemory(retired: seq<Instr>, rob: seq<Instr>, i: Instr, lq: Lq, sq: seq<SqEntry>,
                       sq': seq<SqEntry>, j: Instr, written: seq<SqEntry>)
    requires LsqInv(rob + [i.(completedMemOps := j.completedMemOps)], lq, sq')
    requires StoresKnown(retired + rob, sq) && StoresWritten(retired, written, sq)
    requires j == i.(completedMemOps := j.completedMemOps, ready := j.ready) && !i.completed
    requires |sq'| == |sq| + |i.dstMem| && SameStores(sq, sq'[..|sq|]) && sq'[|sq|..] == NewStores(i, |i.dstMem|)
    requires forall m :: 0 <= m < |sq| ==> sq[m].id < i.id
    requires forall m :: 0 <= m < |written| ==> written[m].id < i.id
    ensures LsqInv(rob + [j], lq, sq') && StoresKnown(retired + (rob + [j]), sq') && StoresWritten(retired, written, sq')
  {
    MemoryFrame(rob + [i.(completedMemOps := j.completedMemOps)], rob + [j], lq, lq, sq', sq');
    hide LsqInv;
    forall m | 0 <= m < |sq'|
      ensures HasId(retired + (rob + [j]), sq'[m].id)
      ensures m < |sq| ==> sq'[m].id == sq[m].id
      ensures m >= |sq| ==> sq'[m].id == i.id
    {
      if m < |sq| {
        assert sq'[..|sq|][m].id == sq[m].id;
        var t :| 0 <= t < |retired + rob| && (retired + rob)[t].id == sq[m].id;
        assert (retired + (rob + [j]))[t].id == sq[m].id;
      } else {
        assert sq'[m] == sq'[|sq|..][m - |sq|];
        assert (retired + (rob + [j]))[|retired| + |rob|].id == i.id;
      }
    }
  }

  /** The entry before its latest finished operation was counted. */
  ghost function Unfinished(i: Instr): Instr {
    i.(completedMemOps := if i.completedMemOps > 0 then i.completedMemOps - 1 else 0)
  }

  lemma SlotOwner(rob: seq<Instr>, lq: Lq, sq: seq<SqEntry>, s: nat)
    requires LsqInv(rob, lq, sq) && s < |lq| && lq[s].Some?
    ensures InProgramOrder(rob) && HasId(rob, lq[s].value.id)
    ensures forall k :: 0 <= k < |rob| && rob[k].id == lq[s].value.id ==> rob[k].completedMemOps < rob[k].NumMemOps()
  {
    forall k | 0 <= k < |rob| && rob[k].id == lq[s].value.id ensures rob[k].completedMemOps < rob[k].NumMemOps() {
      SlotPending(rob, lq, sq, s, k);
    }
  }

  /** The branch unit has not seen these. */
  ghost predicate Unguessed(s: seq<Instr>) {
    forall k :: 0 <= k < |s| ==> !s[k].branch.mispredicted
  }

  lemma EntryStall(resume: Ready, retired: seq<Instr>, rob: seq<Instr>, dispatch: seq<Instr>, dib: seq<Instr>, dec: seq<Instr>,
                   ifetch: seq<Instr>, k: nat, i: Instr)
    requires FetchInv(resume, retired, rob, dispatch, dib, dec, ifetch) && k < |rob|
    requires i.branch == rob[k].branch && i.completed == rob[k].completed
    ensures FetchInv(resume, retired, rob[k := i], dispatch, dib, dec, ifetch)
  {
    assert SameFlags(rob, rob[k := i]);
    hide FetchInv;
    RobStall(resume, retired, rob, dispatch, dib, dec, ifetch, rob[k := i]);
  }

  lemma MemOpsStall(resume: Ready, retired: seq<Instr>, rob: seq<Instr>, rob': seq<Instr>, dispatch: seq<Instr>, dib: seq<Instr>,
                    dec: seq<Instr>, ifetch: seq<Instr>)
    requires FetchInv(resume, retired, rob, dispatch, dib, dec, ifetch) && OnlyMemOps(rob, rob')
    ensures FetchInv(resume, retired, rob', dispatch, dib, dec, ifetch)
  {
    assert SameFlags(rob, rob');
    hide FetchInv;
    RobStall(resume, retired, rob, dispatch, dib, dec, ifetch, rob');
  }

  lemma InitializedUntouched(i: Instr, p: Prediction, warmup: bool, now: nat)
    requires Unrenamed(i) && !i.branch.mispredicted
    ensures Unrenamed(Initialized(i, p, warmup, now)) && Initialized(i, p, warmup, now).id == i.id
    ensures Initialized(i, p, warmup, now).completedMemOps == i.completedMemOps && !Initialized(i, p, warmup, now).completed
    ensures Initialized(i, p, warmup, now).branch.mispredicted == MissesAt(i, p, warmup)
  {
    hide Wrong, ReadsOther;
    var q := Without(i.archDst, SP_REGISTER);
    forall m | 0 <= m < |q| ensures IsArch(q[m]) {
      assert q[m] in q;
    }
  }

  lemma InitializePipeline(retired: seq<Instr>, rob: seq<Instr>, dispatch: seq<Instr>, dib: seq<Instr>, dec: seq<Instr>,
                           ifetch: seq<Instr>, program: seq<Op>, i: Instr)
    requires PipelineInv(retired, rob, dispatch, dib, dec, ifetch, program)
    requires forall j :: 0 <= j < |program| ==> program[j].id < i.id
    ensures PipelineInv(retired, rob, dispatch, dib, dec, ifetch + [i], program + [OpOf(i)])
  {
    assert Increasing(program);
    hide PipelineInv;
    OpsConcat(ifetch, [i]);
    FetchPipeline(retired, rob, dispatch, dib, dec, ifetch, program, ifetch + [i], [OpOf(i)]);
  }

  lemma FetchedPipeline(retired: seq<Instr>, rob: seq<Instr>, dispatch: seq<Instr>, dib: seq<Instr>, dec: seq<Instr>,
                        ifetch: seq<Instr>, program: seq<Op>, ifetch': seq<Instr>, hit: set<nat>, arrived: set<nat>, now: nat)
    requires PipelineInv(retired, rob, dispatch, dib, dec, ifetch, program) && Untouched(ifetch)
    requires |ifetch| == |ifetch'| && forall k :: 0 <= k < |ifetch| ==> ifetch'[k] == Fetched(ifetch[k], hit, arrived, now)
    ensures PipelineInv(retired, rob, dispatch, dib, dec, ifetch', program) && Untouched(ifetch')
  {
    assert Increasing(program);
    hide PipelineInv;
    assert Ops(ifetch') == Ops(ifetch) + [];
    assert program + [] == program;
    FetchPipeline(retired, rob, dispatch, dib, dec, ifetch, program, ifetch', []);
  }

  lemma StampedOps(buffer: seq<Instr>, s: seq<Instr>, t: nat)
    ensures Ops(buffer + Stamped(s, t)) == Ops(buffer + s)
  {
  }

  lemma PromotedUntouched(buffer: seq<Instr>, ifetch: seq<Instr>, n: nat, flag: bool, t: nat)
    requires n <= |ifetch| && Untouched(buffer) && Untouched(ifetch)
    ensures Untouched(buffer + Stamped(Decoded(ifetch[..n], flag), t)) && Untouched(ifetch[n..])
    ensures |Decoded(ifetch[..n], flag)| <= n
  {
    var s := Decoded(ifetch[..n], flag);
    forall k | 0 <= k < |s| ensures Unrenamed(Stamped(s, t)[k]) && Stamped(s, t)[k].completedMemOps == 0 {
      DecodedFrom(ifetch[..n], flag, k);
    }
  }

  lemma Promoted(retired: seq<Instr>, rob: seq<Instr>, dispatch: seq<Instr>, dib: seq<Instr>, dec: seq<Instr>,
                 ifetch: seq<Instr>, program: seq<Op>, n: nat, t: nat, u: nat)
    requires PipelineInv(retired, rob, dispatch, dib, dec, ifetch, program) && n <= |ifetch|
    requires Untouched(dib) && Untouched(dec) && Untouched(ifetch)
    ensures PipelineInv(retired, rob, dispatch, dib + Stamped(Decoded(ifetch[..n], true), t),
                        dec + Stamped(Decoded(ifetch[..n], false), u), ifetch[n..], program)
    ensures Untouched(dib + Stamped(Decoded(ifetch[..n], true), t)) && |Decoded(ifetch[..n], true)| <= n
    ensures Untouched(dec + Stamped(Decoded(ifetch[..n], false), u)) && |Decoded(ifetch[..n], false)| <= n
    ensures Untouched(ifetch[n..])
  {
    hide PipelineInv, Stamped, Decoded, Untouched;
    PromotedUntouched(dib, ifetch, n, true, t);
    PromotedUntouched(dec, ifetch, n, false, u);
    StampedOps(dib, Decoded(ifetch[..n], true), t);
    StampedOps(dec, Decoded(ifetch[..n], false), u);
    PromoteStep(retired, rob, dispatch, dib, dec, ifetch, program, n,
                dib + Stamped(Decoded(ifetch[..n], true), t), dec + Stamped(Decoded(ifetch[..n], false), u));
  }

  lemma ResumesNext(dec: seq<Instr>, k: nat)
    requires k < |dec|
    ensures AnyResumes(dec[..k + 1]) <==> AnyResumes(dec[..k]) || Resumes(dec[k])
  {
    hide Resumes;
    if AnyResumes(dec[..k]) {
      var j :| 0 <= j < k && Resumes(dec[..k][j]);
      assert dec[..k + 1][j] == dec[..k][j];
    }
    if Resumes(dec[k]) {
      assert dec[..k + 1][k] == dec[k];
    }
    if AnyResumes(dec[..k + 1]) {
      var j :| 0 <= j < k + 1 && Resumes(dec[..k + 1][j]);
      assert j < k ==> dec[..k][j] == dec[..k + 1][j];
    }
  }

  lemma ResolvedIs(i: Instr)
    ensures Resolved(i) == if Resumes(i) then i.(branch := i.branch.(mispredicted := false)) else i
  {
  }

  lemma ResolvedUntouched(i: Instr)
    requires Unrenamed(i) && i.completedMemOps == 0
    ensures Unrenamed(Resolved(i)) && Resolved(i).completedMemOps == 0
  {
  }

  lemma DecodedUntouched(dec: seq<Instr>, b: nat)
    requires b <= |dec| && Untouched(dec)
    ensures Untouched(AfterDecode(dec[..b])) && NoneCompleted(dec)
    ensures AreDecoded(dec[..b], AfterDecode(dec[..b])) && Ops(AfterDecode(dec[..b])) == Ops(dec[..b])
  {
    hide Unrenamed, Resolved;
    var y := AfterDecode(dec[..b]);
    forall k | 0 <= k < b ensures Unrenamed(y[k]) && y[k].completedMemOps == 0 && OpOf(y[k]) == OpOf(dec[k]) {
      ResolvedUntouched(dec[k]);
      ResolvedFlag(dec[k]);
    }
    forall k | 0 <= k < |dec| ensures !dec[k].completed {
      UnrenamedIsOpen(dec[k]);
    }
  }

  lemma UnrenamedIsOpen(i: Instr)
    requires Unrenamed(i)
    ensures !i.completed
  {
  }

  lemma MergedUntouched(dispatch: seq<Instr>, x: seq<Instr>, y: seq<Instr>, t: nat)
    requires Untouched(dispatch) && Untouched(x) && Untouched(y)
    ensures Untouched(dispatch + Stamped(Merge(x, y), t))
  {
    var s := Merge(x, y);
    forall k | 0 <= k < |s| ensures Unrenamed(Stamped(s, t)[k]) && Stamped(s, t)[k].completedMemOps == 0 {
      MergeFrom(x, y, k);
    }
  }

  lemma UntouchedRest(s: seq<Instr>, n: nat)
    requires Untouched(s) && n <= |s|
    ensures Untouched(s[..n]) && Untouched(s[n..])
  {
    hide Unrenamed;
  }

  /** Decoding a cut keeps what holds of the front of the pipeline. */
  lemma DecodedAll(resume: Ready, retired: seq<Instr>, rob: seq<Instr>, dispatch: seq<Instr>, dib: seq<Instr>, dec: seq<Instr>,
                   ifetch: seq<Instr>, program: seq<Op>, a: nat, b: nat, t: nat, resume': Ready)
    requires PipelineInv(retired, rob, dispatch, dib, dec, ifetch, program) && IsCut(dib, dec, a, b)
    requires FetchInv(resume, retired, rob, dispatch, dib, dec, ifetch)
    requires Untouched(dispatch) && Untouched(dib) && Untouched(dec) && a <= |dib| && b <= |dec|
    requires if AnyResumes(dec[..b]) then resume'.At? else resume' == resume
    ensures var dispatch' := dispatch + Stamped(Merge(dib[..a], AfterDecode(dec[..b])), t);
      && PipelineInv(retired, rob, dispatch', dib[a..], dec[b..], ifetch, program)
      && FetchInv(resume', retired, rob, dispatch', dib[a..], dec[b..], ifetch)
      && Untouched(dispatch') && Untouched(dib[a..]) && Untouched(dec[b..])
  {
    var y := AfterDecode(dec[..b]);
    DecodedUntouched(dec, b);
    UntouchedRest(dib, a);
    UntouchedRest(dec, b);
    MergedUntouched(dispatch, dib[..a], y, t);
    hide Untouched, AfterDecode, AreDecoded, FetchInv, IsCut, AnyResumes, NoneCompleted;
    DecodedPipeline(retired, rob, dispatch, dib, dec, ifetch, program, a, b, y, t);
    hide Merge;
    assert SameFlags(Merge(dib[..a], y), Stamped(Merge(dib[..a], y), t));
    hide SameFlags, Stamped;
    assert InProgramOrder(dib) && InProgramOrder(dec) && Apart(dib, dec);
    hide PipelineInv, InProgramOrder, Apart;
    DecodeStall(resume, retired, rob, dispatch, dib, dec, ifetch, a, b, y, Stamped(Merge(dib[..a], y), t), resume');
  }

  lemma DecodedPipeline(retired: seq<Instr>, rob: seq<Instr>, dispatch: seq<Instr>, dib: seq<Instr>, dec: seq<Instr>,
                        ifetch: seq<Instr>, program: seq<Op>, a: nat, b: nat, y: seq<Instr>, t: nat)
    requires PipelineInv(retired, rob, dispatch, dib, dec, ifetch, program) && IsCut(dib, dec, a, b)
    requires a <= |dib| && b <= |dec| && Ops(y) == Ops(dec[..b])
    ensures PipelineInv(retired, rob, dispatch + Stamped(Merge(dib[..a], y), t), dib[a..], dec[b..], ifetch, program)
  {
    hide PipelineInv, IsCut;
    MergeOps(dib[..a], dib[..a], dec[..b], y);
    StampedOps(dispatch, Merge(dib[..a], y), t);
    OpsConcat(dispatch, Merge(dib[..a], y));
    OpsConcat(dispatch, Merge(dib[..a], dec[..b]));
    DecodeStep(retired, rob, dispatch, dib, dec, ifetch, program, a, b, dispatch + Stamped(Merge(dib[..a], y), t));
  }

  /** Promotion keeps the stall. */
  lemma PromotedStall(resume: Ready, retired: seq<Instr>, rob: seq<Instr>, dispatch: seq<Instr>, dib: seq<Instr>, dec: seq<Instr>,
                      ifetch: seq<Instr>, program: seq<Op>, n: nat, t: nat, u: nat)
    requires PipelineInv(retired, rob, dispatch, dib, dec, ifetch, program) && n <= |ifetch|
    requires FetchInv(resume, retired, rob, dispatch, dib, dec, ifetch)
    ensures FetchInv(resume, retired, rob, dispatch, dib + Stamped(Decoded(ifetch[..n], true), t),
                     dec + Stamped(Decoded(ifetch[..n], false), u), ifetch[n..])
  {
    StagesOrdered(retired, rob, dispatch, dib, dec, ifetch, program);
    hide PipelineInv, FetchInv, Decoded, InProgramOrder, Before;
    StampedTail(dib, Decoded(ifetch[..n], true), t);
    StampedTail(dec, Decoded(ifetch[..n], false), u);
    hide SameIds, SameFlags, Stamped;
    PromoteStall(resume, retired, rob, dispatch, dib, dec, ifetch, n,
                 dib + Stamped(Decoded(ifetch[..n], true), t), dec + Stamped(Decoded(ifetch[..n], false), u));
  }

  lemma StampedTail(buffer: seq<Instr>, s: seq<Instr>, t: nat)
    ensures SameIds(buffer + s, buffer + Stamped(s, t)) && SameFlags(buffer + s, buffer + Stamped(s, t))
  {
  }

  lemma EmptyCut(dib: seq<Instr>, dec: seq<Instr>)
    ensures IsCut(dib, dec, 0, 0)
  {
  }

  lemma CutBounds(dib: seq<Instr>, dec: seq<Instr>, a: nat, b: nat)
    requires IsCut(dib, dec, a, b)
    ensures a <= |dib| && b <= |dec|
  {
  }

  /** Executing stores changes only finished-operation counts, so the rest is kept. */
  lemma StoresExecuted(retired: seq<Instr>, rob: seq<Instr>, rob': seq<Instr>, n: nat, a: Alloc, limit: nat,
                       sq: seq<SqEntry>, sq': seq<SqEntry>, written: seq<SqEntry>)
    requires OnlyMemOps(rob, rob') && RenameInv(a, rob, n, retired) && ReadyInOrder(rob, n, limit)
    requires |sq| == |sq'| && forall j :: 0 <= j < |sq| ==> sq[j].id == sq'[j].id
    requires StoresKnown(retired + rob, sq) && StoresWritten(retired, written, sq)
    ensures RenameInv(a, rob', n, retired) && ReadyInOrder(rob', n, limit)
    ensures StoresKnown(retired + rob', sq') && StoresWritten(retired, written, sq')
  {
    RegisterFrame(a, rob, rob', n, retired);
    hide RenameInv;
    SameIdsKnown(retired, rob, rob', sq);
  }

  /** Store `j` has been counted at `own` and has released its loads, but is not marked yet. */
  ghost predicate Executing(rob: seq<Instr>, lq: Lq, sq: seq<SqEntry>, j: nat, own: nat)
    requires j < |sq| && own < |rob|
  {
    && rob[own].id == sq[j].id && rob[own].completedMemOps > 0
    && LsqInv(rob[own := Unfinished(rob[own])], lq, sq[j := sq[j].(deps := [])])
  }

  /** Marking the store restores the invariant. */
  lemma ExecutedStep(rob: seq<Instr>, lq: Lq, sq: seq<SqEntry>, j: nat, ready: Ready)
    requires j < |sq| && !sq[j].issued && forall i :: 0 <= i < j ==> sq[i].issued
    requires exists own: nat :: own < |rob| && Executing(rob, lq, sq, j, own)
    ensures LsqInv(rob, lq, sq[j := sq[j].(issued := true, ready := ready)])
  {
    hide LsqInv;
    var own: nat :| own < |rob| && Executing(rob, lq, sq, j, own);
    var v := rob[own := Unfinished(rob[own])];
    var e := sq[j].(issued := true, ready := ready);
    StoreExecutedStep(v, lq, sq[j := sq[j].(deps := [])], j, own, e);
    assert v[own := Finished(v[own])] == rob;
    assert sq[j := sq[j].(deps := [])][j := e] == sq[j := e];
  }

  /** The first load listed by unexecuted store `j` waits for it and is still pending. */
  lemma DependentPending(rob: seq<Instr>, lq: Lq, sq: seq<SqEntry>, own: nat, j: nat)
    requires own < |rob| && rob[own].completedMemOps > 0 && LsqInv(rob[own := Unfinished(rob[own])], lq, sq)
    requires j < |sq| && !sq[j].issued && sq[j].deps != [] && rob[own].id == sq[j].id
    ensures WaitsFor(lq, sq[j].deps[0], sq[j]) && lq[sq[j].deps[0]].value.id != rob[own].id
    ensures InProgramOrder(rob) && HasId(rob, lq[sq[j].deps[0]].value.id)
    ensures forall k :: 0 <= k < |rob| && rob[k].id == lq[sq[j].deps[0]].value.id ==>
      rob[k].completedMemOps < rob[k].NumMemOps()
  {
    var v := rob[own := Unfinished(rob[own])];
    var d := sq[j].deps[0];
    assert ListedBy(sq, d, j, 0);
    OwnersKept(v, rob, lq[d].value.id);
    forall k | 0 <= k < |rob| && rob[k].id == lq[d].value.id ensures rob[k].completedMemOps < rob[k].NumMemOps() {
      SlotPending(v, lq, sq, d, k);
    }
    forall a, b | 0 <= a < b < |rob| ensures rob[a].id < rob[b].id {
      assert v[a].id == rob[a].id && v[b].id == rob[b].id;
    }
  }

  /** Stores older than the whole reorder buffer have executed and belong to retired
      instructions, so writing the first `c` of the queue keeps the memory invariant. */
  lemma WriteStores(retired: seq<Instr>, rob: seq<Instr>, lq: Lq, sq: seq<SqEntry>, written: seq<SqEntry>, c: nat)
    requires LsqInv(rob, lq, sq) && StoresKnown(retired + rob, sq) && StoresWritten(retired, written, sq) && c <= |sq|
    requires forall j :: 0 <= j < c ==> rob == [] || sq[j].id < rob[0].id
    ensures forall j :: 0 <= j < c ==> sq[j].issued
    ensures LsqInv(rob, lq, sq[c..]) && StoresKnown(retired + rob, sq[c..])
    ensures StoresWritten(retired, written + sq[..c], sq[c..])
  {
    forall j | 0 <= j < c ensures sq[j].issued && HasId(retired, sq[j].id) {
      RetiredStoresExecuted(rob, lq, sq, j);
      OlderIsRetired(retired, rob, sq[j].id);
    }
    EraseStep(rob, lq, sq, c);
    hide LsqInv, HasId;
  }

  lemma OlderIsRetired(retired: seq<Instr>, rob: seq<Instr>, id: nat)
    requires InProgramOrder(rob) && HasId(retired + rob, id) && (rob == [] || id < rob[0].id)
    ensures HasId(retired, id)
  {
    var m :| 0 <= m < |retired + rob| && (retired + rob)[m].id == id;
    assert m < |retired|;
    assert retired[m].id == id;
  }

  /** An unexecuted store belongs to an entry that still waits for it. */
  lemma StoreOwner(rob: seq<Instr>, lq: Lq, sq: seq<SqEntry>, j: nat)
    requires LsqInv(rob, lq, sq) && j < |sq| && !sq[j].issued
    ensures InProgramOrder(rob) && HasId(rob, sq[j].id)
    ensures forall k :: 0 <= k < |rob| && rob[k].id == sq[j].id ==> rob[k].completedMemOps < rob[k].NumMemOps()
  {
    forall k | 0 <= k < |rob| && rob[k].id == sq[j].id ensures rob[k].completedMemOps < rob[k].NumMemOps() {
      StorePending(rob, lq, sq, j, k);
    }
  }

  lemma NonePlaced(id: nat, lq: Lq, sq: seq<SqEntry>)
    ensures LoadsPlaced(id, [], lq, sq, lq, sq, []) && Settled([]) == 0
  {
  }

  /** Placing loads changes no store but for who waits for it. */
  lemma PlacedStores(id: nat, addrs: seq<Address>, lq: Lq, sq: seq<SqEntry>, lq': Lq, sq': seq<SqEntry>, slots: seq<Option<nat>>, limit: nat)
    requires LoadsPlaced(id, addrs, lq, sq, lq', sq', slots) && forall j :: 0 <= j < |sq| ==> sq[j].id < limit
    ensures |sq'| == |sq| && forall j :: 0 <= j < |sq'| ==> sq'[j].id < limit
  {
  }

  lemma SameNewStores(i: Instr, j: Instr)
    requires i.id == j.id && i.dstMem == j.dstMem
    ensures NewStores(i, |i.dstMem|) == NewStores(j, |j.dstMem|)
  {
  }

  lemma EnteredStores(i: Instr, lq: Lq, sq: seq<SqEntry>, lq': Lq, sq': seq<SqEntry>, done: nat)
    requires Enters(i, lq, sq, lq', sq', done)
    ensures |sq'| == |sq| + |i.dstMem| && SameStores(sq, sq'[..|sq|]) && sq'[|sq|..] == NewStores(i, |i.dstMem|)
  {
  }

  lemma PartialWhole(rob: seq<Instr>, k: nat)
    requires k < |rob|
    ensures rob[k := Partial(rob[k], |rob[k].srcMem|, |rob[k].dstMem|)] == rob
  {
    assert Partial(rob[k], |rob[k].srcMem|, |rob[k].dstMem|) == rob[k];
  }

  // The three ways in which queueing a load ends.

  lemma OutcomeAlone(lq: Lq, sq: seq<SqEntry>, id: nat, addr: Address, s: nat)
    requires FirstFree(lq, s) && NoneTo(sq, addr)
    ensures !Forwardable(sq, addr) && LoadOutcome(lq, sq, lq[s := Some(LqEntry(id, addr, Never, false, None))], sq, id, addr, false)
  {
  }

  lemma OutcomeForwarded(lq: Lq, sq: seq<SqEntry>, id: nat, addr: Address, best: nat)
    requires IsYoungest(sq, addr, best) && sq[best].issued
    ensures Forwardable(sq, addr) && LoadOutcome(lq, sq, lq, sq, id, addr, true)
  {
    OnlyYoungest(sq, addr, best);
  }

  lemma OutcomeWaits(lq: Lq, sq: seq<SqEntry>, id: nat, addr: Address, s: nat, best: nat)
    requires FirstFree(lq, s) && IsYoungest(sq, addr, best) && !sq[best].issued
    ensures !Forwardable(sq, addr)
    ensures LoadOutcome(lq, sq, lq[s := Some(LqEntry(id, addr, Never, false, Some(sq[best].id)))],
                        sq[best := AddDependent(sq[best], s)], id, addr, false)
  {
    OnlyYoungest(sq, addr, best);
  }

  lemma OutcomeDone(lq: Lq, sq: seq<SqEntry>, lq': Lq, sq': seq<SqEntry>, id: nat, addr: Address, done: bool)
    requires LoadOutcome(lq, sq, lq', sq', id, addr, done)
    ensures done == Forwardable(sq, addr)
  {
  }

  /** Entry `i` with only its first `m` loads and `t` stores queued so far. */
  function Partial(i: Instr, m: nat, t: nat): Instr
    requires m <= |i.srcMem| && t <= |i.dstMem|
  {
    i.(srcMem := i.srcMem[..m], dstMem := i.dstMem[..t])
  }

  lemma PartialLoad(i: Instr, m: nat)
    requires m < |i.srcMem|
    ensures AddLoad(Partial(i, m, 0), i.srcMem[m], 0) == Partial(i, m + 1, 0)
    ensures AddLoad(Partial(i, m, 0), i.srcMem[m], 1) == Partial(Finished(i), m + 1, 0)
  {
  }

  lemma PartialStore(i: Instr, t: nat)
    requires t < |i.dstMem|
    ensures AddStore(Partial(i, |i.srcMem|, t), i.dstMem[t]) == Partial(i, |i.srcMem|, t + 1)
  {
  }

  /** Renaming source `m` keeps the invariant, earlier answers, and enough free registers. */
  lemma SourceStep(a: Alloc, rob: seq<Instr>, n: nat, h: seq<Instr>, names: seq<int>, m: nat, extra: nat)
    requires RenameInv(a, rob, n, h) && m < |names| && IsArch(names[m])
    requires |a.free| >= Unmapped(a.frontend, names, m) + extra
    ensures WellFormed(a) && (a.frontend[names[m]] < 0 ==> a.free != [])
    ensures RenameInv(RenameSrc(a, names[m]), rob, n, h)
    ensures |RenameSrc(a, names[m]).free| >= Unmapped(RenameSrc(a, names[m]).frontend, names, m + 1) + extra
    ensures |RenameSrc(a, names[m]).frontend| == |a.frontend| && |RenameSrc(a, names[m]).file| == |a.file|
    ensures forall r :: IsArch(r) && 0 <= a.frontend[r] ==> RenameSrc(a, names[m]).frontend[r] == a.frontend[r]
  {
    if a.frontend[names[m]] < 0 {
      LiveInStep(a, rob, n, h, names[m]);
      UnmappedShrinks(a.frontend, names[m], a.free[0], names, m + 1);
    }
    hide RenameInv;
  }

  lemma NoneStarted(a: Alloc, rob: seq<Instr>, now: nat, ready: Ready, lq: Lq, sq: seq<SqEntry>)
    ensures StartsMemory(a, rob, 0, now, ready, lq, lq, sq, sq)
  {
  }

  /** Entry `k` has been visited: if it could start, its loads and stores are marked ready. */
  lemma StartedNext(a: Alloc, rob: seq<Instr>, k: nat, now: nat, ready: Ready, lq: Lq, lq': Lq, lq'': Lq, sq: seq<SqEntry>,
                    sq': seq<SqEntry>, sq'': seq<SqEntry>)
    requires k < |rob| && StartsMemory(a, rob, k, now, ready, lq, lq', sq, sq')
    requires if CanStart(a, rob[k], now) then MarkedReady(lq', lq'', sq', sq'', rob[k].id, ready) else lq'' == lq' && sq'' == sq'
    ensures StartsMemory(a, rob, k + 1, now, ready, lq, lq'', sq, sq'')
  {
    hide CanStart;
    forall id ensures StartsId(a, rob, k + 1, now, id) <==> StartsId(a, rob, k, now, id) || (rob[k].id == id && CanStart(a, rob[k], now)) {
      if rob[k].id == id && CanStart(a, rob[k], now) {
        assert StartsId(a, rob, k + 1, now, id);
      }
    }
    hide StartsId;
  }

  lemma SameStoreIds(sq: seq<SqEntry>, from: nat, n: nat, now: nat)
    ensures forall j :: 0 <= j < |sq| ==> Executed(sq, from, n, now)[j].id == sq[j].id
  {
  }

  /** Executing stores does not change which instruction is the oldest in flight. */
  lemma SameHead(sq: seq<SqEntry>, rob: seq<Instr>, rob': seq<Instr>, from: nat, n: nat, now: nat, width: nat)
    requires OnlyMemOps(rob, rob')
    ensures WritableSpan(Executed(sq, from, n, now), rob, width, now) == WritableSpan(Executed(sq, from, n, now), rob', width, now)
  {
    hide Executed;
    var stores := Executed(sq, from, n, now);
    var a, b := WritableSpan(stores, rob, width, now), WritableSpan(stores, rob', width, now);
    hide WritableSpan;
    assert rob != [] ==> rob'[0].id == rob[0].id;
    assert !(a < b) && !(b < a);
  }

  function ReadySlot(e: Option<LqEntry>, id: nat, ready: Ready): Option<LqEntry> {
    if e.Some? && e.value.id == id then Some(e.value.(ready := ready)) else e
  }

  function ReadyStore(e: SqEntry, id: nat, ready: Ready): SqEntry {
    if e.id == id then e.(ready := ready) else e
  }

  /** The loads and stores of instruction `id`, and no others, become ready at `ready`. */
  ghost predicate MarkedReady(lq: Lq, lq': Lq, sq: seq<SqEntry>, sq': seq<SqEntry>, id: nat, ready: Ready) {
    && |lq| == |lq'| && |sq| == |sq'|
    && (forall s :: 0 <= s < |lq| ==> lq'[s] == ReadySlot(lq[s], id, ready))
    && (forall j :: 0 <= j < |sq| ==> sq'[j] == ReadyStore(sq[j], id, ready))
  }

  lemma MarkedSame(lq: Lq, lq': Lq, sq: seq<SqEntry>, sq': seq<SqEntry>, id: nat, ready: Ready)
    requires MarkedReady(lq, lq', sq, sq', id, ready)
    ensures SameButReady(lq, lq', sq, sq')
  {
  }

  /** Progress of one entry that touches no memory operation keeps the memory invariant. */
  lemma EntryProgress(retired: seq<Instr>, rob: seq<Instr>, k: nat, i: Instr, lq: Lq, lq': Lq, sq: seq<SqEntry>,
                      sq': seq<SqEntry>, written: seq<SqEntry>)
    requires LsqInv(rob, lq, sq) && StoresKnown(retired + rob, sq) && SameButReady(lq, lq', sq, sq')
    requires StoresWritten(retired, written, sq)
    requires k < |rob| && SameMemory(rob[k], i)
    requires i.completed ==> rob[k].completed || rob[k].completedMemOps == rob[k].NumMemOps()
    ensures LsqInv(rob[k := i], lq', sq') && StoresKnown(retired + rob[k := i], sq')
    ensures StoresWritten(retired, written, sq')
  {
    MemoryFrame(rob, rob[k := i], lq, lq', sq, sq');
    SameIdsKnown(retired, rob, rob[k := i], sq);
  }

  lemma OrderedByLsq(rob: seq<Instr>, lq: Lq, sq: seq<SqEntry>)
    requires LsqInv(rob, lq, sq)
    ensures InProgramOrder(rob)
  {
  }

  lemma CompletedIsScheduled(a: Alloc, rob: seq<Instr>, n: nat, h: seq<Instr>)
    requires RenameInv(a, rob, n, h) && rob != [] && rob[0].completed
    ensures 1 <= n
  {
  }

  lemma ScheduledReady(rob: seq<Instr>, k: nat, i: Instr, limit: nat)
    requires k < |rob| && ReadyInOrder(rob, k, limit)
    ensures ReadyInOrder(rob[k := i], k + 1, limit)
  {
  }

  lemma RetireReady(rob: seq<Instr>, n: nat, c: nat, limit: nat)
    requires c <= n && c <= |rob| && ReadyInOrder(rob, n, limit)
    ensures ReadyInOrder(rob[c..], n - c, limit)
  {
  }

  lemma RetireHistory(retired: seq<Instr>, rob: seq<Instr>, sq: seq<SqEntry>, written: seq<SqEntry>, c: nat)
    requires c <= |rob| && StoresKnown(retired + rob, sq)
    requires StoresWritten(retired, written, sq)
    ensures StoresKnown(retired + rob[..c] + rob[c..], sq)
    ensures StoresWritten(retired + rob[..c], written, sq)
  {
    assert retired + rob[..c] + rob[c..] == retired + rob;
    forall i | 0 <= i < |written| ensures HasId(retired + rob[..c], written[i].id) {
      var m :| 0 <= m < |retired| && retired[m].id == written[i].id;
      assert (retired + rob[..c])[m].id == written[i].id;
    }
  }
}
