# Verified models of ChampSim's hardware structures

This Dafny project models the stateful structures of the ChampSim simulator as step machines and
proves what every run keeps. The invariants are value predicates over whole states, preserved by one
lemma per step; the classes update their fields as the simulator does, and their methods are proved
against those predicates and against functions of the old state. Time, addresses and identifiers are
natural numbers or bit strings, sets of requesters stand for the lists of return queues, and replies,
acceptance by a lower level, replacement, shuffling and random draws are arbitrary.

| files | structure |
|---|---|
| `Prelude`, `Grids`, `BitStrings` | optional values and event times, spans and binary search; two-dimensional tables; bit strings, parity at a stride, extents |
| `Instruction`, `RegisterAllocation`, `Renaming`, `Retirement`, `LoadStoreQueue`, `ProgramOrder`, `FetchStall`, `CoreStages`, `CoreCycle`, `O3Cpu` | the out-of-order core: renaming, memory queues, the pipeline that splits and re-merges, the fetch stall behind a mispredicted branch, the stages of a cycle and what a cycle achieves |
| `DramMapping`, `DramQueues`, `DramChannel` | the DRAM address mapping and the bank, queue, refresh and bus state machine |
| `LoopPrediction`, `LoopExactness`, `FoldedHistory`, `TagePrediction`, `TageLearning`, `TageHashing`, `Tage`, `LTage` | the L-TAGE branch predictor, what it learns and what its hashes read, and two implementations of its folded history |
| `LruTable` | the least-recently-used table |
| `MissStatus`, `CacheSets`, `CacheWaiters`, `CacheSteps`, `Cache` | the cache: miss merging, fills, tag checks, and what a cycle achieves |
| `ChannelQueues`, `Channel` | collision checks on the channel between two levels |
| `PageAllocation`, `VirtualMemory` | physical page allocation |

`dafny verify dfyconfig.toml` checks the project.

The results hold under these conditions of the simulator's own use:

- Warmup is constant or goes from true to false, so ready times stay monotone; no DRAM bank is busy when warmup is on.
- The core has at most as many physical registers as a register table has entries (256), because the scheduling guard also looks up names that are already renamed.
- Bankgroup and bank bits are not both zero: otherwise a row segment is empty and the permutation loop does not end. The channel permutation uses segments of one bit, so it only touches bit 0 of the channel, in code and model alike.
- A cache gets at most one response for each outstanding miss, as its own assertion demands; a replacement policy may decline to name a victim, but not for a write.
- A branch predictor learns the outcome of the branch it predicted last.
- Page-table pages are no larger than physical pages, and both are powers of two in size (only divisibility is used).

## Model

| member | source | states |
|---|---|---|
| `Retirement.RenamingPreservesDataflow` | ChampSim/src/ooo_cpu.cc:428-483 | In every state that satisfies the renaming invariant, each source of a scheduled, unretired instruction names a register that is not free, whose recorded producer is the youngest older writer in program order (or the value is live-in), which is valid exactly when that producer has completed; an executed instruction has only completed producers |
| `Retirement.RegistersConserved` | ChampSim/src/register_allocator.cc:16-70 | Every physical register is exactly one of free, mapped by the backend table, or a destination of a scheduled unretired instruction, so none is lost, duplicated or shared |
| `Retirement.FrontendIsYoungest` | ChampSim/src/register_allocator.cc:16-43 | The frontend table maps each architectural register to the youngest in-flight writer's register, else to the committed one, and that register is not free |
| `OutOfOrderCore.O3Cpu.Dataflow` | ChampSim/src/ooo_cpu.cc:428-483 | The dataflow property in every valid state of the core |
| `OutOfOrderCore.O3Cpu.OrderAndAccounting` | ChampSim/src/ooo_cpu.cc:548-603 | In every valid state retirement is a prefix of the program, each memory operation is finished, queued as a load or as an unexecuted store exactly once, and executed stores are a prefix of the ordered store queue |
| `Retirement.LookupProducer` | ChampSim/src/register_allocator.cc:16-26 | The register that holds an architectural register before an entry records the youngest older writer, and is valid exactly when that writer has completed |
| `Renaming.LiveInStep` | ChampSim/src/register_allocator.cc:28-43 | Giving a live-in value a register of both tables keeps the renaming invariant |
| `Renaming.DestinationStep` | ChampSim/src/register_allocator.cc:16-26 | Renaming one destination keeps the renaming invariant, also when an instruction writes the same register twice |
| `Renaming.ExecuteStep` | ChampSim/src/ooo_cpu.cc:485-507 | Starting an entry whose sources are all valid keeps the renaming invariant |
| `Retirement.CompleteStep` | ChampSim/src/ooo_cpu.cc:633-645 | Completing an executed entry keeps the renaming invariant |
| `Retirement.RetireDestinationStep` | ChampSim/src/register_allocator.cc:51-64 | Committing one destination of the oldest entry frees the register that the backend table held before and keeps the invariant; the freed register is used by nobody |
| `RegisterAllocation.RegisterAllocator.RenameDestRegister` | ChampSim/src/register_allocator.cc:16-26 | Takes the front of the free queue, maps it in the frontend table and records the producer |
| `RegisterAllocation.RegisterAllocator.RenameSrcRegister` | ChampSim/src/register_allocator.cc:28-43 | Returns the mapped register, or maps a free one in both tables as a valid live-in |
| `RegisterAllocation.RegisterAllocator.CompleteDestRegister` | ChampSim/src/register_allocator.cc:45-49 | Marks one register valid and changes nothing else |
| `RegisterAllocation.RegisterAllocator.RetireDestRegister` | ChampSim/src/register_allocator.cc:51-64 | Moves the backend mapping to the retired register and frees the previous one |
| `RegisterAllocation.RegisterAllocator.FreeRegister` | ChampSim/src/register_allocator.cc:66-70 | Appends the register to the free queue with a cleared file entry |
| `ProgramOrder.RetiredIsPrefix` | ChampSim/src/ooo_cpu.cc:286-426 | What has retired, and what has retired or is in the reorder buffer, is a prefix of the instructions read; no stage loses or duplicates one |
| `ProgramOrder.StagesOrdered` | ChampSim/src/ooo_cpu.cc:286-426 | Identifiers strictly increase from the retired instructions to the dispatch buffer and within the fetch buffer, and both decode paths are older than everything still in fetch |
| `ProgramOrder.MergePartition` | ChampSim/src/ooo_cpu.cc:303-317 | Splitting an ordered window into decoded and undecoded instructions and merging the halves by identifier gives the window back |
| `ProgramOrder.PromoteStep` | ChampSim/src/ooo_cpu.cc:286-322 | Promotion into two buffers keeps the pipeline equal to the program |
| `ProgramOrder.DecodeStep` | ChampSim/src/ooo_cpu.cc:323-403 | Taking a cut of both buffers, merged, keeps the pipeline equal to the program |
| `LoadStoreQueue.ForwardingIsSound` | ChampSim/src/ooo_cpu.cc:509-603 | A load waits for a store exactly when a store lists it; then one store does, once, which is the youngest older store to its address, and the load has not been sent to the cache |
| `LoadStoreQueue.IssuedLoadHasNoOlderStore` | ChampSim/src/ooo_cpu.cc:619-631 | A load that was sent to the cache has no older store to its address in the queue |
| `LoadStoreQueue.RetiredStoresExecuted` | ChampSim/src/ooo_cpu.cc:605-617 | A store older than every reorder-buffer entry has executed, so writing it needs no check of its flag |
| `LoadStoreQueue.LoadWaitsStep` | ChampSim/src/ooo_cpu.cc:525-528 | Queueing a load behind an unexecuted store keeps the counting and forwarding invariant |
| `LoadStoreQueue.LoadForwardedStep` | ChampSim/src/ooo_cpu.cc:521-525 | A load whose youngest older store has executed is finished and counted at once |
| `LoadStoreQueue.LoadStep` | ChampSim/src/ooo_cpu.cc:509-535 | However queueing a load ends (in a slot alone, behind an unexecuted store, or finished at once), the counting and forwarding invariant is kept |
| `LoadStoreQueue.ReleaseStep` | ChampSim/src/ooo_cpu.cc:587-603 | Releasing a waiting load counts it once and removes it from its store |
| `LoadStoreQueue.StoreExecutedStep` | ChampSim/src/ooo_cpu.cc:587-603 | After its loads were released, marking the store executed restores the invariant |
| `LoadStoreQueue.ReturnStep` | ChampSim/src/ooo_cpu.cc:691-701 | Finishing a returned load counts it once |
| `LoadStoreQueue.RetireMemoryStep` | ChampSim/src/ooo_cpu.cc:707-731 | Retiring a completed entry leaves none of its loads or unexecuted stores behind |
| `OutOfOrderCore.O3Cpu.constructor` | ChampSim/inc/ooo_cpu.h:239-255 | The empty core satisfies all invariants |
| `OutOfOrderCore.O3Cpu.RetireRob` | ChampSim/src/ooo_cpu.cc:707-731 | Retires the longest completed prefix within the retire width, in order, commits its registers and changes no other stage |
| `OutOfOrderCore.O3Cpu.CompleteInflightInstruction` | ChampSim/src/ooo_cpu.cc:647-659 | Completes every entry that has executed, is due and has finished every memory operation, oldest first, until the width is used up |
| `OutOfOrderCore.O3Cpu.DoCompleteExecution` | ChampSim/src/ooo_cpu.cc:633-645 | Marks the entry completed and its destinations valid; fetch resumes after the penalty exactly if it was a mispredicted branch |
| `OutOfOrderCore.O3Cpu.ExecuteInstruction` | ChampSim/src/ooo_cpu.cc:468-483 | Starts every scheduled, due entry whose source registers are all valid, oldest first, until the width is used up; exactly the loads and stores of those become ready |
| `OutOfOrderCore.O3Cpu.DoExecution` | ChampSim/src/ooo_cpu.cc:485-507 | Starts the entry and stamps exactly its queued loads and stores |
| `OutOfOrderCore.O3Cpu.ScheduleInstruction` | ChampSim/src/ooo_cpu.cc:428-450 | Schedules every due entry that the scan meets with enough registers free, in order, and nothing behind the entry where registers may run out or the search width ends |
| `OutOfOrderCore.O3Cpu.EnoughRegisters` | ChampSim/src/ooo_cpu.cc:433-438 | The guard, evaluated on any entry, implies that renaming it cannot exhaust the free queue |
| `OutOfOrderCore.O3Cpu.RenameEntry` | ChampSim/src/ooo_cpu.cc:452-466 | Renames sources, then destinations, in place and extends the renaming invariant to the entry |
| `OutOfOrderCore.O3Cpu.DoScheduling` | ChampSim/src/ooo_cpu.cc:452-466 | Renames and schedules the next entry and changes nothing else in the reorder buffer |
| `OutOfOrderCore.O3Cpu.FindForward` | ChampSim/src/ooo_cpu.cc:517-521 | Finds the youngest store to the address if there is one |
| `OutOfOrderCore.O3Cpu.PlaceLoad` | ChampSim/src/ooo_cpu.cc:511-535 | By cases: with no store to the address the load takes the first free slot and waits for nobody; behind an unexecuted youngest store it takes that slot, names the store and is listed by it; only if that store has executed is it finished, with both queues unchanged |
| `OutOfOrderCore.O3Cpu.ScheduleLoad` | ChampSim/src/ooo_cpu.cc:511-535 | Those cases for one load of an entry; its operation count rises by one exactly if the youngest store to the address has executed |
| `OutOfOrderCore.O3Cpu.DoMemoryScheduling` | ChampSim/src/ooo_cpu.cc:509-546 | Every load of the entry is placed by those cases, its stores become the youngest of the queue, and the operations counted are exactly the loads finished at once |
| `OutOfOrderCore.O3Cpu.DispatchInstruction` | ChampSim/src/ooo_cpu.cc:407-426 | Moves the longest prefix that fits width, reorder buffer and memory queues, in order; for each instruction, how its loads and stores were queued |
| `OutOfOrderCore.O3Cpu.FinishInRob` | ChampSim/src/ooo_cpu.cc:810-828 | The binary search finds the instruction that owns the operation and counts one more |
| `OutOfOrderCore.O3Cpu.DoFinishStore` | ChampSim/src/ooo_cpu.cc:587-603 | Counts the store and empties exactly the slots of the loads that wait for it |
| `OutOfOrderCore.O3Cpu.ExecuteStores` | ChampSim/src/ooo_cpu.cc:557-565 | Marks the chosen stores executed now and empties exactly the load-queue slots that wait for one of them |
| `OutOfOrderCore.O3Cpu.CompleteStores` | ChampSim/src/ooo_cpu.cc:567-569 | Writes to the cache, in order, the longest prefix of stores that are ready and older than the reorder buffer, which all have executed |
| `OutOfOrderCore.O3Cpu.IssueLoads` | ChampSim/src/ooo_cpu.cc:571-582 | Sends the first loads, in slot order and as many as the width allows, that are due, unsent and wait for no store |
| `OutOfOrderCore.O3Cpu.OperateStores` | ChampSim/src/ooo_cpu.cc:548-569 | Store queue, stores written and load slots released as functions of the old state, the width and the room of the cache |
| `OutOfOrderCore.O3Cpu.OperateLsq` | ChampSim/src/ooo_cpu.cc:548-585 | The stores operate and then loads are sent, exactly as many as widths and the room of the cache allow |
| `OutOfOrderCore.O3Cpu.HandleMemoryReturn` | ChampSim/src/ooo_cpu.cc:691-704 | Empties exactly the slots of sent loads whose block is among the returns that the bandwidth admits |
| `OutOfOrderCore.O3Cpu.InitializeInstruction` | ChampSim/src/ooo_cpu.cc:108-125 | Reads instructions in order up to width and room, none while fetch waits, and up to the first branch that is mispredicted or predicted taken; a misprediction suspends fetch |
| `OutOfOrderCore.O3Cpu.InitializeOne` | ChampSim/src/ooo_cpu.cc:127-200 | Drops registers in warmup and folded stack-pointer writes, records the prediction, and says whether fetch stops |
| `OutOfOrderCore.O3Cpu.FetchWaits` | ChampSim/src/ooo_cpu.cc:108-200 | In every valid state fetch waits indefinitely exactly while a mispredicted branch is unresolved in some stage, and that branch is the last instruction read: it is the only one, with nothing in flight behind it |
| `OutOfOrderCore.O3Cpu.DoDecode` | ChampSim/src/ooo_cpu.cc:361-385 | Clears the mark of a misprediction that comes to light at decode and resumes fetch after the penalty |
| `FetchStall.ReadStall` | ChampSim/src/ooo_cpu.cc:108-125 | Reading on while fetch does not wait keeps that stall invariant |
| `FetchStall.PromoteStall` | ChampSim/src/ooo_cpu.cc:286-322 | So does promotion into the two buffers |
| `FetchStall.DecodeStall` | ChampSim/src/ooo_cpu.cc:361-400 | So does decoding a cut: a branch seen to be mispredicted was the youngest one read |
| `FetchStall.CompleteStall` | ChampSim/src/ooo_cpu.cc:633-645 | So does completing an entry: fetch resumes if it was mispredicted, and then nothing was behind it |
| `FetchStall.MergeTogether` | ChampSim/src/ooo_cpu.cc:397-398 | Merging reads identifiers only: two pairs of ranges with the same identifiers merge place by place alike |
| `FetchStall.Mispredictions` | ChampSim/src/ooo_cpu.cc:150-200 | Which branches are mispredicted, by kind, direction and target, and which of those decode sees |
| `FetchStall.FetchGoesOn` | ChampSim/src/ooo_cpu.cc:150-189 | Behind which instructions fetch goes on: all that are no branches, branches predicted right and untaken, and mispredicted ones during warmup |
| `OutOfOrderCore.O3Cpu.PromoteToDecode` | ChampSim/src/ooo_cpu.cc:286-322 | Promotes the longest ready prefix, split by decoded status, each part in order and timed |
| `OutOfOrderCore.O3Cpu.ChooseDecoded` | ChampSim/src/ooo_cpu.cc:329-363 | Chooses the oldest ready entries of both buffers in program order until a width is used up or the next is not ready |
| `OutOfOrderCore.O3Cpu.DecodeInstruction` | ChampSim/src/ooo_cpu.cc:323-403 | Sends that choice, decoded and merged in program order, to dispatch; fetch resumes exactly if a misprediction came to light |
| `OutOfOrderCore.O3Cpu.Operate` | ChampSim/src/ooo_cpu.cc:37-53 | One cycle keeps every invariant and runs each stage once, in order, each on the state that the one before left |
| `CoreCycle.CycleRetires` | ChampSim/src/ooo_cpu.cc:37-53 | In a cycle the completed head of the reorder buffer, up to the width, is what retires; every other entry keeps its place and loses no progress |
| `CoreCycle.CompletedExactly` | ChampSim/src/ooo_cpu.cc:647-659 | An entry is completed by the stage exactly if the scan reached it, it had executed, was due, and every memory operation had finished; nothing else of it changes |
| `CoreCycle.StartedExactly` | ChampSim/src/ooo_cpu.cc:468-507 | An entry starts exactly if the scan reached it, it was scheduled and due, and the file marks each source register valid; it is ready after the latency |
| `CoreCycle.ScheduledExactly` | ChampSim/src/ooo_cpu.cc:428-450 | An unscheduled entry is scheduled exactly if the scan reached it and it was due, and the scan passed no entry that found too few registers free |
| `CoreCycle.SentExactly` | ChampSim/src/ooo_cpu.cc:571-582 | A load is sent exactly if it was ready in an earlier cycle, was unsent, waits for no store, and fewer such loads than the width precede it |
| `CoreCycle.ArrivedExactly` | ChampSim/src/ooo_cpu.cc:203-230 | A hit in the decoded-instruction buffer makes an instruction fetched, decoded and ready now; an arrival makes it fetched; others stay as they are |
| `CoreCycle.DecodesReady` | ChampSim/src/ooo_cpu.cc:329-363 | When decoding stops with width and room to spare, the older of the two heads left is not ready, or needs decoding with that width used up |
| `CoreCycle.CycleCompletes` | ChampSim/src/ooo_cpu.cc:647-659 | An executed, due entry with finished memory operations is completed at the end of the cycle unless older ones use up the width |
| `CoreCycle.CycleStarts` | ChampSim/src/ooo_cpu.cc:468-507 | A scheduled, due entry with valid sources has started at the end of the cycle, its loads made ready, unless older ones use up the width |
| `CoreCycle.CycleSchedules` | ChampSim/src/ooo_cpu.cc:428-450 | A due entry is scheduled at the end of the cycle if no entry up to it lacks registers and the search width reaches it |
| `CoreCycle.CycleStores` | ChampSim/src/ooo_cpu.cc:548-603 | The oldest unexecuted store, if ready, has executed at the end of the cycle, queued or written, and the loads that waited for it have left |
| `CoreCycle.CycleDispatches` | ChampSim/src/ooo_cpu.cc:407-426 | The head of the dispatch buffer, if due and with room, is in the reorder buffer at the end of the cycle, its memory operations queued |
| `CoreCycle.CycleReads` | ChampSim/src/ooo_cpu.cc:108-125 | A cycle reads the next instructions of the input queue and the program grows by exactly these; at least one if fetch runs and there is room |
| `CoreStages.ReadAs` | ChampSim/src/ooo_cpu.cc:129-201 | A read instruction keeps its memory operations and, outside warmup, its registers, except that nothing will depend on a stack pointer changed by a fixed amount |
| `DramQueues.ScheduledIffServed` | ChampSim/src/dram_controller.cc:143-366 | A queue slot is scheduled exactly when a valid bank points to it, and that bank is the one its address selects |
| `DramControl.DramChannel.BankStates` | ChampSim/src/dram_controller.cc:143-366 | In every valid state a request is scheduled exactly when its own bank serves it, busy banks but the one on the bus serve the current queue, and none is under refresh |
| `DramControl.DramChannel.ReadsAccounted` | ChampSim/src/dram_controller.cc:107-162 | In every valid state each read taken on waits in a slot for its block or has been answered since it was taken on (answers given before do not count), and responses pushed and owed are no more than reads taken on |
| `DramQueues.VacateStep` | ChampSim/src/dram_controller.cc:143-162 | A bank giving up its request keeps the bank invariant |
| `DramQueues.ServiceStep` | ChampSim/src/dram_controller.cc:343-366 | An idle bank taking a request of the current queue keeps the bank invariant |
| `DramQueues.FlipStep` | ChampSim/src/dram_controller.cc:204-244 | Once only the bank on the bus is busy the mode may be inverted |
| `DramQueues.ReleaseStep` | ChampSim/src/dram_controller.cc:143-162 | Releasing a slot answers every accepted read it stood for, after it was taken on; responses stay within the reads taken on |
| `DramQueues.MergeStep` | ChampSim/src/dram_controller.cc:446-493 | Merging one read into another keeps every accepted read that has not been answered since it was taken on in a slot |
| `DramQueues.AcceptStep` | ChampSim/src/dram_controller.cc:517-534 | A read that is taken on is remembered by its slot, whatever answers its block had before |
| `DramControl.ServiceKeepsRefresh` | ChampSim/src/dram_controller.cc:343-366 | Serving a packet overwrites no pending refresh |
| `DramControl.BusyUnrefreshed` | ChampSim/src/dram_controller.cc:164-202 | No busy bank is under refresh |
| `DramControl.SwapEnds` | ChampSim/src/dram_controller.cc:204-244 | After a mode swap a slot is scheduled exactly when it is the one on the bus |
| `DramControl.SwapKeepsRows` | ChampSim/src/dram_controller.cc:218-232 | A bank that gives its request back keeps its row open exactly if the access would not be over within a column access |
| `DramControl.DramChannel.AddRead` | ChampSim/src/dram_controller.cc:517-534 | Takes the read into a free slot exactly when there is one, and remembers its requester |
| `DramControl.DramChannel.AddWrite` | ChampSim/src/dram_controller.cc:536-553 | Takes the write into a free slot exactly when there is one |
| `DramControl.DramChannel.CheckWriteCollision` | ChampSim/src/dram_controller.cc:424-444 | Every surviving write is checked and those checked before survive, blocks are pairwise different, and each block written before is still written |
| `DramControl.DramChannel.CheckReadCollision` | ChampSim/src/dram_controller.cc:446-493 | Every surviving read is checked, blocks are pairwise different, no write covers a read that survived its check, and everyone who waited in a slot before waits in a slot for the block afterwards or is among the responses of this call |
| `DramControl.DramChannel.CheckOneRead` | ChampSim/src/dram_controller.cc:446-493 | A new read is answered at once if a write covers its block, else merged into another read for the block, else kept |
| `DramControl.DramChannel.FinishDbusRequest` | ChampSim/src/dram_controller.cc:143-162 | Answers the request on the bus exactly when it is done, frees its slot and bank, and changes nothing else |
| `DramControl.DramChannel.SwapWriteMode` | ChampSim/src/dram_controller.cc:204-244 | Swaps exactly at the occupancy marks; every other bank gives its request back, which waits again from now |
| `DramControl.DramChannel.ScheduleRefresh` | ChampSim/src/dram_controller.cc:164-202 | The new state of every bank; afterwards no idle bank has a refresh pending |
| `DramControl.DramChannel.NextBank` | ChampSim/src/dram_controller.cc:250-252 | Finds the busy bank that is ready first, an idle one only if all are idle |
| `DramControl.DramChannel.PopulateDbus` | ChampSim/src/dram_controller.cc:246-298 | Puts that bank on a free bus and sets its return and the bankgroup cool-down |
| `DramControl.DramChannel.SchedulePacket` | ChampSim/src/dram_controller.cc:315-341 | Finds a waiting request if there is one, preferring idle banks and then the oldest |
| `DramControl.DramChannel.ServicePacket` | ChampSim/src/dram_controller.cc:343-366 | Hands the packet to its bank exactly when it is due and the bank is neither busy nor under refresh |
| `DramControl.DramChannel.ReleaseAll` | ChampSim/src/dram_controller.cc:111-129 | In warmup every read is answered once and both queues are emptied |
| `DramControl.DramChannel.Operate` | ChampSim/src/dram_controller.cc:107-141 | One cycle keeps the bank state machine, one request per block and every accepted read until a response after it, and is the sequence of its steps: collisions, answer, mode, refresh, bus, service |
| `DramControl.CycleServes` | ChampSim/src/dram_controller.cc:315-366 | The request that no other precedes, if due and its bank neither busy nor refreshing, is scheduled by the end of the cycle: its bank is busy with it on its row for as long as a hit, an empty bank or a conflict takes, and no other bank changes |
| `DramControl.CycleAnswers` | ChampSim/src/dram_controller.cc:143-162 | A request on the bus whose time has come has left its slot at the end of the cycle, and a response of this cycle answers everyone who waited |
| `DramMapping.EncodeDecode` | ChampSim/src/dram_controller.cc:80-92 | Encoding the location of an address gives back its bits below the memory size |
| `DramMapping.DecodeEncode` | ChampSim/src/dram_controller.cc:568-598 | Every location with all fields in range is hit |
| `DramMapping.MappingIsInjective` | ChampSim/src/dram_controller.cc:568-598 | Addresses that agree above the memory size and share a location are equal |
| `DramMapping.SwizzleBits` | ChampSim/src/dram_controller.cc:555-566 | The loop over row segments computes the field with each bit flipped by the parity of its row bits |
| `DramMapping.RowBitFlips` | ChampSim/src/dram_controller.cc:555-593 | Which bits a row bit permutes: the lowest of the channel, and exactly one of bankgroup and bank together, the one at its position modulo their width |
| `DramMapping.NeighbourRowsApart` | ChampSim/src/dram_controller.cc:568-593 | Rows whose numbers differ in one bit lie in different banks, and in different channels if there are several |
| `DramMapping.BankIndexInRange` | ChampSim/src/dram_controller.cc:300-313 | The bank index is below the number of banks |
| `DramMapping.BankIndexInjective` | ChampSim/src/dram_controller.cc:300-313 | Two addresses have the same bank index exactly when rank, bankgroup and bank agree |
| `DramMapping.BankIndexSurjective` | ChampSim/src/dram_controller.cc:300-313 | Every bank is the bank of some address |
| `DramMapping.BankCountIs` | ChampSim/src/dram_controller.cc:44-59 | The bank array, as large as the product of ranks, bankgroups and banks, has one bank for each setting of their address bits |
| `DramMapping.GetChannel` | ChampSim/src/dram_controller.cc:568-574 | The channel getter agrees with the decoded location |
| `DramMapping.GetBankgroup` | ChampSim/src/dram_controller.cc:576-583 | The bankgroup getter agrees with the decoded location |
| `DramMapping.GetBank` | ChampSim/src/dram_controller.cc:584-593 | The bank getter agrees with the decoded location |
| `DramMapping.MakeSlicer` | ChampSim/src/dram_controller.cc:80-92 | The field widths are the logarithms of the geometry |
| `BitStrings.MakeContiguousExtentSet` | ChampSim/inc/extent_set.h:52-69 | Field extents lie one above the other |
| `BitStrings.FieldsTile` | ChampSim/inc/extent_set.h:52-69 | The fields of an address, in order, are its low bits |
| `BitStrings.ConcatSlices` | ChampSim/inc/extent.h:154-175 | Slicing a concatenation of fields gives each field back |
| `LoopExactness.LoopIsExact` | ChampSim/branch/LTage/loop_predictor.h:77-207 | A branch tracked from the start of an execution that is always taken N times, 1 <= N <= 16383, is predicted validly and correctly at every outcome from its fourth execution on, for every interleaving of branches that do not share its set and tag and fewer than 255 failed allocations in its set |
| `LoopExactness.LoopIsSilentBefore` | ChampSim/branch/LTage/loop_predictor.h:115-207 | Before the fourth execution no prediction is marked valid |
| `LoopExactness.MidLoopNeverConfident` | ChampSim/branch/LTage/loop_predictor.h:177-205 | A branch tracked from any later taken outcome of an execution is never predicted validly |
| `LoopExactness.ResetAllocates` | ChampSim/branch/LTage/loop_predictor.h:70-75 | After reset, the first taken outcome of a branch with a nonzero tag is tracked |
| `LoopExactness.AllocationTracks` | ChampSim/branch/LTage/loop_predictor.h:121-138 | A taken branch that misses while a way of its set has age 0 is tracked from then on |
| `LoopExactness.TracksAll` | ChampSim/branch/LTage/loop_predictor.h:115-207 | The entry holds the phase of the loop through any interleaving |
| `LoopExactness.SurpriseForgets` | ChampSim/branch/LTage/loop_predictor.h:154-175 | A confident prediction that turns out wrong clears trip count, confidence and age and counts the present outcome anew |
| `LoopExactness.ConfidenceIsEarned` | ChampSim/branch/LTage/loop_predictor.h:177-205 | Over any outcomes confidence rises at most once per loop exit, so validity takes three exits to regain |
| `LoopExactness.RelearnsAfterSurprise` | ChampSim/branch/LTage/loop_predictor.h:154-207 | After a surprise a branch that keeps a new trip count is predicted confidently and correctly from its fourth execution on |
| `LoopExactness.TurnedAwayAges` | ChampSim/branch/LTage/loop_predictor.h:121-146 | A full set gets one step older in every way with each branch it turns away |
| `LoopPrediction.LoopPredictor.PredictBranch` | ChampSim/branch/LTage/loop_predictor.h:77-112 | The lookup: first way with the tag, direction, and validity at full confidence |
| `LoopPrediction.LoopPredictor.LastBranchResult` | ChampSim/branch/LTage/loop_predictor.h:115-207 | Changes exactly the entry looked up, or allocates or ages the set |
| `LTageUnit.LTage.PredictBranch` | ChampSim/branch/LTage/ltage.cc:4-13 | The loop predictor overrides TAGE exactly when its prediction is valid |
| `LTageUnit.LTage.LastBranchResult` | ChampSim/branch/LTage/ltage.cc:16-20 | Both predictors learn the outcome |
| `LTageUnit.LTageIsExact` | ChampSim/branch/LTage/ltage.cc:4-20 | L-TAGE predicts every outcome of such a loop branch from the fourth execution on, whatever TAGE has learned |
| `LTageUnit.TageDecidesBefore` | ChampSim/branch/LTage/ltage.cc:4-13 | Until then TAGE decides |
| `TagePrediction.TwoLongest` | ChampSim/branch/LTage/tage.h:181-190 | Every matching component is the provider or no longer than the alternate |
| `TagePrediction.LearningIsLocal` | ChampSim/branch/LTage/tage.h:232-351 | Learning one branch changes each tagged table only where that branch is hashed to, apart from the periodic sweep of usefulness |
| `TagePrediction.AllocationTakesOver` | ChampSim/branch/LTage/tage.h:298-328 | A mispredicted branch that finds a free entry gets it in a component longer than its provider, and under the same history that component provides the prediction and agrees with the outcome |
| `TagePrediction.WearDownAt` | ChampSim/branch/LTage/tage.h:325-327 | When no candidate is free, each loses one step of usefulness and nothing else changes |
| `TagePrediction.UsefulnessDecays` | ChampSim/branch/LTage/tage.h:330-342 | An entry that no outcome makes more useful between the two sweeps of an interval ends with usefulness 0 |
| `TageLearning.ProviderLearns` | ChampSim/branch/LTage/tage.h:270-297 | The provider's counter moves one step towards the outcome, saturating at 0 and 7; its usefulness moves exactly when its prediction and the alternate's differ, up if the branch was predicted right |
| `TageLearning.AlternateLearns` | ChampSim/branch/LTage/tage.h:278-286 | The alternate's counter moves one step towards the outcome exactly while the provider is not useful |
| `TageLearning.BaseLearns` | ChampSim/branch/LTage/tage.h:255-276 | The bimodal counter moves exactly when no component matches; the use-alternate register exactly when a new-looking provider and its alternate disagree, up if the alternate was right |
| `TageLearning.ProviderDecides` | ChampSim/branch/LTage/tage.h:193-225 | A trained or useful provider decides; a new-looking one gives way exactly if alternates have done better |
| `TageLearning.FourLessons` | ChampSim/branch/LTage/tage.h:232-296 | Over any run in which an entry provides only for one outcome, and is otherwise left alone, four such outcomes make it predict that outcome, whatever its counter was |
| `TageLearning.TwoLessons` | ChampSim/branch/LTage/tage.h:255-276 | Two equal outcomes of a branch that no component matches make the prediction agree with them |
| `TageLearning.CountersBounded` | ChampSim/branch/LTage/tage.h:232-351 | Prediction counters stay within 0 and 7 |
| `TageLearning.SearchStart` | ChampSim/branch/LTage/tage.h:299-311 | Half of the draws start the search at the next component, a quarter one further and a quarter two further; past the longest but one half of them find none |
| `TageLearning.SweepKeeps` | ChampSim/branch/LTage/tage.h:330-342 | What each sweep leaves of a usefulness counter: its low bit at half of the interval, its high bit at the end |
| `TageUnit.Tage.PredictBranch` | ChampSim/branch/LTage/tage.h:161-229 | Records provider and alternate, and predicts with the provider unless its entry looks new and the alternate has done better |
| `TageUnit.Tage.LastBranchResult` | ChampSim/branch/LTage/tage.h:232-351 | Counters, usefulness, allocation and sweep as specified, under the history that predicted; then the history moves on |
| `TageUnit.Tage.IndexHash` | ChampSim/branch/LTage/tage.h:398-404 | The index as a function of address, path and folded history |
| `TageUnit.Tage.TagHashOf` | ChampSim/branch/LTage/tage.h:388-395 | The tag as a function of address and folded history |
| `TageHashing.IndexBitIs` | ChampSim/branch/LTage/tage.h:398-404 | Each index bit combines two address bits, a path bit and the parity of the outcomes of the component's history at that age modulo ten |
| `TageHashing.IndexSeparates` | ChampSim/branch/LTage/tage.h:398-404 | Branches that differ in one address bit have different indexes exactly if it is one of the low twenty |
| `TageHashing.HistorySeparates` | ChampSim/branch/LTage/tage.h:373-404 | A different outcome moves the branch to another entry exactly if it is within the component's history |
| `TageHashing.TagSeparates` | ChampSim/branch/LTage/tage.h:388-395 | When one address bit or one outcome changes the tag: an address bit exactly if it is in the tag's width, an outcome of the history unless its two folds cancel |
| `TageHashing.HistoriesGrow` | ChampSim/branch/LTage/tage.h:18-32 | Histories grow with the component, from four outcomes to all that are kept but one |
| `TageUnit.Tage.Allocate` | ChampSim/branch/LTage/tage.h:298-328 | The first free candidate is taken, else all candidates are worn down |
| `TageUnit.Tage.Sweep` | ChampSim/branch/LTage/tage.h:330-342 | Keeps one bit of every usefulness counter twice per interval |
| `FoldedHistory.GhistHash` | ChampSim/branch/LTage/tage.h:373-385 | The loop computes the parity of the outcomes at each residue |
| `FoldedHistory.PushRotates` | ChampSim/branch/LTage/tage.h:373-385 | One more outcome rotates the hash by one, adds the new outcome and takes the leaving one out at its length modulo the width |
| `FoldedHistory.FoldedShiftRegister.PushBack` | ChampSim/branch/hashed_perceptron/folded_shift_register.h:72-97 | The packed words hold the history after the push, for every word length |
| `FoldedHistory.FoldedShiftRegister.Value` | ChampSim/branch/hashed_perceptron/folded_shift_register.h:55-70 | The value is the same fold of the history that TAGE computes |
| `FoldedHistory.FoldedShiftRegister.constructor` | ChampSim/branch/hashed_perceptron/folded_shift_register.h:49-53 | The register starts with an empty history |
| `FoldedHistory.HistoriesAgree` | ChampSim/branch/hashed_perceptron/folded_shift_register.h:55-97 | After any outcomes a register of just the needed length folds to the hash of the longer history |
| `RecencyTable.LruTable.CheckHit` | ChampSim/inc/msl/lru_table.h:128-139 | A hit returns the element and moves it to the front of its set, the others keep their order; a miss changes nothing; the call is recorded as a use |
| `RecencyTable.LruTable.Fill` | ChampSim/inc/msl/lru_table.h:141-154 | A known tag is replaced and moved to the front, a new one pushed, the last dropped only when the set is full; the call is recorded as a use |
| `RecencyTable.LruTable.Invalidate` | ChampSim/inc/msl/lru_table.h:156-166 | The element, if there, is returned and leaves its set, and the others keep their order |
| `RecencyTable.LruTable.MinMax` | ChampSim/inc/msl/lru_table.h:114-125 | The scan finds the way given up first and the way given up last |
| `RecencyTable.FillStep` | ChampSim/inc/msl/lru_table.h:141-154 | The way chosen is the matching one, an invalid one, or the least recently used of a set whose ways are all valid |
| `RecencyTable.FullWhenValid` | ChampSim/inc/msl/lru_table.h:141-154 | A set holds as many elements as ways exactly when every way is valid |
| `RecencyTable.FillThenHit` | ChampSim/inc/msl/lru_table.h:128-154 | After a fill the element hits, tags are distinct and the bound holds |
| `RecencyTable.FillKeeps` | ChampSim/inc/msl/lru_table.h:128-154 | A fill forgets at most one other element: the one used longest ago, and only for a new tag in a full set |
| `RecencyTable.TouchMoves` | ChampSim/inc/msl/lru_table.h:128-139 | After a hit the element is in front and the others follow in the order they had |
| `RecencyTable.RunByLastUse` | ChampSim/inc/msl/lru_table.h:114-166 | Over any run of calls a set lists its elements by the time of their last hit or fill, each tag once, no more than its ways |
| `RecencyTable.OldestIsGivenUp` | ChampSim/inc/msl/lru_table.h:141-154 | When a new tag comes to a full set, an element is given up exactly if its last use is the oldest |
| `RecencyTable.LruTable.SetsByLastUse` | ChampSim/inc/msl/lru_table.h:91-166 | The order by last use in every reachable state of the table |
| `MissStatus.MergeFold` | ChampSim/src/cache.cc:107-139 | Merging any sequence of requests gives the union of waiters and requesters, type PREFETCH exactly if all were, the enqueue time of the first demand (else of the first request) and otherwise the last demand |
| `MissStatus.ReturnStep` | ChampSim/src/cache.cc:610-633 | The swap keeps returned registers a prefix in the order of return with nondecreasing ready times, and blocks distinct |
| `MissStatus.FilledStep` | ChampSim/src/cache.cc:442-450 | Filling a prefix fills blocks in the order in which they returned |
| `MissStatus.ReadyIsPrefix` | ChampSim/src/cache.cc:442-450 | No register that is ready hides behind one that is not |
| `CacheSets.OncePerBlock` | ChampSim/src/cache.cc:169-294 | With whole-address matching a block is held at most once across all ways and registers together, in its own set |
| `CacheUnit.Cache.BlockHeldOnce` | ChampSim/src/cache.cc:442-514 | That property in every valid state of the cache |
| `CacheUnit.Cache.FillsFollowReturns` | ChampSim/src/cache.cc:610-633 | In every valid state blocks have been filled in the order in which they returned, and registers are distinct and within capacity |
| `CacheSets.FillExclusive` | ChampSim/src/cache.cc:169-248 | Filling a returned register into any way of its set keeps that |
| `CacheSets.MissIsAbsent` | ChampSim/src/cache.cc:250-294 | A block that misses in its set is held nowhere |
| `CacheWaiters.LeaveStep` | ChampSim/src/cache.cc:500-514 | A lookup leaves the tag check without losing a waiter if whoever waits for it is in a register, a pending write or a later reply |
| `CacheWaiters.FilledStep` | ChampSim/src/cache.cc:442-450 | Dropping filled registers loses no waiter if each was answered during this pass |
| `CacheWaiters.AcceptStep` | ChampSim/src/cache.cc:391-413 | A request that is taken on waits in its lookup, whatever replies its block had before |
| `CacheUnit.Cache.FinishPacket` | ChampSim/src/cache.cc:610-633 | The register that awaited the block is ready after the fill latency and moves in front of all that have not returned |
| `CacheUnit.Cache.HandleFill` | ChampSim/src/cache.cc:169-248 | Fills the first invalid way or any victim named, writes a dirty victim back, answers all waiters; fails without effect when the write-back is refused |
| `CacheUnit.Cache.PerformFills` | ChampSim/src/cache.cc:442-450 | Fills returned misses in return order, then pending writes; falls short of the ready ones within the bandwidth only where the next one would need a dirty victim written back or found no victim; the new ways, write-backs and replies are those of the registers filled |
| `CacheSteps.CleanFillsAll` | ChampSim/src/cache.cc:169-248 | If no way is dirty and no ready miss is a write, every ready register within the bandwidth is filled |
| `CacheSteps.FillHolds` | ChampSim/src/cache.cc:220-235 | A filled block is in its way, valid, dirty exactly for a write, unless a later fill of the pass took the way |
| `CacheSteps.FillKeeps` | ChampSim/src/cache.cc:220-235 | Ways that no fill of the pass took are as before |
| `CacheUnit.Cache.TryHit` | ChampSim/src/cache.cc:250-294 | Hits exactly when a way of the set holds the block, touches only the first such way and answers the request |
| `CacheUnit.Cache.HandleMiss` | ChampSim/src/cache.cc:320-372 | Merges into the register of the block, or forwards and allocates exactly when a response is asked for, never beyond capacity |
| `CacheUnit.Cache.HandleWrite` | ChampSim/src/cache.cc:374-389 | A write-back waits like a fill that has returned |
| `CacheUnit.Cache.CheckTags` | ChampSim/src/cache.cc:500-514 | Each due lookup is answered if its block is there and handled as a miss otherwise; the due ones leave, except the misses that found no room, which stay in front |
| `CacheUnit.Cache.Operate` | ChampSim/src/cache.cc:415-526 | One cycle keeps register order and capacity, one holder per block, own sets, and every waiter until a reply after its arrival, and is the sequence of its steps: responses, fills of misses, fills of writes, arrivals, tag checks |
| `CacheSteps.CycleFills` | ChampSim/src/cache.cc:442-450 | If no way is dirty and no ready miss is a write, every register ready within the fill bandwidth leaves in this cycle with its reply pushed |
| `CacheSteps.CycleLooks` | ChampSim/src/cache.cc:500-514 | A due lookup is answered in this cycle if its block is there when the fills are done, and handled as a miss otherwise |
| `CacheSteps.HitMarks` | ChampSim/src/cache.cc:250-294 | A hit marks the way that held the block, dirty for a write and no longer prefetched for a demand, and no other way |
| `CacheUnit.Cache.MissesWereAsked` | ChampSim/src/cache.cc:320-372 | In every valid state the lower level was asked, with a response and not as a write, for every block that a register waits for |
| `CacheUnit.Cache.InvalidateEntry` | ChampSim/src/cache.cc:564-574 | Invalidates the first way of the set tagged with the block, valid or not; the block is gone afterwards exactly when no valid copy was behind that way, and always in a cache that matches whole addresses |
| `CacheSets.InvalidateStep` | ChampSim/src/cache.cc:564-574 | That equivalence, and that a cache without stale tags in front of valid copies always loses the block |
| `CacheSets.FillFirstTagged` | ChampSim/src/cache.cc:169-248 | Filling the first invalid way leaves no stale tag of a block in front of its valid copy |
| `ChannelUnit.Channel.CheckCollision` | ChampSim/src/channel.cc:72-115 | Terminates; every surviving entry is checked; each queue is the merge of its old entries; every read or prefetch is stood for in its queue or answered by a write, with a response if it wanted one; over any run each queue then has one request per block unless it ever took on one block both translated and untranslated |
| `ChannelUnit.Channel.CheckWrites` | ChampSim/src/channel.cc:77-86 | The loop that merges and erases in place computes the merge |
| `ChannelUnit.Channel.CheckReads` | ChampSim/src/channel.cc:88-100 | The loop that forwards, merges and erases in place computes the merge of the reads that no write answers |
| `ChannelQueues.DistinctIffAgree` | ChampSim/src/channel.cc:32-59 | From distinct blocks on, merging leaves one request per block exactly when requests for the same block are translated alike |
| `ChannelUnit.WritesDistinct` | ChampSim/src/channel.cc:77-86 | For any write queue: it ends with one request per block exactly when its checked requests had one each and requests for the same block are translated alike |
| `ChannelUnit.AddStep` | ChampSim/src/channel.cc:117-155 | A new request keeps the checked ones free of duplicates |
| `ChannelUnit.TakeStep` | ChampSim/src/cache.cc:474-484 | So does taking requests from the front |
| `ChannelUnit.ReadsDistinct` | ChampSim/src/channel.cc:88-115 | The same for any read queue and the reads that no write answers |
| `ChannelQueues.MixedDuplicates` | ChampSim/src/channel.cc:35-46 | Three requests with mixed translation after which a block is queued twice |
| `ChannelQueues.MergeKeeps` | ChampSim/src/channel.cc:49-59 | A merged request still stands for everyone who waited |
| `ChannelUnit.Channel.WritesCollide` | ChampSim/src/channel.cc:72-86 | Writes collide on the same address where offsets matter and on the same block otherwise |
| `ChannelUnit.Channel.TakeRq` | ChampSim/src/cache.cc:474-484 | The level below takes requests from the front; what stays keeps its order and stays free of duplicates |
| `ChannelUnit.Channel.AddRq` | ChampSim/src/channel.cc:117-155 | Appends an unchecked copy exactly when there is room; the checked requests stay free of duplicates |
| `VirtualMemoryUnit.VirtualMemory.VaToPa` | ChampSim/src/vmem.cc:107-123 | An existing mapping never changes; a first use takes the front page and costs the penalty; no page serves two purposes while no more were taken than there are |
| `VirtualMemoryUnit.VirtualMemory.GetPtePa` | ChampSim/src/vmem.cc:125-156 | The same for page-table entries, packed into sub-pages; the entry lies inside its page-table page; a page is opened whenever the last one is used up, even if nothing is allocated |
| `VirtualMemoryUnit.SharedEntry` | ChampSim/src/vmem.cc:76-87 | Two virtual pages share a page-table entry of a level exactly if they lie in one aligned block of as many pages as the entry reaches |
| `VirtualMemoryUnit.OffsetsApart` | ChampSim/src/vmem.cc:76-87 | Under one entry of the next level, pages have equal offsets exactly if they share the entry |
| `VirtualMemoryUnit.VirtualMemory.PopulatePages` | ChampSim/src/vmem.cc:57-68 | Every page above the first megabyte once |
| `VirtualMemoryUnit.VirtualMemory.PpagePop` | ChampSim/src/vmem.cc:95-103 | Removes the front page; an empty list is refilled with every page once, used or not |
| `PageAllocation.NoOverlap` | ChampSim/src/vmem.cc:107-156 | While no page is shared, page-table pages of different entries have no byte in common, nor has one with a data page |
| `PageAllocation.FrameStep` | ChampSim/src/vmem.cc:132-139 | Taking the next sub-page of the open page keeps all allocations apart, also right after the list was refilled |
| `VirtualMemoryUnit.VirtualMemory.SharesWhenExhausted` | ChampSim/src/vmem.cc:95-156 | In every valid state: no page is shared while no more were taken than there are; unshared pages never exceed those there are; if none was opened for nothing, no page is shared exactly when no more are needed than there are; for data faults alone, exactly when there are no more mappings than pages |
| `VirtualMemoryUnit.VirtualMemory.TablesApart` | ChampSim/src/vmem.cc:107-156 | In every valid state with no more pages taken than there are, no byte of a page table is one of another page table or of a data page |
| `PageAllocation.UnsharedFits` | ChampSim/src/vmem.cc:95-156 | The pigeonhole behind it: one page for each virtual page and each opened table page, all different and in range |
| `PageAllocation.FaultStep` | ChampSim/src/vmem.cc:107-115 | A page fault, with the refill it may cause, keeps the allocator invariant |
| `PageAllocation.OpenTakeStep` | ChampSim/src/vmem.cc:127-139 | So does opening a page and taking its first sub-page |
| `VirtualMemoryUnit.SecondFaultShares` | ChampSim/src/vmem.cc:95-123 | With one page of memory the second page fault is given the page of the first |

## Left out

- Statistics, deadlock printing, heartbeat, tracing and I/O of every component are not modelled.
- OutOfOrderCore.O3Cpu.InitializeInstruction: what the target buffer and the direction predictor answer is a parameter, one answer for each instruction of the fetch width; their training and the prefetcher's hook are left out.
- OutOfOrderCore.O3Cpu.MarkFetched: the instruction cache and the decoded-instruction buffer only say which fetched instructions hit or arrived; requests to the instruction cache are not modelled.
- OutOfOrderCore.O3Cpu.OperateLsq: how many stores and loads the data cache takes in a cycle is a parameter, as its queues only fill up within the cycle; whether a cache's lower level accepts a request is arbitrary.
- OutOfOrderCore.O3Cpu.EnoughRegisters: with more than 256 physical registers the guard reads outside its table, so the constructor requires at most that many.
- DramControl.DramChannel.AddRead: the controller's loop over channels and upper queues is left out; one channel is modelled, and physical addresses arrive as 64-bit strings.
- DramControl.DramChannel.SchedulePacket: the library's minimum under an order that is not strict is modelled as a plain left-to-right scan; so are the scans for the next bank, for the ways of the table and for the store to forward from.
- DramControl.DramChannel.CheckWriteCollision: data values are not modelled, so nothing is said about which of two merged writes wins; the same holds for the channel.
- RecencyTable.LruTable.constructor: sets and ways are the two dimensions of a table instead of one flat vector; the constructor's checks on its sizes are reduced to one set or more.
- The bimodal, gshare and perceptron predictors, and the separate `branch/Tage` copy of the same algorithm.
- LoopExactness.LoopIsExact: says nothing about trip counts above 16383, where the counter saturates.
- CacheUnit.Cache.Operate: address translation with its stash, the rotation and bandwidth sharing among upper levels, prefetchers and the internal prefetch queue: tag checks of arriving requests start at once, already translated.
- CacheSets.OncePerBlock: claimed only for caches that match whole addresses; where write-backs are filled separately a block can be held twice.
- CacheUnit.Cache.HandleMiss: dirtiness of merged writes is not tracked, as a later load can replace the write's type in the source.
- ChannelUnit.Channel.CheckCollision: a block that a queue took on both translated and untranslated can be duplicated (`MixedDuplicates`), so one request per block over a run is claimed only without that; for a single check `WritesDistinct` and `ReadsDistinct` are exact.
- VirtualMemoryUnit.VirtualMemory.SharesWhenExhausted: once the free list is refilled with used pages, pages are shared, as `SecondFaultShares` shows. If page-table pages were opened for nothing (on a call with the sub-page counter at 0 and no fault), sharing may start later than with the last page taken, so the equivalence is stated without such calls and as two bounds with them.
- Counters, times and addresses are unbounded except where a width is part of the algorithm; 64-bit wrap-around is not modelled.
- Configuration, builders, module dispatch, printers, prefetchers, and the SHiP, DRRIP and SRRIP replacement policies would add only easy members.
- Splicing of three or more slices and the static address types: only slicing by extents is modelled.
