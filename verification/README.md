# Verified models of the BenchBF3 protocols, rings and loops

BenchBF3 measures the BlueField-3 DPU. Around the vendor libraries it has its own
concurrent protocols, rings shared with the hardware, codecs and in-place loops. This
project models those in Dafny and proves what they promise, for every input, every run and
every interleaving.

- **Concurrent protocols** (DMA credit channel, sync-event ping-pong, reader/writer lock,
  SmallBank, and the hardware side of both device rings) are state machines. A run is any
  sequence of events of any party; one event is one atomic access. Theorems quantify over
  all runs. Memory is sequentially consistent.
- **Objects updated in place** are classes, and loops are loops with invariants. Their
  `ensures` tie the new state to the value-level functions the theorems are about.
- **Machine arithmetic** is written out: 16-, 32- and 64-bit registers wrap explicitly next
  to unbounded ghost counts, and signed 32-bit arithmetic is a checked `newtype`.
- **Clocks, random draws, the network, allocation failure and library results** are
  parameters or events.

Where a law fails for the code as written, the model keeps the code, a lemma exhibits a
failing run or input, and an if-and-only-if says when the law holds:

- the CQ ownership test is exact exactly when the RQ is no deeper than the CQ, and the CQ is
  never overrun exactly when it is strictly deeper (`ReceivePath`);
- a reflected frame is sent unchanged in every run exactly when the send queue is never behind
  as its receive buffer is returned (`Reflector`);
- the SmallBank client, for which replies are the only credit, never overruns its send ring
  exactly when that holds 64 entries (`SendClient`);
- DMA slots are exclusive exactly when the engine finishes in order or the batch is at most 1,
  and all copies fit exactly for stated sizes (`DmaChannel`) and are cache-line aligned exactly
  for stated moduli (`DmaAlignment`);
- the local indices of the ping-pong leave lockstep in exactly two windows (`SyncLockstep`);
- readers and writers exclude each other exactly when they cannot meet (`RwLock`), and what each
  call returns and when it waits is stated for every run (`RwLockOps`);
- with the overwritten `lock_flag`, granted locks are exclusive and FINISH writes under its own
  locks, in every run, exactly when a failed trylock reports no low bit; no lock leaks exactly
  when it reports bit 0. So no failure code gives both (`BankLiteral`, `BankWrites`);
- the importer's tasks stay within the last batch exactly when the batch divides 2^64
  (`TaskRing`);
- the dump's offset column is readable exactly below 2^32 (`HexDump`), histogram buckets sum
  up exactly when no boundary wraps back below a sample (`Histogram`), the 64-bit range test
  is containment exactly for chunks that end below 2^64 (`MempoolShadow`), and the fast MAC
  swap is an involution exactly on IPv4 frames (`MacSwap`).

Where a comment in the source says otherwise (for instance that the range test of the
mempool shadow avoids integer overflow), the code is followed.

Modules: `Bits` (bitwise operations and modular arithmetic used by the rings), `Common`,
`ReceivePath`, `SendQueue`, `SendClient` and `Reflector` (users of the two rings),
`DmaChannel`, `DmaAlignment` and `DmaFair` (its end under fair schedules), `SyncLockstep`,
`RwLock` and `RwLockOps` (its calls one by one),
`BankServer` (one request, in place), `BankProtocol` (clients and servers, and what holds for
both forms of the lock flag), `BankLocks` (the collecting flag), `BankLiteral` (the flag as
written), `BankAlone` (the stepwise server refines the whole request), `BankWrites` (the
balances FINISH changes), `BankDialogue` (what is said in answer to what), `TaskRing`, `Wire`,
`ConnInfo`, `HexDump`, `Histogram`, `Dhrystone`, `MacSwap`, `KvAggregation`,
`MempoolShadow`. `dafny verify dfyconfig.toml` checks them all.

## Model

| member | source | states |
|---|---|---|
| ReceivePath.DoorbellShowsDepth | wrapper_flexio/wrapper_flexio.cpp:444-450 | the 16-bit doorbell written at start shows the ring depth if and only if the depth is below 2^16; from there on it shows an empty ring |
| ReceivePath.CreditExact | wrapper_flexio/wrapper_flexio_device.h:228-232 | the 16-bit difference the hardware forms from the doorbell is the number of free RQ entries, across wraps |
| ReceivePath.RqSlot | wrapper_flexio/wrapper_flexio_device.h:94-98 | the masked 16-bit WQE counter is the RQ entry the packet was written to |
| ReceivePath.PollExactHere | flexio/dpa_refactor/device/dpa_refactor_device.c:208-217 | in every state that satisfies the invariant the ownership test succeeds exactly when a packet is waiting |
| ReceivePath.EveryPacketOnceInOrder | flexio/dpa_refactor/device/dpa_refactor_device.c:208-217 | in every interleaving of hardware and thread the packets handled are the packets accepted, once each, in order and unchanged, across laps and register wraps |
| ReceivePath.LoopCatchesUp | flexio/dpa_refactor/device/dpa_refactor_device.c:208-217 | from every reachable state, thread steps alone handle everything accepted so far |
| ReceivePath.PollExactIffDepths | wrapper_flexio/wrapper_flexio_device.h:233-245 | the ownership test is exact in all runs if and only if the RQ is no deeper than the CQ |
| ReceivePath.PublishedIndex | wrapper_flexio/wrapper_flexio_device.h:233-245 | the published consumer index is the number of consumed CQEs modulo 2^32 in every run, for all ring depths |
| ReceivePath.NoOverrunIffStrictlyDeeper | flexio/dpa_refactor/device/dpa_refactor_device.c:208-217 | judged by the published index, the CQ is never overrun in any run if and only if it is strictly deeper than the RQ, for all ring depths |
| ReceivePath.Device.constructor | wrapper_flexio/wrapper_flexio.cpp:299-319 | host allocation and init_cq produce the initial state: all CQEs owned by 1, full doorbell, owner bit 1 |
| ReceivePath.Device.StepRqInPlace | wrapper_flexio/wrapper_flexio_device.h:228-232 | the doorbell grows by one modulo 2^16 and nothing else changes |
| ReceivePath.Device.StepCqInPlace | wrapper_flexio/wrapper_flexio_device.h:233-245 | the registers take the values of the abstract consume step, including the owner flip at slot 0 |
| ReceivePath.Device.HandleOne | flexio/dpa_refactor/device/dpa_refactor_device.c:208-217 | one loop body keeps the invariant and hands on exactly the next packet |
| ReceivePath.Device.HandleEvents | flexio/dpa_refactor/device/dpa_refactor_device.c:208-217 | the loop ends and has handed on exactly the pending packets, in order |
| SendQueue.RingLayout | wrapper_flexio/wrapper_flexio_device.h:139-196 | after any mix of posts, doorbells and fetches: both registers are the wrapped counts, no control or Ethernet segment or key has changed, the last depth frames sit in their slots, and depth consecutive posts use different slots |
| SendQueue.FetchExact | wrapper_flexio/wrapper_flexio_device.h:139-196 | in a disciplined state a fetch reads the frame that was posted with that number |
| SendQueue.SentInOrder | flexio/dpa_small_bank/device/dpa_small_bank_client_device.c:231-245 | in every run that waits for room and rings for prepared WQEs only, the hardware sends the prepared frames once each and in order |
| SendQueue.PostSafeIffRoom | wrapper_flexio/wrapper_flexio_device.h:144-177 | a post leaves all unfetched frames in the ring if and only if there is room |
| SendQueue.BufferSlot | wrapper_flexio/wrapper_flexio_device.h:125-131 | buffer n starts at entry n modulo the depth, inside the area, across wraps of the 32-bit counter |
| SendQueue.BufferFollowsWqe | flexio/dpa_small_bank/device/dpa_small_bank_client_device.c:148-159 | after the headers are written, the buffer of send p is the entry of the WQE that points at it |
| SendQueue.SqContext.constructor | wrapper_flexio/wrapper_flexio_device.h:151-167 | init_sq and init_send_sq give the pre-filled ring with both indices 0 |
| SendQueue.SqContext.GetNextSqe | wrapper_flexio/wrapper_flexio_device.h:139-142 | the segment is the index modulo the number of segments, and the 32-bit index moves on by one; in the first lap segments come one after the other |
| SendQueue.SqContext.FillWqe | wrapper_flexio/wrapper_flexio_device.h:151-167 | one pass writes the control, Ethernet and data segment of its WQE and no other segment |
| SendQueue.SqContext.InitSendSq | wrapper_flexio/wrapper_flexio_device.h:151-167 | the whole ring is laid out and the index is back at 0 |
| SendQueue.SqContext.PrepareSendPacket | wrapper_flexio/wrapper_flexio_device.h:170-177 | the in-place post is the abstract post, and keeps the invariant if it held |
| SendQueue.SqContext.FinishSendPacketBatch | wrapper_flexio/wrapper_flexio_device.h:188-196 | the doorbell value is the new producer index, and the wrapped number of announced WQEs if it was so before |
| SendQueue.SqContext.SendBatch | flexio/dpa_small_bank/device/dpa_small_bank_client_device.c:231-245 | the burst after the ping reply posts exactly its frames, in order, and announces them with one doorbell |
| SendClient.ClientDisciplinedIff | flexio/dpa_small_bank/device/dpa_small_bank_client_device.c:223-350 | with any interleaving of its handler, the SQ and the replies, the client finds room in the ring at every post and announces prepared WQEs only, in all runs, if and only if the ring holds 64 WQEs |
| SendClient.ClientSendsInOrder | flexio/dpa_small_bank/device/dpa_small_bank_client_device.c:134-161 | in every run of the client with such a ring every request is sent once, in order and as posted, at most 64 wait in the ring, and the doorbell announces the requests of a handler together |
| Reflector.ReflectedIffNoLag | flexio/dpa_refactor/device/dpa_refactor_device.c:91-112 | in all runs in which the SQ is at most `lag` frames behind when an RQ entry is returned, every frame is sent as the thread rewrote it, if and only if `lag` is 0; for all depths and every rewriting in place |
| Reflector.OverwrittenRun | flexio/dpa_refactor/device/dpa_refactor_device.c:208-217 | a run in which the SQ is one frame behind, the next lap of packets reaches the returned buffer, and the SQ sends the bytes of another packet |
| DmaChannel.CreditExact | test_suite/channel_bench/channel_bench.cpp:140-144 | at the head of the loop the unsigned credit subtraction does not wrap and is at most a batch |
| DmaChannel.CreditWindow | test_suite/channel_bench/channel_bench.cpp:112-167 | in every interleaving: sent descriptors stay within a batch of the counter, at most a batch of copies is in flight, descriptor k names slot k modulo batch |
| DmaChannel.SyncEventQueue | test_suite/channel_bench/channel_bench.cpp:281-356 | outstanding additions stay between 0 and a batch, and every wait has a job to wait for |
| DmaChannel.CleanShutdown | test_suite/channel_bench/channel_bench.cpp:181-188 | when the sender has the closing message every descriptor was copied exactly once and all queues are empty |
| DmaChannel.InOrderSlots | test_suite/channel_bench/channel_bench.cpp:256-267 | with an in-order engine the copies not yet finished are the last ones and use different slots |
| DmaChannel.Overtaking | test_suite/channel_bench/channel_bench.cpp:284-329 | with an out-of-order engine and a batch of at least 2 there is a run with two running copies in one slot |
| DmaChannel.SlotsExclusiveIffInOrder | test_suite/channel_bench/channel_bench.cpp:284-329 | copies never share a slot in any run if and only if the engine is in order or the batch is at most 1 |
| DmaFair.FairFinishes | test_suite/channel_bench/channel_bench.cpp:281-357 | once the sender has stopped, it receives the closing message under every schedule with enough fair rounds, whatever happens in the other rounds; the number needed is computed from the state |
| DmaFair.CanAlwaysFinish | test_suite/channel_bench/channel_bench.cpp:336-357 | every run extends to one in which the sender has received the closing message |
| DmaChannel.AllFitIff | test_suite/channel_bench/channel_bench.cpp:370-387 | every descriptor of every run stays inside both buffers if and only if nothing is sent (batch 0), or payload < mmap_length and batch times payload is below 2^32 |
| DmaChannel.RoundUpIs | utils/common.hpp:84-86 | round_up gives the least multiple of the factor that is not below the number |
| DmaAlignment.AlignedIff | test_suite/channel_bench/channel_bench.cpp:114-116 | for any bound on the draws: every copy of every run starts at a cache line on the mmap side if and only if nothing is sent, or mmap_length - payload is a multiple or a divisor of 64, or no rounded draw exceeds it |
| DmaAlignment.AlignedForAllDrawsIff | test_suite/channel_bench/channel_bench.cpp:147-148 | for all draws: aligned in every run if and only if nothing is sent, or 64 divides the modulus, or the modulus divides 64 |
| DmaAlignment.AlignedInBenchmarkIff | test_suite/channel_bench/channel_bench.cpp:104-106 | for the distribution of the benchmark, 0 to INT32_MAX: as before, or the modulus is above 2^31 |
| DmaChannel.SpendCredits | test_suite/channel_bench/channel_bench.cpp:146-167 | the inner loop sends the next descriptors with the slots of their numbers and, as mmap offset, the least multiple of 64 not below the draw, modulo mmap_length - payload; it leaves the offset at the next slot |
| SyncLockstep.Lockstep | test_suite/channel_bench/sync_event.cpp:55-111 | in every interleaving the published indices are equal or 4 apart, never are both parties publishing, and the events stay within 4 |
| SyncLockstep.LocalLockstepIff | test_suite/channel_bench/sync_event.cpp:191-249 | the local indices are in lockstep except in two exactly stated windows |
| SyncLockstep.LocalIndicesDrift | test_suite/channel_bench/sync_event.cpp:191-249 | both windows are reached: 4 behind and 8 ahead |
| SyncLockstep.EventsCountUp | test_suite/channel_bench/sync_event.cpp:70-109 | neither event ever decreases and every step raises one of them by at most 1 |
| SyncLockstep.SomePartyReady | test_suite/channel_bench/sync_event.cpp:191-249 | for limits divisible by 4, until both are done, some party is not waiting |
| SyncLockstep.TerminatesIffMultipleOfFour | test_suite/channel_bench/sync_event.cpp:65-68 | under every fair schedule both loops end within a stated number of rounds if and only if the limit is a multiple of 4; otherwise neither ends |
| RwLock.FlagAndCount | utils/spinlock_mutex.h:30-88 | for any number of threads the flag is set exactly while one thread holds the write side, and the count is the number of threads between add and subtract |
| RwLock.LockReadSeesNoWriter | utils/spinlock_mutex.h:36-51 | no lock_read completes while a thread holds the write side |
| RwLock.OverlapWindow | utils/spinlock_mutex.h:66-77 | a reader and a writer overlap only if the reader read the flag before the compare-exchange and, for lock_write, was counted after the zero test |
| RwLock.OverlapHappens | utils/spinlock_mutex.h:36-83 | for each of the four pairs of a read and a write operation there is an overlapping run |
| RwLock.ExcludesIffNeverMeet | utils/spinlock_mutex.h:30-88 | exclusion holds in every run if and only if there are fewer than two threads, or no reads, or no writes |
| RwLockOps.BlockingReturnsHolding | utils/spinlock_mutex.h:36-77 | in every run a thread that called lock_read or lock_write is not out of the call before it has had the read or the write side |
| RwLockOps.TryReadResult | utils/spinlock_mutex.h:53-60 | in every run try_lock_read is over after its first access if and only if some thread held the write side at that moment, and otherwise has the read side after its second |
| RwLockOps.TryWriteResult | utils/spinlock_mutex.h:79-83 | in every run the one access of try_lock_write gives it the write side if and only if no thread held it, and otherwise ends the call |
| RwLockOps.ReaderGetsIn | utils/spinlock_mutex.h:36-51 | from every reachable state without a writer, lock_read alone has the read side within four accesses, and has raised the count by one and changed nothing else |
| RwLockOps.ReaderWaits | utils/spinlock_mutex.h:38-47 | while a writer holds, lock_read alone is, from its third access on, at its first test, out of the count, with nothing changed |
| RwLockOps.WriterGetsIn | utils/spinlock_mutex.h:66-77 | from every reachable state in which nobody counts or holds, lock_write alone has the write side within three accesses |
| RwLockOps.WriterWaits | utils/spinlock_mutex.h:68-70 | while a writer holds, or at its first test while a reader counts, lock_write waits and changes nothing |
| RwLockOps.ZeroThenClear | utils/spinlock_mutex.h:68-74 | the last two accesses of a lock_write before its compare-exchange found the count at zero and then the flag clear |
| RwLockOps.RaisedAfterClear | utils/spinlock_mutex.h:38-46 | lock_read raises the count only right after it has found the flag clear, and lowers it inside the call only right after it has found it set |
| RwLockOps.TestBeforeCas | utils/spinlock_mutex.h:45-83 | in every overlap of a reader and a writer the reader tested the flag, in an earlier event of the run, before the compare-exchange |
| RwLockOps.ZeroBeforeAdd | utils/spinlock_mutex.h:41-77 | and if the writer came through lock_write, it tested the count before the reader raised it |
| BankServer.IntendedAllOrNothing | flexio/dpa_small_bank/device/dpa_small_bank_server_device.c:197-261 | with the collecting flag GET_LOCK succeeds exactly when its locks are free and distinct, then adds exactly these; a failure changes no lock |
| BankServer.TakenIs | flexio/dpa_small_bank/device/dpa_small_bank_server_device.c:207-240 | the locks a GET_LOCK has taken are the requested ones up to the first that is held or a repetition |
| BankServer.LiteralMatchesIff | flexio/dpa_small_bank/device/dpa_small_bank_server_device.c:207-255 | with the overwritten flag the locks come out as intended if and only if all requested locks are free and distinct, or the failure code names every lock that was taken and none held before; a condition on the inputs |
| BankServer.LiteralGrantsTwice | flexio/dpa_small_bank/device/dpa_small_bank_server_device.c:207-255 | for every failure code with bit 0, three requests after which one lock has been granted twice |
| BankServer.Bank.constructor | flexio/dpa_small_bank/device/dpa_small_bank_server_device.c:53-66 | no lock held, every balance SIZE_MAX / 2 |
| BankServer.Bank.TryLock | flexio/dpa_small_bank/device/dpa_small_bank_server_device.c:209-240 | takes the mutex exactly if it was free and changes no other |
| BankServer.Bank.GetLock | flexio/dpa_small_bank/device/dpa_small_bank_server_device.c:197-261 | reply, locks held afterwards and abort count, for the collecting and the overwritten flag |
| BankServer.Bank.Release | flexio/dpa_small_bank/device/dpa_small_bank_server_device.c:287-298 | exactly the named locks are no longer held |
| BankServer.Bank.Finish | flexio/dpa_small_bank/device/dpa_small_bank_server_device.c:262-309 | exactly the named locks are released, the changed balances except user 2's savings take the request's values, all others stay |
| BankProtocol.RunInv | flexio/dpa_small_bank/device/dpa_small_bank_server_device.c:197-298 | for every form of the flag: a rule of a slot and its locks that holds at the start and that each local step keeps, for its own slot and for the others, holds of all slots in every run |
| BankLocks.HeldIsDisjointUnion | flexio/dpa_small_bank/device/dpa_small_bank_server_device.c:197-298 | with the collecting flag, at every single lock operation of every run the locked mutexes are the disjoint union of what the slots hold |
| BankLocks.RepliesAndLocks | flexio/dpa_small_bank/device/dpa_small_bank_client_device.c:246-350 | with the collecting flag a successful reply means the slot owns all it asked for; a refusal and a FINISH reply mean it owns nothing |
| BankWrites.WritesAreLocked | flexio/dpa_small_bank/device/dpa_small_bank_server_device.c:271-281 | with the collecting flag: after every run, whatever event comes next, a balance whose value changes is locked, and locked by the very slot whose FINISH is being served |
| BankLiteral.ExclusiveIff | flexio/dpa_small_bank/device/dpa_small_bank_server_device.c:207-255 | of the code as written: no two slots are ever promised one lock, in all runs, if and only if a failed trylock reports none of the low four bits (or there is no client) |
| BankWrites.WritesLockedIff | flexio/dpa_small_bank/device/dpa_small_bank_server_device.c:262-298 | of the code as written: the same holds in all runs if and only if a failed trylock reports none of the low four bits (or there is no client) |
| BankLiteral.NoLeakIff | flexio/dpa_small_bank/device/dpa_small_bank_server_device.c:207-261 | of the code as written: while no server is busy every locked mutex belongs to a slot that will return it, in all runs, if and only if the failure code has bit 0 (or there is no client) |
| BankLiteral.NoCodeIsSafe | flexio/dpa_small_bank/device/dpa_small_bank_server_device.c:207-261 | with at least one client no failure code makes the code as written both exclusive and free of leaks |
| BankLiteral.GrantedTwiceRun | flexio/dpa_small_bank/device/dpa_small_bank_server_device.c:207-255 | for every failure code with a low bit, a run of the protocol in which two slots hold one lock |
| BankWrites.UnlockedWriteRun | flexio/dpa_small_bank/device/dpa_small_bank_server_device.c:262-298 | for every failure code with a low bit, a run after which a step of FINISH changes a balance that its slot has not locked |
| BankLiteral.LeakRun | flexio/dpa_small_bank/device/dpa_small_bank_server_device.c:207-261 | for every failure code without bit 0, a run that leaves a mutex locked which no slot will return |
| BankProtocol.SlotDiscipline | flexio/dpa_small_bank/device/dpa_small_bank_client_device.c:231-350 | for every form of the flag: after the ping reply exactly 64 messages are outstanding, one per residue modulo 64, each matching its slot's number, content and phase, across the 32-bit wrap |
| BankDialogue.MessagesEnter | flexio/dpa_small_bank/device/dpa_small_bank_client_device.c:223-350 | in every state and for both forms of the flag, a message enters a thread's network only in answer to the one taken out in the same step: GET_LOCK n to the data of n, FINISH n to the granted locks of n, GET_DATA to the ping or, with number n + 64 modulo 2^32 and freshly drawn accounts, to a refusal or the end of n |
| BankDialogue.RepliesAreAnswered | flexio/dpa_small_bank/device/dpa_small_bank_client_device.c:246-350 | in every run the client can take any reply under way, and then sends exactly the one message that follows it |
| BankDialogue.RequestsAreTaken | flexio/dpa_small_bank/device/dpa_small_bank_server_device.c:143-262 | in every run a free server can take any request under way: GET_DATA is answered at once, GET_LOCK and FINISH become its work from their first step on |
| BankDialogue.PingIsAnswered | flexio/dpa_small_bank/device/dpa_small_bank_client_device.c:167-245 | the ping reply is answered by 64 GET_DATA requests, one per slot: 10 Amalgamate, 10 Balance, 9 DepositChecking, 16 SendPayment, 10 TransactSavings and 9 WriteCheck, with their accounts and locks |
| BankDialogue.OneTransaction | flexio/dpa_small_bank/device/dpa_small_bank_client_device.c:246-350 | in every run each outstanding message has the number of the last GET_DATA request of its slot; GET_LOCK and FINISH carry the accounts and locks of that request, FINISH changes and unlocks exactly what was locked, and that is always what the type of the slot locks |
| BankProtocol.OnePerSize | flexio/dpa_small_bank/device/dpa_small_bank_client_device.c:231-245 | one message per residue means exactly that many messages |
| BankAlone.GetLockAlone | flexio/dpa_small_bank/device/dpa_small_bank_server_device.c:197-261 | the step-by-step server left alone does what GET_LOCK as a whole is defined to do, in both forms of the flag, in 5 or 10 steps |
| BankWrites.FinishAlone | flexio/dpa_small_bank/device/dpa_small_bank_server_device.c:262-298 | the step-by-step server left alone with FINISH sets checking 1, savings 1 and checking 2 to the values it carries where the changed flags say so, leaves every other balance, releases exactly the named locks and replies, in 8 steps |
| TaskRing.OccupancyExact | test_suite/gdr_bench/importer.cpp:79-115 | for every completion order the 64-bit difference of the indices is the number of occupied slots, at most the batch, each with two live buffers, and the engine holds exactly those tasks |
| TaskRing.OutstandingUntouched | test_suite/gdr_bench/importer.cpp:80-102 | no step overwrites the slot or frees the buffers of another outstanding task |
| TaskRing.DrainedIsClean | test_suite/gdr_bench/importer.cpp:111-115 | when nothing is in flight every slot is null and every buffer is back |
| TaskRing.WindowIffDividesWord | test_suite/gdr_bench/importer.cpp:80-85 | outstanding tasks lie within the last batch numbers in all runs, however long, if and only if the batch divides 2^64 |
| TaskRing.OldTaskRun | test_suite/gdr_bench/importer.cpp:80-85 | a run across the 64-bit wrap that leaves the window, for every other batch |
| TaskRing.InventorySufficesIff | test_suite/gdr_bench/importer.cpp:141-141 | the inventory, sized in 32 bits, is never exhausted in any run if and only if the batch is below 2^31 |
| TaskRing.SlotsInsideIff | test_suite/gdr_bench/importer.cpp:90-130 | all slots lie inside the local buffer if and only if its 32-bit size does not wrap |
| TaskRing.TaskConfig.constructor | test_suite/gdr_bench/importer.cpp:46-48 | the ring starts empty |
| TaskRing.TaskConfig.PostOne | test_suite/gdr_bench/importer.cpp:85-107 | one submission fills one free slot and keeps the invariant |
| TaskRing.TaskConfig.PostTasks | test_suite/gdr_bench/importer.cpp:80-108 | the loop submits until the window is full or the next slot is busy, and keeps every task in flight |
| TaskRing.TaskConfig.Completed | test_suite/gdr_bench/importer.cpp:51-65 | the callback finds the finished task and two live buffers in its slot, and frees exactly them |
| TaskRing.TaskConfig.Drain | test_suite/gdr_bench/importer.cpp:111-115 | the loop ends with all slots null, no buffer in use and equal indices, for any order of completions |
| Wire.VarintReads | utils/proto/dma_connect.pb.cc:117-137 | a written varint reads back, whatever follows |
| Wire.FieldStable | utils/proto/dma_connect.pb.cc:96-159 | a field that was read, of any wire type and with nested groups, reads the same whatever follows it |
| Wire.ParseAppend | utils/proto/dma_connect.pb.cc:257-267 | parsing a concatenation is merging the parsed parts, and fails if the second part does |
| Wire.RoundTrip | utils/proto/dma_connect.pb.cc:161-197 | every message up to the 2 GiB limit parses back from its serialisation, including unknown fields |
| Wire.SizeExact | utils/proto/dma_connect.pb.cc:199-249 | the announced size is the length of the serialisation |
| Wire.ParsedIsCanonical | utils/proto/dma_connect.pb.cc:141-152 | unknown fields, with any non-minimal encoding and nested groups, are kept in a form that parses to itself |
| Wire.ReparseReturns | utils/proto/dma_connect.pb.cc:96-197 | writing a parsed message and parsing it again returns the same message |
| Wire.PackedOrNot | utils/proto/dma_connect.pb.cc:117-137 | unpacked tags 16 and 24 parse to the same message as packed 18 and 26 |
| Wire.VarintForm | utils/proto/dma_connect.pb.cc:117-137 | a varint is the number in base 128, least digit first, without leading zeros, with the high bit set in every byte but the last |
| Wire.SerializedForm | utils/proto/dma_connect.pb.cc:161-197 | the bytes of a message: the exports, the lists packed as fields 2 and 3 if not empty, the unknown fields as they came |
| Wire.ExportForm | utils/proto/dma_connect.pb.cc:168-171 | each export is a length-delimited field 1 |
| Wire.FixedFieldKept | utils/proto/dma_connect.pb.cc:141-152 | an unknown field of 8 or 4 bytes is kept as it is |
| Wire.MalformedFails | utils/proto/dma_connect.pb.cc:141-152 | a fixed-length field cut short, a reserved wire type or a stray end of group does not parse |
| Wire.NestingLimit | utils/proto/dma_connect.pb.cc:141-152 | nested unknown groups parse up to exactly 100 levels |
| ConnInfo.ComputedSizeExact | utils/proto/dma_connect.pb.cc:199-249 | despite the 32-bit conversions the computed size is within the limit exactly when the true one is, and then equal to it |
| ConnInfo.IntSizeIs | utils/proto/dma_connect.pb.cc:216-227 | the size of an int is that of its 64-bit sign extension, so ten bytes for a negative one |
| ConnInfo.ListSizeOff | utils/proto/dma_connect.pb.cc:216-227 | for data of 2 to 4 GiB the computed size is five bytes too large |
| ConnInfo.ListWrittenFresh | utils/proto/dma_connect.pb.cc:174-189 | with the cache that the sizer leaves, a list is written as its packed field |
| ConnInfo.UInt64Size | utils/proto/dma_connect.pb.cc:216-227 | the loop computes the size of the packed data |
| ConnInfo.WritePacked | utils/proto/dma_connect.pb.cc:174-180 | the loop writes tag, length and packed data |
| ConnInfo.WriteExports | utils/proto/dma_connect.pb.cc:168-171 | the loop writes one length-delimited field per export |
| ConnInfo.Message.MergeFrom | utils/proto/dma_connect.pb.cc:257-267 | the message becomes the merge of both, the other is unchanged |
| ConnInfo.Message.ByteSizeLong | utils/proto/dma_connect.pb.cc:199-249 | the computed size, and all three caches as C ints; the message is unchanged |
| ConnInfo.Message.InternalSerialize | utils/proto/dma_connect.pb.cc:161-197 | what is written as a function of the message and of whatever the caches hold |
| ConnInfo.Message.SerializeToString | utils/proto/dma_connect.pb.cc:161-249 | the serialisation if it is within the limit, otherwise nothing |
| ConnInfo.Message.TakeExports | utils/proto/dma_connect.pb.cc:103-115 | the inner loop over consecutive exports takes in a prefix of the rest, or the whole input does not parse |
| ConnInfo.Message.InternalParse | utils/proto/dma_connect.pb.cc:96-159 | it succeeds exactly on inputs that parse, and then merges the parsed message into this one |
| ConnInfo.ToProtobuf | utils/utils_common.h:49-60 | the message holds the exports and, index by index, the pointer and the size of every buffer |
| ConnInfo.FromProtobuf | utils/utils_common.h:62-72 | defined exactly when there are at least as many sizes as pointers, and then pairs them up |
| ConnInfo.Transfer | utils/utils_common.h:49-72 | a record within the limit, converted, written, parsed and converted back, arrives unchanged; a larger one is refused |
| HexDump.OffsetReadableIff | utils/utils_common.cpp:82-84 | the offset column reads as the offset if and only if that is below 2^32 |
| HexDump.NoInteriorNul | utils/utils_common.cpp:80-117 | the C string does not end before its last character |
| HexDump.DumpShows | utils/utils_common.cpp:86-106 | the digits of every byte, and of no other, stand in its column |
| HexDump.CharacterColumn | utils/utils_common.cpp:91-102 | columns 60 to 75 of every line show a byte from 32 to 126 as itself, any other byte as a dot, and positions after the last byte as spaces |
| HexDump.Separators | utils/utils_common.cpp:80-116 | a colon and a space after offsets below 2^32, a space after each group, a newline between lines |
| HexDump.CellBlanks | utils/utils_common.cpp:86-106 | every cell ends in a space, and cells after the last byte are blank |
| HexDump.RoundTrip | utils/utils_common.cpp:56-121 | decoding the hex columns returns the input |
| HexDump.Injective | utils/utils_common.cpp:56-121 | different inputs have different dumps |
| HexDump.TerminatorInsideIff | utils/utils_common.cpp:118-119 | the last write lies in the buffer if and only if the input is not empty |
| HexDump.Print | utils/utils_common.cpp:82-84 | a bounded print stays in its room, changes nothing before it, writes as much of the text as fits and a terminator |
| HexDump.PrintGroup | utils/utils_common.cpp:86-111 | a buffer that holds the text up to the group holds it to the end of the group afterwards, and the printable characters are kept |
| HexDump.PrintLine | utils/utils_common.cpp:80-117 | a buffer that holds the text up to a line holds it to the end of the line afterwards |
| HexDump.Write | utils/utils_common.cpp:56-121 | null exactly when the allocation fails; otherwise a buffer of 77 times lines plus 1 holding the dump and its terminator |
| Histogram.CountedExactly | flexio/bench/memory/bench_cache_cross.h:265-276 | each sample is counted once, and once more each time a boundary comes back below it |
| Histogram.TotalExact | flexio/bench/memory/bench_cache_cross.h:265-281 | all buckets sum to the number of samples plus the number of such returns, for every step |
| Histogram.ConservedIff | flexio/bench/memory/bench_cache_cross.h:278-285 | the sum is the number of samples if and only if no boundary comes back below a sample |
| Histogram.ConservedWhenRangeFits | flexio/bench/memory/bench_cache_cross.h:262-285 | the sum is right for every array whose range fits an int and every positive number of buckets |
| Histogram.BucketsByDivision | flexio/bench/memory/bench_cache_cross.h:262-276 | for a range that fits an int the step is the range divided by the number of buckets, and a sample is counted in bucket (sample - min) / step and no other, the last bucket taking the rest |
| Histogram.ConservedBelow | flexio/bench/memory/bench_cache_cross.h:262-281 | even if the range does not fit an int, the sum is right whenever every sample plus 2^31 per bucket is below 2^64 |
| Histogram.CountedThrice | flexio/bench/memory/bench_cache_cross.h:262-276 | the samples 0 and 2^64 - 2 in two buckets sum to 3 |
| Histogram.Extremes | flexio/bench/memory/bench_cache_cross.h:252-261 | the least sample, capped at 2^32, and the greatest |
| Histogram.CountSample | flexio/bench/memory/bench_cache_cross.h:265-276 | one pass adds the sample to exactly the buckets whose boundaries enclose it |
| Histogram.BucketCycles | flexio/bench/memory/bench_cache_cross.h:248-285 | bucket contents, sum, and when exactly the mismatch message is printed; never if the range fits an int or there is room below 2^64 |
| Dhrystone.Proc2EndsIff | flexio/bench/compute/dhrystone/dhrystone_cross.c:87-102 | the loop ends if and only if the letter is 'A', apart from a lucky uninitialised local |
| Dhrystone.Func2EndsIff | flexio/bench/compute/dhrystone/dhrystone_cross.c:209-222 | the loop ends if and only if the two letters differ |
| Dhrystone.Proc6 | flexio/bench/compute/dhrystone/dhrystone_cross.c:139-166 | the value stored for every enumeration value |
| Dhrystone.Strcmp | flexio/bench/compute/dhrystone/dhrystone_cross.c:231-231 | the comparison is the lexicographic one |
| Dhrystone.Bench.Proc1 | flexio/bench/compute/dhrystone/dhrystone_cross.c:59-85 | both records afterwards for both discriminants, whichever record the link points to |
| Dhrystone.Bench.Proc2 | flexio/bench/compute/dhrystone/dhrystone_cross.c:87-102 | the loop ends with the value plus 9 minus Int_Glob |
| Dhrystone.Bench.Proc3 | flexio/bench/compute/dhrystone/dhrystone_cross.c:104-110 | the pointer handed back and the integer set in the shared record |
| Dhrystone.Bench.Proc8 | flexio/bench/compute/dhrystone/dhrystone_cross.c:176-190 | the array elements written, in bounds and without overflow |
| Dhrystone.Bench.Func2 | flexio/bench/compute/dhrystone/dhrystone_cross.c:209-241 | the comparison result and its effect on Int_Glob |
| Dhrystone.Bench.Letters | flexio/bench/compute/dhrystone/dhrystone_cross.c:354-365 | the letter loop changes something exactly for Ident_1 |
| Dhrystone.Bench.Run | flexio/bench/compute/dhrystone/dhrystone_cross.c:330-443 | for every number of runs up to INT_MAX - 10 no int overflows, every loop ends and all variables have the documented final values |
| MacSwap.RelabelBytes | flexio/dpa_refactor/device/dpa_refactor_device.c:108-108 | the masked and tagged word is the first six bytes followed by 08 00 |
| MacSwap.ReflectedTwiceIff | flexio/dpa_refactor/device/dpa_refactor_device.c:105-108 | reflecting twice returns the frame if and only if its EtherType is 0800 |
| MacSwap.ReflectFast | flexio/dpa_refactor/device/dpa_refactor_device.c:105-108 | the overlapping word accesses exchange bytes 0 to 5 with 6 to 11, set bytes 12 and 13 to 08 00 and leave every later byte |
| MacSwap.ExchangeBytes | flexio/dpa_refactor_ddio/device/dpa_refactor_device.c:237-243 | bytes 0 to 5 and 6 to 11 change places and every byte from 12 on stays |
| MacSwap.ExchangedTwice | flexio/dpa_refactor_ddio/device/dpa_refactor_device.c:237-243 | exchanging twice returns the frame |
| MacSwap.ExchangedIff | flexio/dpa_refactor_ddio/device/dpa_refactor_device.c:237-243 | a frame is the exchanged one if and only if its two addresses are swapped and every other byte is where it was |
| KvAggregation.SumAnyOrder | flexio/dpa_kv_aggregation/device/dpa_kv_aggregation_device.c:111-113 | the sum for an entry does not depend on the order of the elements |
| KvAggregation.SumsConserve | flexio/dpa_kv_aggregation/device/dpa_kv_aggregation_device.c:111-113 | the sums of all entries together are the values of all elements together |
| KvAggregation.SumOfOne | flexio/dpa_kv_aggregation/device/dpa_kv_aggregation_device.c:111-113 | an element counts for the entry its key selects and for no other |
| KvAggregation.SameElementsSameTable | flexio/dpa_kv_aggregation/device/dpa_kv_aggregation_device.c:106-113 | two runs with the same elements end with the same table |
| KvAggregation.Table.Aggregate | flexio/dpa_kv_aggregation/device/dpa_kv_aggregation_device.c:106-113 | every entry is the sum modulo 2^32 of the values seen so far whose key selects it |
| KvAggregation.Table.AggregateStaged | flexio/dpa_kv_aggregation/device/dpa_kv_aggregation_device.c:138-152 | the two-pass form has the same effect as the direct one, for every packet that fits the staging array, whatever its capacity |
| KvAggregation.Table.AggregateAll | flexio/dpa_kv_aggregation/device/dpa_kv_aggregation_device.c:106-113 | the same after any list of packets |
| MempoolShadow.TestExactIff | utils/dpdk/dpdk_utils.c:1035-1039 | the 64-bit test agrees with containment for all ranges if and only if the chunk ends below 2^64 |
| MempoolShadow.Shadow.Register | utils/dpdk/dpdk_utils.c:944-979 | appends the chunk on success; on failure neither the list nor the live maps change |
| MempoolShadow.Shadow.Destroy | utils/dpdk/dpdk_utils.c:1012-1022 | takes back exactly the maps of the shadow |
| MempoolShadow.Shadow.Find | utils/dpdk/dpdk_utils.c:1024-1045 | the first chunk whose test succeeds, or none |
| MempoolShadow.Create | utils/dpdk/dpdk_utils.c:981-1010 | null exactly when an allocation or a registration fails, and then no map is left behind |
| MempoolShadow.Lookup | utils/dpdk/dpdk_utils.c:1024-1045 | for chunks that end below 2^64: the first containing chunk, and none if and only if none contains the range |

## Left out

- Vendor libraries (DOCA, FlexIO, ibverbs, mlx5dv, CUDA, DPDK), device discovery and memory registration: foreign code behind thin wrappers.
- The Python under `scripts/`, UDP sockets, comm-channel endpoints, flags, NUMA and huge pages, logging: I/O plumbing.
- Throughput and latency reports and clock reads: floating-point statistics over arbitrary inputs.
- Weak memory, fences and cache writeback: every step is sequentially consistent.
- DMA, sync-event, lock and SmallBank protocols: modelled on values as step functions rather than as classes, because their subject is interleaving; the server's in-place account arrays are the class `BankServer.Bank`.
- DmaChannel: `stop_flag`, send failures and exceptions are not raised; the run ends by the closing handshake.
- SmallBank: packet layout and headers, the balances GET_DATA returns (the client never uses them), the disabled balance arithmetic and the statistics print; delivery is reliable and each thread is pinged once.
- BankLocks: for the collecting lock flag; `BankLiteral` says exactly when the same holds of the flag as written.
- Reflector: `lag` bounds the schedules, the device code has no such wait; the depth of the SQ is not part of this model.
- DmaFair: a fair round lets the engine finish its oldest copy, and polls find what is there.
- SendQueue: four segments per WQE, the value of a vendor constant; the hardware's own completion queue of the SQ.
- ReceivePath: the buffers for host memory use the same ring code and are not modelled a second time.
- RwLock: `spinlock_mutex`, a single test-and-set flag, would only add an easy member.
- TaskRing: the error callback and a failed submit end the program; entry i of the three parallel vectors is one record.
- Wire: the primitives follow the Protocol Buffers Encoding specification, sections "Base 128 Varints", "Packed Repeated Fields" and "Groups"; the library's read-ahead margin just below 2 GiB is not modelled. The model is of the top-level call, for which a tag 0 or a stray end-group tag, where `_InternalParse` stops early, is a failure.
- HexDump.Write: sizes at which `num_lines * 77 + 1` itself would exceed 2^64.
- Histogram.BucketCycles: the final sum is not reduced modulo 2^64, which matters only from 2^64 counted entries on.
- KvAggregation: concurrent threads, whose additions are not atomic; one packet is processed at a time.
- The pointer-chase loop and size table of `bench_cache_cross.h`, roofline kernels and bandwidth loops, and the other reflectors and senders under `flexio/`: they would only add easy or repeated members.
