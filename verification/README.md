# Verified model of the httpsys I/O core

A Dafny model of the asynchronous core of the `httpsys` crate, and proofs about it. The
crate serves HTTP through the Windows http.sys driver: request slots submit overlapped
operations, a completion port reports them back, and buffers, vectors and completion
state are recycled through bounded free lists.

`dafny verify dfyconfig.toml` checks everything.

| module | models |
|---|---|
| `Overlapped` | the overlapped-operation protocol of `overlapped.rs` as a state machine: any number of tasks and completion threads and the kernel interleave, one atomic action at a time; `OverlappedInvariant` proves its invariant, `OverlappedTheorems` the results, `OverlappedObjects` gives the wrap and the pool as objects |
| `Handshake` | the memory orderings of `complete`, `poll_complete` and the waker, over weak memory |
| `CompletionPort` | the port of `iocp.rs`: FIFO, batches, sentinels, any number of threads |
| `ReceiveBuffers`, `Receive` | receive buffers and the adaptive receive of `buffer.rs` and `queue.rs` |
| `RequestBody` | body vectors and body assembly of `buffer.rs` and `request.rs` |
| `SlotLoop`, `KernelQueue`, `ManySlots` | the slot loop of `server.rs`, its runs against the kernel's request queue, and any number of slots over one queue |
| `Workload` | how often the adaptive receive guesses wrong, over those runs |
| `Server` | routes, shutdown and the end of the server thread and its runtime, the completion port inside |
| `Teardown` | who holds the request queue, and in which order the handles close; the protocol machine inside |

## What the environment is assumed to do

- The kernel posts exactly one packet per accepted operation, none for a refused call or
  an inline success in skip mode, and eventually finishes a cancelled operation.
- `finish` is first polled in the same poll as the submission, so a task is dropped only
  where it is suspended. `Arc`, `AtomicWaker`, `ArrayQueue`, `Vec` and the broadcast
  channel behave as documented.
- A receive for id 0 takes the head of the queue. `ERROR_MORE_DATA` fills in the id and sets
  the request aside for a call that names it; a non-zero id is answered about that request.
  No request has id 0, and no id is used twice. Without the more-body flag nothing of the
  body is left in the kernel. A read returns no more than it was asked for, and nothing only at the
  end of the body.
- Slots that are drained or aborted come to an end, so `serve` returns once it was woken.
  Whatever else handlers spawned on the runtime, blocking calls included, comes to an end
  when the runtime is dropped, unless it is itself inside the port's drop.
- Sizes that are cast to `u32` are below 2^32; spare vector capacity too.

## Where the promise holds only on a condition

The model does what the code does. In these places the code's own comments promise more,
and the exact condition is proved.

- A request that was received is routed and answered exactly when resizing the buffer
  afterwards did not replace it (`Receive.RequestSurvivesExactly`, `Receive.LostExactlyWhen`);
  a lost one is answered 404 to id 0 (`SlotLoop.OneSendPerRequest`).
- "At most one mistake" per workload needs a declared length, at most 8 KiB of headers (or
  the weaker condition of `Receive.SettlesExactly`) and requests dropped in time
  (`Workload.OneWastePerChange`, `Receive.ChunkedNeverSettles`, `Receive.KeptRequestsNeverSettle`).
- A request the slot takes from the queue is answered under its own id unless it was lost
  that way, or the call that should have repeated a failed copy attempt failed; the latter
  stays set aside (`KernelQueue.SlotDoesWhatIsDue`, `KernelQueue.OnlyAbandonedStaySetAside`).
- Dropping the port returns exactly when no batch swallowed two sentinels
  (`CompletionPort.DropEndsExactly`, `CompletionPort.TwoSentinelsHang`); it is sure to return
  exactly with at most one completion thread (`CompletionPort.DropIsSafeExactly`).
- Joining the server returns exactly when a shutdown was sent after `serve` subscribed and,
  should the last reference to the queue go on the server thread or in a task of its runtime
  (which the server thread drops last), no batch swallowed two sentinels
  (`Server.JoinReturnsExactly`). It is sure to return after a heard shutdown exactly with at
  most one completion thread (`Server.JoinIsSafeExactly`), and never does if it begins before
  `serve` has subscribed (`Server.EarlyDropHangs`).
- The handles close in the intended order exactly when the last reference to the queue goes
  before the URL group does (`Teardown.TeardownOrderExactly`). Every way to go on until all
  is closed does so exactly if nobody outside the slots holds a request when the handles are about to be dropped
  (`Teardown.OrderIsSafeExactly`); otherwise the queue can close at any of the four places
  (`Teardown.KeptClosesAnywhere`).
- `BodyPool::take` is sure of the capacity asked for only from an empty or a large enough
  vector (`RequestBody.TakeIsExact`).

## Model

| member | source | states |
|---|---|---|
| `OverlappedTheorems.CountsAreExact` | crates/httpsys/src/overlapped.rs:158-198 | in every reachable state each wrap's strong count is the number of places holding it (tasks' operations and futures, leaked references, the pool) and is positive |
| `OverlappedTheorems.NoDangling` | crates/httpsys/src/overlapped.rs:182-198 | whatever a task, the kernel, a completion thread or the pool still refers to is allocated |
| `OverlappedTheorems.ReclaimedOnce` | crates/httpsys/src/overlapped.rs:253-288 | the leaked reference is taken back at most once, by `finish` exactly on refusal or inline success in skip mode, by a completion thread otherwise |
| `OverlappedTheorems.HistoryIsKept` | crates/httpsys/src/overlapped.rs:173-198 | over any further run the reclaim log only grows, a first reclaim stays the only one, and a packet's status is never rewritten |
| `OverlappedTheorems.PooledWrapsAreClean` | crates/httpsys/src/overlapped.rs:133-171 | the pool is bounded, a pooled wrap is unique and reset, and no earlier operation on it has a packet, a thread or a task left |
| `OverlappedTheorems.GiveBackIsExact` | crates/httpsys/src/overlapped.rs:162-170 | a wrap given back is pooled, and the pool its only holder, exactly if its task was its only holder and there is room; otherwise the pool is unchanged and the wrap has that holder less |
| `OverlappedTheorems.WrapIsReused` | crates/httpsys/src/overlapped.rs:158-170 | a run in which a second operation takes the wrap an earlier one gave back |
| `OverlappedTheorems.NoCrossGeneration` | crates/httpsys/src/overlapped.rs:158-198 | whatever the kernel and the completion threads write for one operation, result, flag and wake, changes no other operation's wrap, no pooled wrap and no task but its own |
| `OverlappedTheorems.LentMemoryIsHeld` | crates/httpsys/src/overlapped.rs:118-123 | until its completion is recorded an operation's task is still inside it and still owns the buffer lent |
| `OverlappedTheorems.LentMemoryIsNotReleased` | crates/httpsys/src/overlapped.rs:310-322 | no step, dropping a task at any suspension point included, releases, hands on or regrows a lent buffer |
| `OverlappedTheorems.LiveIsExact` | crates/httpsys/src/overlapped.rs:310-322 | the buffers allocated are exactly those of the tasks that are not gone, and no two tasks share one |
| `OverlappedTheorems.NoLostWakeup` | crates/httpsys/src/overlapped.rs:103-114 | a task whose poll returned Pending has been notified, or is registered and its wake is still to come |
| `OverlappedTheorems.WakeReachesTask` | crates/httpsys/src/overlapped.rs:83-88 | the wake step notifies the suspended task |
| `OverlappedTheorems.NotificationsAreReal` | crates/httpsys/src/overlapped.rs:83-88 | a notified task has an accepted operation whose wake has happened |
| `OverlappedTheorems.LoadIsExact` | crates/httpsys/src/overlapped.rs:103-114 | either load of a poll goes on to the result exactly if the completion is recorded, without registering; else the first registers and the re-check suspends |
| `OverlappedTheorems.EarlyPollWaitsAgain` | crates/httpsys/src/overlapped.rs:103-114 | a poll before the flag is stored uses the notification up and leaves its task registered |
| `OverlappedTheorems.DropCancelsExactly` | crates/httpsys/src/overlapped.rs:310-322 | a dropped future is let go at once exactly if its operation is complete; otherwise it cancels |
| `OverlappedTheorems.CancelIsExact` | crates/httpsys/src/overlapped.rs:310-322 | cancelling marks its own operation if the kernel still has it, no other, and then the drop waits |
| `OverlappedTheorems.NoTornResult` | crates/httpsys/src/overlapped.rs:94-114 | `finish` yields the refusal code, the inline byte count, or exactly the status the kernel left in its own wrap and the length of its own packet |
| `OverlappedTheorems.FinishYieldsTheAnswer` | crates/httpsys/src/overlapped.rs:253-288 | over every run from the call on, `finish` yields the refusal code, the bytes of a call done at once with or without a packet, or the status and length of the very step in which the kernel completed this operation |
| `OverlappedTheorems.DistanceIsExact` | crates/httpsys/src/overlapped.rs:118-123 | for a spinning drop the distance measure is zero exactly when the flag is set |
| `OverlappedTheorems.DistanceFalls` | crates/httpsys/src/overlapped.rs:118-123 | no step of anybody raises an accepted operation's distance from its flag, and every kernel or thread step taken for it lowers it until it is zero |
| `OverlappedTheorems.OwnStepsCount` | crates/httpsys/src/overlapped.rs:116-123 | over every run, tasks included, the steps taken for an operation are bounded by its rank, and each brings the flag nearer |
| `OverlappedTheorems.SixStepsFreeADrop` | crates/httpsys/src/overlapped.rs:310-322 | over every run, others submitting as they like, six steps for its operation free a spinning drop, and no run holds more than eight |
| `OverlappedTheorems.SevenStepsWakeATask` | crates/httpsys/src/overlapped.rs:83-114 | likewise seven steps for its operation notify a task that is suspended on it |
| `OverlappedTheorems.SpinningIsOwedAStep` | crates/httpsys/src/overlapped.rs:310-322 | while a drop spins on an incomplete operation, some kernel or completion-thread step is enabled |
| `OverlappedTheorems.IoStepWorks` | crates/httpsys/src/iocp.rs:133-163 | every kernel or completion-thread step lowers the remaining work and moves no task |
| `OverlappedTheorems.CancellationTerminates` | crates/httpsys/src/overlapped.rs:116-123 | runs of kernel and thread steps alone are bounded, and when they can go no further no drop is still waiting |
| `OverlappedTheorems.WaitersAreNotified` | crates/httpsys/src/overlapped.rs:83-114 | runs of kernel and thread steps alone are bounded, and when they can go no further every pending task has been notified, unless the kernel still waits for its operation to happen |
| `OverlappedTheorems.RestedPhases` | crates/httpsys/src/overlapped.rs:3-15 | with nothing left for kernel and threads to do, every operation is reclaimed, uncancelled in the kernel, or not yet handed over |
| `OverlappedTheorems.SpinningIsReachable` | crates/httpsys/src/overlapped.rs:310-322 | a run in which a task is dropped while the kernel holds its buffer and has to spin |
| `OverlappedTheorems.NobodyLeft` | crates/httpsys/src/overlapped.rs:3-15 | with no task inside an operation every accepted operation is completed and every other one taken back by `finish`; once the threads are idle only pooled wraps exist |
| `OverlappedTheorems.SomeWayOut` | crates/httpsys/src/overlapped.rs:310-322 | from every state with a task left, some step of a task, the kernel or a thread leads nearer to the end of all tasks |
| `OverlappedInvariant.StepKeepsInv` | crates/httpsys/src/overlapped.rs:223-322 | every action of every party keeps the protocol invariant |
| `OverlappedInvariant.RunKeepsInv` | crates/httpsys/src/overlapped.rs:1-15 | the invariant holds after every interleaving |
| `OverlappedInvariant.DistinctWraps` | crates/httpsys/src/overlapped.rs:158-170 | two operations with references out never share a wrap |
| `OverlappedInvariant.TaskViewOk` | crates/httpsys/src/overlapped.rs:253-322 | each action of `finish`, poll and drop leaves the operation, wrap and task consistent, counts included |
| `OverlappedInvariant.DeliverViewOk` | crates/httpsys/src/overlapped.rs:182-198 | each step of `deliver_completion` leaves them consistent |
| `OverlappedObjects.OverlappedWrap.DeliverCompletion` | crates/httpsys/src/overlapped.rs:182-198 | the wrap ends as the protocol's five delivery steps run back to back leave it, the status being the one recorded in it |
| `OverlappedObjects.OverlappedWrap.Reset` | crates/httpsys/src/overlapped.rs:133-140 | a reset wrap is as new |
| `OverlappedObjects.OpPool.Take` | crates/httpsys/src/overlapped.rs:158-160 | the wrap handed out is fresh or the oldest pooled one, reset and no longer pooled |
| `OverlappedObjects.OpPool.GiveBack` | crates/httpsys/src/overlapped.rs:162-170 | pooled and reset exactly when the reference is the only one and there is room; otherwise one reference less |
| `Handshake.ReadersGetThePair` | crates/httpsys/src/overlapped.rs:83-114 | with release and acquire, in every run every thread that sees the flag reads exactly the pair stored |
| `Handshake.StaleRun` | crates/httpsys/tests/loom.rs:84-104 | with either ordering relaxed, a run in which a thread sees the flag with the old payload |
| `Handshake.OrderingsAreExact` | crates/httpsys/src/overlapped.rs:52-58 | no run is torn if and only if the flag is stored with release and loaded with acquire, or the pair stored is the initial one |
| `Handshake.NoWakeupIsLost` | crates/httpsys/src/overlapped.rs:103-114 | over weak memory, if the waker synchronizes, a future whose poll returned Pending has been notified or is registered with the wake still to come |
| `Handshake.LostRun` | crates/httpsys/src/overlapped.rs:107-112 | if it does not, a run in which the re-check misses the flag after the wake has passed by |
| `Handshake.WakerSyncIsExact` | crates/httpsys/src/overlapped.rs:103-114 | no future is ever stranded if and only if the waker synchronizes, whatever the orderings of the flag |
| `Handshake.PollConsumesWake` | crates/httpsys/src/overlapped.rs:103-114 | a new poll uses the notification up |
| `CompletionPort.HandleBatch` | crates/httpsys/src/iocp.rs:147-156 | the packets of a batch are delivered, as many as there are entries that are no sentinels, and the thread stops exactly if a sentinel was among them |
| `CompletionPort.PacketsAreExact` | crates/httpsys/src/iocp.rs:147-156 | what is delivered of a batch is every packet, each once and in order, and nothing else |
| `CompletionPort.BatchIsDelivered` | crates/httpsys/src/iocp.rs:147-161 | whatever the other threads do meanwhile, when a thread is done with a batch exactly that has been delivered out of it, in that order, and it stops exactly if a sentinel was among it |
| `CompletionPort.CompletionLoop` | crates/httpsys/src/iocp.rs:133-163 | the loop leaves after the first batch with a sentinel, having delivered every packet it dequeued, in order |
| `CompletionPort.SentinelConservation` | crates/httpsys/src/iocp.rs:110-123 | in every reachable state, sentinels posted are still queued, stopped a thread, or were surplus in a batch |
| `CompletionPort.WaitersAreSurplus` | crates/httpsys/src/iocp.rs:133-163 | once all sentinels are consumed, the threads still waiting equal the sum over stopping batches of sentinels minus one |
| `CompletionPort.JoinsReturnExactly` | crates/httpsys/src/iocp.rs:110-123 | then all joins return if and only if no batch held two sentinels |
| `CompletionPort.TwoSentinelsHang` | crates/httpsys/src/iocp.rs:147-162 | after a batch with two sentinels no continuation ever has all threads exited |
| `CompletionPort.ThreadRunIsBounded` | crates/httpsys/src/iocp.rs:133-163 | if nothing more is posted, every run of the threads is bounded by the packets and batches left |
| `CompletionPort.DropEndsExactly` | crates/httpsys/src/iocp.rs:110-123 | with all sentinels posted, when the threads can do nothing more, all joins have returned if and only if no batch ever held two sentinels |
| `CompletionPort.SomeDropHangs` | crates/httpsys/src/iocp.rs:110-123 | with any number of threads from two on, a run that comes to rest with a thread waiting for ever |
| `CompletionPort.DropIsSafeExactly` | crates/httpsys/src/iocp.rs:110-123 | every drop that comes to rest has joined all threads if and only if there is at most one |
| `CompletionPort.DeliveredOnce` | crates/httpsys/src/iocp.rs:147-156 | every packet dequeued has been delivered exactly once or is in exactly one thread's hands |
| `CompletionPort.NoPacketDroppedAtStop` | crates/httpsys/src/iocp.rs:157-161 | once all threads have exited, every packet posted ahead of the first sentinel was delivered |
| `CompletionPort.StepKeepsInv` | crates/httpsys/src/iocp.rs:133-163 | every step of posting, dequeuing, handling and leaving keeps the port invariant |
| `ReceiveBuffers.FitIsExact` | crates/httpsys/src/buffer.rs:148-158 | true exactly when no length is declared or it fits under the maximum with 8 KiB to spare; then the room is there; never shrinks; contents lost exactly when replaced |
| `ReceiveBuffers.FitByCases` | crates/httpsys/src/buffer.rs:50-68 | by the header: no length keeps the buffer and says yes, an unparseable one keeps it and says no, n bytes say yes exactly if n + 8192 is within the maximum, and the buffer is replaced exactly if it is also over the capacity |
| `ReceiveBuffers.CapacityWraps` | crates/httpsys/src/buffer.rs:37-41 | the cast to 32 bits: truthful below 4 GiB, zero at 4 GiB |
| `ReceiveBuffers.NewBufIsSized` | crates/httpsys/src/buffer.rs:29-41 | a new buffer is the least number of whole words that holds what was asked and the header block with a word to spare, stays under the ceiling and reports its size truthfully |
| `ReceiveBuffers.BuffersStaySized` | crates/httpsys/src/buffer.rs:113-182 | over any run of takes, receives, growths and returns on a new pool every buffer keeps those bounds and the free list stays bounded |
| `ReceiveBuffers.PooledBuffer.GrowTo` | crates/httpsys/src/buffer.rs:44-48 | grows to what was asked or stays, discarding the contents exactly if it grows |
| `ReceiveBuffers.PooledBuffer.FitBodyInline` | crates/httpsys/src/buffer.rs:148-158 | says yes exactly if a body of that length may arrive inline; replaced and zeroed exactly when the declared length asks for it |
| `ReceiveBuffers.BufferPool.Take` | crates/httpsys/src/buffer.rs:123-132 | the oldest pooled buffer or a new one, within bounds |
| `ReceiveBuffers.BufferPool.Return` | crates/httpsys/src/buffer.rs:174-182 | the buffer joins the free list exactly if there is room |
| `Receive.ReceiveInto` | crates/httpsys/src/queue.rs:136-181 | buffer, mode, result and the kernel calls made (id asked for, body copied or not), whatever the answers |
| `Receive.RequestSurvivesExactly` | crates/httpsys/src/queue.rs:160-180 | after a successful receive the buffer holds the delivered request if and only if the allocation was not replaced; otherwise the header block is zero |
| `Receive.LostExactlyWhen` | crates/httpsys/src/buffer.rs:148-158 | replaced exactly when capacity < declared + 8192 <= the maximum |
| `Receive.LostExample` | crates/httpsys/src/queue.rs:172-178 | a 16 KiB buffer and a declared 20000-byte body lose the request |
| `Receive.ReportedSize` | crates/httpsys/src/queue.rs:207-209 | the size a headers-too-large result reports is the one the kernel gave with the last call that failed at once |
| `Receive.AtMostOneMistake` | crates/httpsys/src/queue.rs:33-50 | from any slot state, requests of one declared length with at most 8 KiB of headers fail at most one copy attempt, however their bodies arrive |
| `Receive.OneMistakePerBlock` | crates/httpsys/src/queue.rs:33-50 | k blocks of such requests fail at most k copy attempts |
| `Workload.OneWastePerChange` | crates/httpsys/src/queue.rs:33-50 | over every run of the slot loop against the kernel's queue, other slots and failing calls included, with at most 8 KiB of headers and requests dropped in time: at most one failed copy attempt more than the declared length changes, and no more than it changes from a settled slot |
| `Workload.SteadyTrafficWastesOne` | crates/httpsys/src/queue.rs:33-50 | traffic of one declared length fails at most one copy attempt, however long the run |
| `Workload.ModeIsExact` | crates/httpsys/src/queue.rs:141-180 | the mode every turn leaves and the calls it makes: a copy attempt that succeeds is the only call and keeps the mode, a headers-only success turns it on exactly if such a body may arrive inline, only `ERROR_MORE_DATA` on a copy attempt turns it off, and a failed first call leaves it |
| `Workload.OneCallPerTurn` | crates/httpsys/src/queue.rs:33-40 | from copy mode, while headers and body fit the buffer, every turn of a run is one call that copies the body in |
| `Workload.NeverInlineWastesOne` | crates/httpsys/src/buffer.rs:50-68 | requests whose length cannot be parsed or is over the maximum fail at most one copy attempt in a run, whatever happens to their buffers |
| `Workload.SameBuffer` | crates/httpsys/src/server.rs:265-279 | a slot whose requests are dropped in time always receives into the buffer it had before |
| `Receive.SettlesExactly` | crates/httpsys/src/queue.rs:33-40 | identical requests settle after at most one mistake if and only if headers and body fit the buffer the slot settles on, or are never tried |
| `Receive.ThrashingNeverStops` | crates/httpsys/src/queue.rs:147-181 | otherwise every single request is a mistake |
| `Receive.ThrashingExample` | crates/httpsys/src/buffer.rs:148-158 | a 16 KiB buffer, 12 KiB of headers and 6000 declared bytes: every request is a mistake |
| `Receive.ChunkedNeverSettles` | crates/httpsys/src/buffer.rs:148-151 | without a declared length every large body is a mistake |
| `Receive.ChunkedExample` | crates/httpsys/src/buffer.rs:148-151 | 1 KiB of headers and a chunked 20000-byte body into 16 KiB: every request is a mistake |
| `Receive.KeptRequestsNeverSettle` | crates/httpsys/src/server.rs:265-279 | if handlers keep their requests, so that every take allocates, every request is a mistake |
| `RequestBody.TakeIsExact` | crates/httpsys/src/buffer.rs:204-212 | `take` yields at least the held capacity, the difference, and half of what was asked; all of it for sure if and only if the vector was empty or large enough |
| `RequestBody.TakeFallsShort` | crates/httpsys/src/buffer.rs:204-212 | a kilobyte asked of a pooled 600-byte vector yields 600 bytes |
| `RequestBody.IdleMemoryIsBounded` | crates/httpsys/src/buffer.rs:184-243 | over any run of takes, growths and drops at most max(1, slots) vectors are retained, none above the cap, and their sum is bounded by the product |
| `RequestBody.BodyPool.Take` | crates/httpsys/src/buffer.rs:205-212 | an empty vector of one of the capacities `reserve_exact` allows |
| `RequestBody.BodyPool.Drop` | crates/httpsys/src/buffer.rs:234-243 | retained exactly if not oversized and there is room |
| `RequestBody.EntityStream.Read` | crates/httpsys/src/queue.rs:220-248 | what is read is a prefix of what was left, within the length given; success, end and failure are told by the kernel's status, the end-of-file error being the end; empty only at the end of the body |
| `RequestBody.ReadOnce` | crates/httpsys/src/request.rs:241-255 | one turn of the loop: room for at least a chunk is made when there is none, the whole spare part is read into, and an empty read means the end of the body |
| `RequestBody.ReadRemaining` | crates/httpsys/src/request.rs:239-257 | for every split into reads the body grows by exactly what was left; it fails exactly if the last read did, with its code, all earlier ones having succeeded, and then no byte is lost; at most 2 + ceil(max(0, left - spare) / 262144) reads under FILL_BUFFER |
| `RequestBody.ReadBody` | crates/httpsys/src/request.rs:208-235 | for every inline part, every Content-Length and every split, the body is inline followed by the rest unless a read failed, whose code is then the result and whose vector goes back to the pool; borrowed exactly when nothing more was waiting; under FILL_BUFFER at most 2 + ceil(rest / 262144) reads, and two if the length was declared truly and the pool could meet it |
| `SlotLoop.SlotLoop` | crates/httpsys/src/server.rs:303-352 | for every behaviour of kernel and handlers, kept requests dropped at any later time included, the events are exactly the trace of the slot's state carried from round to round, they obey the round grammar, and the pool keeps its bounds |
| `SlotLoop.ReturnKept` | crates/httpsys/src/buffer.rs:174-182 | the buffers of kept requests return one by one as far as there is room |
| `SlotLoop.RestoredIsExact` | crates/httpsys/src/buffer.rs:174-182 | each kept request dropped is kept no longer and its buffer is in the pool as far as there is room, none lost before and none twice |
| `SlotLoop.TraceIsComplete` | crates/httpsys/src/server.rs:314-351 | in every trace each event is followed by one the round grammar allows, and it ends only where a run may end |
| `SlotLoop.ServeRound` | crates/httpsys/src/server.rs:315-350 | one round: the outcome is what `receive` makes of the kernel's answers on the buffer taken, the reply follows from it, and mode and free list are the ones left for the next round |
| `SlotLoop.ConcludedIsVerdict` | crates/httpsys/src/server.rs:317-331 | what the loop finds in the buffer differs from what the kernel delivered exactly when resizing threw the request away |
| `SlotLoop.Conclude` | crates/httpsys/src/server.rs:317-350 | the branch on the result: 431, stop, skip, or route; and what goes back to the pool |
| `SlotLoop.OneSendPerRequest` | crates/httpsys/src/server.rs:331-350 | between two receives a delivered request gets exactly one send: its own id and its own route's handler, or 404 to id 0 if it was lost |
| `SlotLoop.OneReplyToOversized` | crates/httpsys/src/server.rs:319-361 | headers too large get exactly one 431, to the id left in the buffer, none if that is zero |
| `SlotLoop.NoReplyToFailure` | crates/httpsys/src/server.rs:324-329 | a failed receive sends nothing, and code 995, 6 or 18 ends the trace |
| `SlotLoop.AtMostOneReceiveAfterStop` | crates/httpsys/src/server.rs:311-315 | once the stop flag reads true, at most one further receive begins |
| `KernelQueue.EveryRequestLeavesOnce` | crates/httpsys/src/queue.rs:136-181 | over every run of a slot, whatever else happens to the queue, the requests that left it are, in order and each once, those that arrived; the rest is still queued |
| `KernelQueue.FallbackAsksForTheHead` | crates/httpsys/src/queue.rs:141-167 | the calls made: the next request, and after a failed copy attempt that very request, headers only |
| `KernelQueue.VerdictIsFate` | crates/httpsys/src/queue.rs:147-181 | what the slot finds is what the sizes of the request at the head decide: delivered whole, lost by resizing, too big, or abandoned by a failed repetition |
| `KernelQueue.SlotDoesWhatIsDue` | crates/httpsys/src/server.rs:314-361 | over every run, deliveries, handler calls and sends are in order exactly what those requests are due: own id and own route's handler or 404, 431 under the own id, 404 to id 0 if lost, nothing if abandoned or another slot's |
| `KernelQueue.EachRequestOnItsOwn` | crates/httpsys/src/server.rs:331-350 | for one slot, with distinct ids: each request that ever arrived is delivered by it at most once and answered at most once, and exactly once if its fate says so |
| `ManySlots.EachRequestOnceInAll` | crates/httpsys/src/server.rs:265-279 | any number of slots, every interleaving, also between the two calls of one receive: all slots together deliver and answer each request at most once, and exactly once when it has been served if its fate says so; each slot's events are the trace of its loop |
| `ManySlots.RunKeepsInv` | crates/httpsys/src/queue.rs:136-181 | in every such run each slot has done, or still owes, exactly what the requests it took are due, and a request set aside for one slot is touched by no other |
| `KernelQueue.OnlyAbandonedStaySetAside` | crates/httpsys/src/queue.rs:141-167 | a request stays set aside exactly if the call that should have repeated its copy attempt failed |
| `KernelQueue.TurnEndsExactly` | crates/httpsys/src/server.rs:324-329 | a turn ends the loop exactly if it finds no request before the shutdown, or one of its calls fails with 995, 6 or 18; after any other outcome the loop goes on |
| `KernelQueue.RunEndsExactly` | crates/httpsys/src/server.rs:311-329 | the rounds of a run are its turns up to the first stop flag or the first such turn |
| `ManySlots.BeginEndsExactly` | crates/httpsys/src/server.rs:311-329 | among many slots, a slot is over after its first call exactly if the flag was set, no request came, or the call failed with one of those codes |
| `ManySlots.FinishEndsExactly` | crates/httpsys/src/server.rs:364-373 | and after its second call exactly if that failed with one of those codes |
| `Server.RoutesAreExact` | crates/httpsys/src/server.rs:147-159 | the i-th registration owns id i + 1; accepted handlers are reachable under it for ever, refused ones never, and id 0 is nobody's |
| `Server.ServerBuilder.Route` | crates/httpsys/src/server.rs:147-159 | spends the id first; earlier routes stay |
| `Server.ShutdownDeliveryExactly` | crates/httpsys/src/server.rs:281-283 | over every interleaving `serve` has left its wait, or is about to, if and only if a shutdown was sent after it subscribed |
| `Server.JoinReturnsExactly` | crates/httpsys/src/server.rs:176-215 | every run that can go no further by itself has returned from `join` if and only if a shutdown was sent after `serve` subscribed and, should the last queue reference have gone on the server thread or in a task of its runtime, no batch held two sentinels |
| `Server.ProgressIsBounded` | crates/httpsys/src/server.rs:176-187 | whatever server thread, runtime, completion threads and join do by themselves is bounded, so every run gets to that point |
| `Server.OursIsHistory` | crates/httpsys/src/server.rs:179-187 | the port's drop belongs to the server thread or its runtime exactly if the last queue reference went there |
| `Server.SomeJoinHangs` | crates/httpsys/src/iocp.rs:110-123 | with two completion threads or more, runs whose shutdown was heard and whose join never returns: with the port's drop on the server thread, and in a task the runtime drops |
| `Server.OutsidersDoNotDelayJoin` | crates/httpsys/src/server.rs:211-215 | with any number of threads, a heard shutdown lets `join` return if the last reference does not go there |
| `Server.JoinIsSafeExactly` | crates/httpsys/src/server.rs:211-215 | every heard shutdown lets `join` return if and only if there is at most one completion thread |
| `Server.EarlyDropHangs` | crates/httpsys/src/server.rs:218-223 | a join that begins before `serve` subscribed never returns, whatever was sent until then and whatever follows |
| `Teardown.QueueCountIsExact` | crates/httpsys/src/server.rs:166-174 | in every reachable state the queue's strong count is the number of its holders (`serve`, the field, running tasks, live requests, in a handler or kept beyond it), and the queue has closed once if there are none, else not |
| `Teardown.ClosedQueueIsQuiet` | crates/httpsys/src/queue.rs:291-307 | when the queue has closed no task is left, every accepted operation is completed and every other one taken back; once the threads are idle only pooled wraps exist |
| `Teardown.ClosedForGood` | crates/httpsys/src/queue.rs:297-298 | a closed queue stays closed, and nothing is submitted to it or written by the kernel again |
| `Teardown.TeardownOrderExactly` | crates/httpsys/src/server.rs:225-232 | over every complete run, however drops interleave, queue, URL group, session, initializer close in that order if and only if the last queue reference goes before the group field; otherwise the queue alone is out of place |
| `Teardown.NothingKeptClosesInOrder` | crates/httpsys/src/server.rs:185-186 | with no request held outside the slots when `serve` has returned, every continuation closes in the intended order |
| `Teardown.KeptClosesAnywhere` | crates/httpsys/src/request.rs:67-71 | with requests kept, for each of the four places a continuation in which the queue closes there |
| `Teardown.OrderIsSafeExactly` | crates/httpsys/src/server.rs:185-186 | every continuation in which everything gets closed closes it in the intended order if and only if nobody outside the slots holds a request |
| `Teardown.WindDown` | crates/httpsys/src/overlapped.rs:310-322 | whatever tasks are left, some continuation brings all of them to an end |
| `Teardown.KeptIsReachable` | crates/httpsys/src/server.rs:331-343 | a run in which a handler keeps a request past the end of `serve` |
| `Teardown.MoveKeepsInv` | crates/httpsys/src/server.rs:252-301 | every spawn, end, keep, drop and protocol step keeps the count, the closing order and the protocol invariant |

## Left out

- Overlapped: FIFO order of packets inside the protocol machine; a thread there may dequeue any queued packets, which covers every FIFO order (`CompletionPort` has the order). `poll_complete` and the drop of a future appear as actions of that machine, not as object methods, because other parties act between their loads.
- Handshake: reuse of a wrap across generations, the ordering of the stop flag, and the inside of `AtomicWaker`, which is one location changed by read-modify-writes; the wake-up results there are about one future, as a wrap has.
- OverlappedTheorems.NoLostWakeup: each atomic access is one step there; `Handshake.NoWakeupIsLost` is the result over weak memory.
- OverlappedTheorems.CancellationTerminates: runs of the kernel and the completion threads alone; `OverlappedTheorems.SixStepsFreeADrop` has the runs in which tasks go on.
- OverlappedTheorems.WaitersAreNotified: likewise, with `OverlappedTheorems.SevenStepsWakeATask`.
- CompletionPort: failed posts of sentinels and failed dequeues; the port is closed only after the joins.
- Receive: reading the pointers of `HTTP_REQUEST_V2`; a received request is a record of the fields the core uses, and the decimal parsing of Content-Length is one of absent, a number, or garbage.
- RequestBody: `read_body_chunk`, which is one call of the read modelled, and allocation failure.
- SlotLoop: panics and the abort after the shutdown timeout; a run may end after any round.
- KernelQueue: failed sends, which the loop only reports. With one slot the others appear as heads of the queue taken elsewhere; `ManySlots` runs them all.
- KernelQueue.EachRequestOnItsOwn: counts what one slot does; `ManySlots.EachRequestOnceInAll` counts what all do.
- Server: the 64-bit overflow of route ids, and the length of the shutdown timeout; drain and abort are one step. The port's drop on one of its own completion threads, should a foreign waker run the last drop there.
- Teardown: the time the closing thread spends in the port's drop, which may never end (`Server`); the results on order are about runs in which it does.
- `init.rs`, `response.rs`, `error.rs`: wrappers over foreign calls, C structures and message formatting.
- The accessors of `request.rs` (method, URL, headers) and the defaults of `ServerConfig`: table lookups that would only add easy members.
- `tools/httpbench`: the load generator, statistics and charts.
