# Verified models of Glommio's state machines

Glommio is a thread-per-core runtime built on io_uring. Underneath the system calls it holds a
number of self-contained state machines. This project models them in Dafny and proves what they
are there for. `dafny verify dfyconfig.toml` checks everything.

**How the models are built.** Code that several threads or tasks run at once is a transition
system whose steps are the single atomic accesses, polls, completions or calls; the theorems hold
for every sequence of steps (`Run`, `After`, `IsRun`). An object whose methods change it in place
is also a class, and each of its methods is proved equal to the corresponding step
(`ensures Snapshot() == ...`), so the theorems about the steps are theorems about the class. What
the code cannot choose is a parameter: the order in which reads and writes complete, when a timer
preempts, which bytes a fresh buffer holds, what a polled task does, what a stream of requests
returns when polled.

**The areas.**

- *The single-producer single-consumer ring and the shared channel on it* (`SpscRing`, `SpscAnswers`,
  `SpscBuffer`). Every atomic load and store is a step of its own, counters wrap at 2^64, and the two sides
  interleave in every way.
- *The scheduler* (`Shares`, `Scheduler`, `Runnables`, `Starvation`, `StarvedRuns`, `Fairness`,
  `ExecutorQueues`). The heap of task queues is any heap-ordered arrangement that the event supplies;
  the class keeps a sorted one.
- *The stream writer* (`FlushState`, `StreamWriter`, `StreamDurability`, `StreamOrder`, `StreamCalls`,
  `StreamWriterState`), together with the file it writes to.
- *The stream reader* (`StreamReader`, `StreamReaderState`), over a file that does not change.
- *Bulk reads* (`CoalescedReads`, `CoalescedStream`, `BulkRead`, `BulkStream`).
- *The local channel* (`LocalChannel`), *the channel mesh* (`MeshWiring`, `MeshJoining`, `MeshConnect`),
  *the latch* (`Latch`, `LatchProgress`) and *the index free list* (`FreeList`).

**Properties that do not hold without a condition.** Where the code does not keep a promise on all
inputs, the exact condition is proved, with a failing case that is reached from the start.

- A write of a padded partial buffer that lands after a newer write to the same block overwrites it.
  What `flushed_pos` promises holds after every order of completions exactly when no write in flight
  is stale (`StreamOrder.AnyOrderSafeIff`). The file that a close leaves is exact, whenever the close
  comes, exactly when neither a write in flight nor one beside the padded write of the close itself is
  stale (`ClosedFileExactIff`, `CloseClashIff`). A caller who goes on writing without waiting for a
  partial flush can lose bytes (`ImpatientCallerCanLose`, `ImpatientCloseCanLose`, `LosesAByte`); a
  caller who waits cannot (`PatientCallersAreSafe`).
- The assertions at the end of `flush_inner` and of the closing task hold exactly when no other
  caller already holds the handle of a write in flight (`StreamCalls.FlushAssertIff`, `CloseAssertIff`).
  Two partial flushes of a single byte are enough to fail (`SecondFlushCanPanic`).
- The writer keeps one waker. Whoever waits is the caller it belongs to, with a write in flight that
  wakes them, exactly as long as nobody polls while another caller waits, and nobody writes an empty
  slice while nothing is in flight (`StreamCalls.StuckIff`, `WaitersAreWoken`). The second of two
  callers displaces the first (`SecondCallerDisplaces`), who then waits for ever unless they poll of
  their own accord (`DisplacedForEver`); an empty write to a new stream waits for a wakeup nobody
  will send (`EmptyWriteSticks`).
- `size` and `free_space` of the ring are exact at rest exactly when the counters do not straddle the
  word boundary; when they do, a `send` on a full ring panics instead of waiting
  (`SpscRing.SizeExactAtRest`, `SendOnFullRing`; reached by 2^64 items in `SpscBuffer.SendCanPanic`).
- A queue that wakes up enters above the floor, and the floor stays a lower bound, exactly when the
  floor is not the largest word (`Scheduler.WakesAboveFloor`, `FloorKept`). The floor can get there
  (`StarvedRuns.FloorReachesTop`).
- No queue starves if every slice is charged some virtual time and no queue wakes at the largest floor
  (`Starvation.NoStarvation`). Without either condition there is an endless run in which a queue waits
  for ever (`StarvedRuns.FreeSlicesStarve`, `TopWakesStarve`).
- When as many executors call as a mesh has places, anyone gets in exactly if they are different
  executors (`MeshJoining.JoinableIff`); then everyone does (`EveryoneJoins`).
- A latch keeps its verdict as long as nobody counts zero down from zero, and a cancellation is
  overturned by exactly that step (`Latch.OverturnedIff`, `ZeroCountDownOverturns`,
  `CancelledThenReady`).

- After the receiver of a local channel has been dropped, a `send` is answered exactly if the channel
  was not full then (`LocalChannel.SendAnsweredIff`); otherwise it waits for ever (`AbandonedSend`).

Two places where the code and its comments differ, and the model follows the code: the comment on
`CoalescedReads::poll_next` says that a pending stream flushes whatever is in the merger, but the
newest group is still held back for deduplication until the next poll that yields one; and the fill
loop of `OrderedBulkIo` asks a pending stream again and again instead of returning.

## Model

| member | source | states |
|---|---|---|
| `SpscRing.ApplyKeepsInv` | glommio/src/channels/spsc_queue.rs:182-271 | every atomic step of either side keeps the ring invariant: full slots are one window between the two counters, every position below `limit` is free, published counters lag by at most one |
| `SpscRing.RunKeepsInv` | glommio/src/channels/spsc_queue.rs:182-271 | the invariant holds after every interleaving |
| `SpscRing.FarProbe` | glommio/src/channels/spsc_queue.rs:202-235 | one empty slot a lookahead away proves the whole run up to it empty |
| `SpscRing.CellsSafeAlways` | glommio/src/channels/spsc_queue.rs:182-235 | no slot is written while it is full or read while it is empty |
| `SpscRing.InvIsSafe` | glommio/src/channels/spsc_queue.rs:182-235 | popped items are a prefix of pushed ones, never more than the capacity is queued, and the cells are accessed safely |
| `SpscRing.RingSafety` | glommio/src/channels/spsc_queue.rs:182-235 | from any starting counter value, every interleaving is safe, across wrap-around |
| `SpscRing.NextPow2` | glommio/src/channels/spsc_queue.rs:285-298 | the capacity is a power of two, not below what was asked for and less than twice it, and divides the word |
| `SpscRing.ProducerRefinesQueue` | glommio/src/channels/spsc_queue.rs:202-235 | each producer step appends its value while there is room or leaves the queue alone; a push is refused only when the queue is full or the consumer gone |
| `SpscRing.ConsumerRefinesQueue` | glommio/src/channels/spsc_queue.rs:182-194 | each consumer step removes the front item or leaves the queue alone; a pop fails only on an empty queue |
| `SpscRing.SendNeverPanics` | glommio/src/channels/shared_channel.rs:229-316 | while the counters have not wrapped, `send` never reaches its "would block" panic, in any interleaving |
| `SpscRing.SizeSeenMeansItem` | glommio/src/channels/spsc_queue.rs:263-271 | a non-zero size seen by the consumer means the next pop finds an item |
| `SpscRing.EndedMeansDrained` | glommio/src/channels/shared_channel.rs:408-434 | once `recv` has answered None the producer has closed, everything pushed has been received, and nothing more arrives; that it does answer so is `SpscAnswers.RecvAlone` and `RecvAfterClose` |
| `SpscRing.OnlyBarePushesAreLate` | glommio/src/channels/shared_channel.rs:229-316 | `try_send` and `send` never push after the producer has closed |
| `SpscRing.SizeExactAtRest` | glommio/src/channels/spsc_queue.rs:263-271 | at rest `size` equals the queue length if and only if head does not exceed tail numerically |
| `SpscRing.SendOnFullRing` | glommio/src/channels/shared_channel.rs:292-316 | on a full ring `send` waits if head does not exceed tail, and panics if and only if it does |
| `SpscAnswers.SendAnswers` | glommio/src/channels/shared_channel.rs:229-316 | in every interleaving, a `try_push`, `try_send` or `send` is over after 15 steps of its own; success means its value alone was pushed and both sides were there at the start, any other answer that nothing was pushed; Closed means that a side is gone by then, WouldBlock, Waiting and the panic that the ring was seen full during the call |
| `SpscAnswers.TrySendAlone` | glommio/src/channels/shared_channel.rs:229-267 | an uninterrupted `try_send` answers Closed if either side is gone, otherwise WouldBlock if the queue is full, otherwise appends |
| `SpscAnswers.TrySendAfterClose` | glommio/src/channels/shared_channel.rs:229-267 | after either side has closed, `try_send` answers Closed and pushes nothing |
| `SpscAnswers.SendAlone` | glommio/src/channels/shared_channel.rs:292-316 | an uninterrupted `send` answers Closed if either side is gone, appends if there is room, and otherwise waits or panics as `SpscRing.SendOnFullRing` says |
| `SpscAnswers.ReceiveAnswers` | glommio/src/channels/shared_channel.rs:408-434 | in every interleaving, a `try_pop` or `recv` is over after 8 steps of its own; an item means it alone was taken, any other answer that nothing was and that the queue was empty at some moment of the call; Pending only if the producer had not closed at the start, None only if it has closed by then |
| `SpscAnswers.RecvAfterClose` | glommio/src/channels/shared_channel.rs:408-434 | in every interleaving, a `recv` that starts after the producer closed answers an item or None, never Pending |
| `SpscAnswers.RecvAlone` | glommio/src/channels/shared_channel.rs:408-434 | an uninterrupted `recv` answers the front item, or None if there is none and the producer has closed, and Pending otherwise |
| `SpscAnswers.SizeAlone` | glommio/src/channels/spsc_queue.rs:263-271 | an uninterrupted `size` is the length of the queue if and only if head does not exceed tail |
| `SpscBuffer.PopAloneTakesFront` | glommio/src/channels/spsc_queue.rs:182-194 | an uninterrupted pop takes the front item, and finds none only when there is none |
| `SpscBuffer.PopResult` | glommio/src/channels/spsc_queue.rs:182-194 | the effect of the same pop on memory and queue |
| `SpscBuffer.SeesFullExactly` | glommio/src/channels/spsc_queue.rs:202-235 | at rest the two probes report a full ring exactly when it is full |
| `SpscBuffer.PushOutcome` | glommio/src/channels/spsc_queue.rs:202-235 | an uninterrupted push ends rejected exactly when the consumer is gone or the probes see a full ring, and otherwise stores the value and publishes it |
| `SpscBuffer.PushResult` | glommio/src/channels/spsc_queue.rs:202-235 | a push appends exactly when there is room and the consumer is there |
| `SpscBuffer.OneItemStraddles` | glommio/src/channels/spsc_queue.rs:182-287 | a new ring of one slot, with counters that start at zero, is full with tail below head after 2^64 - 1 items have gone through and one more was pushed |
| `SpscBuffer.SendCanPanic` | glommio/src/channels/shared_channel.rs:292-316 | from there, a run to the "would block" panic of `send` |
| `SpscBuffer.Buffer.constructor` | glommio/src/channels/spsc_queue.rs:291-316 | a new buffer is empty, connected, and at least as large as asked for |
| `SpscBuffer.Buffer.TryPop` | glommio/src/channels/spsc_queue.rs:182-194 | returns and removes the oldest item, None exactly when empty |
| `SpscBuffer.Buffer.TryPush` | glommio/src/channels/spsc_queue.rs:202-235 | appends exactly when there is room and the consumer is there; otherwise hands the value back and changes nothing |
| `SpscBuffer.Buffer.FindRoom` | glommio/src/channels/spsc_queue.rs:207-224 | the lookahead cache answers as the probes of the step model do and moves `limit` as they do |
| `SpscBuffer.Buffer.Store` | glommio/src/channels/spsc_queue.rs:226-235 | value, flag and tail are written as in the step model |
| `SpscBuffer.Buffer.Drop` | glommio/src/channels/spsc_queue.rs:275-281 | drops exactly the items still queued, in order |
| `Shares.SharesRoundTrip` | glommio/src/shares.rs:92-102 | `current_shares` gives back the shares asked for, or the nearer of 1 and 1000 if they lie outside |
| `Shares.MoreSharesSlowerClock` | glommio/src/shares.rs:92-102 | more shares never make virtual time run faster |
| `Shares.ScaledBounds` | glommio/src/executor/mod.rs:251-252 | below 2^42 ns the product does not wrap, and a slice costs between 1 and 1024 times its length, with less than one unit of rounding |
| `Shares.LongestSliceWraps` | glommio/src/executor/mod.rs:251-252 | the bound is sharp: at 2^42 ns with one share the product wraps to zero |
| `Scheduler.RootIsLeast` | glommio/src/executor/mod.rs:174-179 | with the reversed ordering the root of the heap has the least virtual runtime |
| `Scheduler.ApplyKeepsInv` | glommio/src/executor/mod.rs:1396-1485 | every event keeps: a queue is active exactly when it is in the heap once or being run; every queue with runnables is active; the heap is ordered |
| `Scheduler.RunKeepsInv` | glommio/src/executor/mod.rs:1396-1485 | the same after every run |
| `Scheduler.IdleMeansNothingRunnable` | glommio/src/executor/mod.rs:1375-1389 | on every run, between slices, the heap is empty if and only if no queue holds a runnable: parking is safe |
| `Runnables.RunConserves` | glommio/src/executor/mod.rs:1396-1485 | over every run, what a queue held and what was scheduled on it are, in order, what was polled and what it still holds: no runnable is lost, doubled or overtaken, other queues and removals included |
| `Runnables.EveryRunnableIsPolled` | glommio/src/executor/mod.rs:1375-1389 | in every run of an executor that ends with nothing in the heap, every runnable ever scheduled has been polled, in the order of its queue |
| `Runnables.YieldEndsPolling` | glommio/src/executor/mod.rs:1433-1447 | after a yield nothing is polled until the next queue is selected |
| `Runnables.SelectedCanBePolled` | glommio/src/executor/mod.rs:241-249 | a queue that has just been selected has a runnable to poll, even if it yielded before |
| `Runnables.SharesAreKept` | glommio/src/executor/mod.rs:241-249 | the shares of a queue are those it was created with, clamped, and change only when a dynamic queue takes a new sample as it is selected |
| `Scheduler.RemoveDiscardsNothing` | glommio/src/executor/mod.rs:1303-1324 | removal never discards a runnable nor leaves a dangling heap entry, touches no other queue, and is refused exactly while the queue is active or running |
| `Scheduler.KeysNeverMove` | glommio/src/executor/mod.rs:1461-1482 | while a queue is in the heap its key changes only by the reset that makes every key zero |
| `Scheduler.WakesAboveFloor` | glommio/src/executor/mod.rs:428-437 | a woken queue enters strictly above the floor, and the floor stays a lower bound, if and only if the floor is not the largest word |
| `Scheduler.ShortSliceIsCharged` | glommio/src/executor/mod.rs:251-252 | a slice of at least a nanosecond and less than 2^42 costs some virtual time, whatever the shares |
| `Scheduler.FloorKept` | glommio/src/executor/mod.rs:1461-1482 | `default_vruntime` stays a lower bound of every active virtual runtime if and only if no queue wakes at the largest word, and falls only at a reset |
| `Starvation.StepLowersMeasure` | glommio/src/executor/mod.rs:1396-1485 | every slice that does not select a waiting queue lowers its lexicographic measure, and other events leave it alone, as long as slices are charged and no queue wakes at the largest floor |
| `Starvation.SelectedAfter` | glommio/src/executor/mod.rs:1396-1485 | follows an endless run to the moment at which a waiting queue is selected |
| `Starvation.NoStarvation` | glommio/src/executor/mod.rs:1396-1485 | in every endless run in which slices are charged and no queue wakes at the largest floor, every waiting queue is selected, whatever is created, woken, removed or reset meanwhile |
| `StarvedRuns.FreeSlicesStarve` | glommio/src/executor/mod.rs:1396-1485 | an endless run from a new executor in which slices cost nothing and a waiting queue is never selected |
| `StarvedRuns.FloorReachesTop` | glommio/src/executor/mod.rs:428-437 | a run of ordinary slices from a new executor that takes the floor to the largest word, where the next wake enters below the floor |
| `StarvedRuns.TopWakesStarve` | glommio/src/executor/mod.rs:428-437 | from there, an endless run in which every slice is charged and a waiting queue is never selected |
| `Fairness.BehindRunsAlways` | glommio/src/executor/mod.rs:1396-1419 | on every run of an executor in which no queue wakes at the largest floor, a running queue is behind every other active one |
| `Fairness.GapBounded` | glommio/src/executor/mod.rs:1396-1485 | from any state, for two queues active throughout, the gap in virtual runtime never exceeds the starting gap plus one slice, and never the larger of the two if the one running at the start is behind |
| `Fairness.GapBoundedAlways` | glommio/src/executor/mod.rs:1396-1485 | for every interval of such a run of an executor, the gap never exceeds the larger of the starting gap and one slice |
| `Fairness.RunAccounts` | glommio/src/executor/mod.rs:251-262 | over a run, weighted real time equals virtual time up to one rounding unit for each slice |
| `Fairness.ProportionalShare` | glommio/src/executor/mod.rs:251-262 | from any state, weighted running times of two queues with static shares differ by no more than the two gaps plus rounding |
| `Fairness.ProportionalShareAlways` | glommio/src/executor/mod.rs:251-262 | the same, with the sharper bound on the second gap, for every interval of a run of an executor |
| `ExecutorQueues.Queues.constructor` | glommio/src/executor/mod.rs:401-414 | a new executor has the default queue and nothing to run |
| `ExecutorQueues.Queues.Schedule` | glommio/src/executor/context.rs:119-124 | the runnable is appended, the queue is active afterwards, as one step of the model |
| `ExecutorQueues.Queues.MaybeActivate` | glommio/src/executor/mod.rs:428-437 | an idle queue enters the heap once, just above the floor; an active one is left alone |
| `ExecutorQueues.Queues.CreateTaskQueue` | glommio/src/executor/context.rs:130-161 | a fresh index, one more queue with nothing to run, and `current_shares` of it are the clamped shares |
| `ExecutorQueues.Queues.ScheduleOrCleanUp` | glommio/src/executor/context.rs:46-60 | a runnable of a removed queue is taken by a queue that exists, and waits there |
| `ExecutorQueues.Queues.RemoveTaskQueue` | glommio/src/executor/mod.rs:1303-1324 | which of the three answers is given, and that only a removal changes anything |
| `ExecutorQueues.Queues.MarkForYield` | glommio/src/executor/context.rs:182-186 | the running queue is marked, as one step of the model |
| `ExecutorQueues.Queues.GetTask` | glommio/src/executor/mod.rs:233-235 | the oldest runnable of the running queue is taken, the others stay in order, and no other queue changes |
| `ExecutorQueues.Queues.Select` | glommio/src/executor/mod.rs:1396-1419 | the queue selected has the least virtual runtime of all active ones |
| `ExecutorQueues.Queues.RunTasks` | glommio/src/executor/mod.rs:1433-1447 | polling stops at preemption, and before that only on a yield or an empty queue |
| `ExecutorQueues.Queues.AccountVruntime` | glommio/src/executor/mod.rs:251-262 | the slice is charged to the queue, and on overflow every virtual runtime becomes zero |
| `ExecutorQueues.Queues.Account` | glommio/src/executor/mod.rs:1451-1482 | accounting, return to the heap and new floor are one step of the model |
| `ExecutorQueues.Queues.RunOneTaskQueue` | glommio/src/executor/mod.rs:1396-1485 | runs exactly when the heap is not empty; the slice begins with the root and ends with its accounting |
| `ExecutorQueues.Queues.RunTaskQueues` | glommio/src/executor/mod.rs:1375-1389 | Idle is reported if and only if no queue anywhere holds a runnable, and then everything that was runnable or scheduled meanwhile has been polled, queue by queue in order; otherwise every slice allowed was used |
| `FlushState.FlushedPosExact` | glommio/src/io/dma_file_stream.rs:757-790 | `flushed_pos` is the largest started position all of whose predecessors completed (or zero), and the pending count is zero exactly when all completed |
| `FlushState.LastPosExact` | glommio/src/io/dma_file_stream.rs:733-737 | the last started position, reached exactly when nothing is pending |
| `FlushState.ReachedIff` | glommio/src/io/dma_file_stream.rs:757-790 | `flushed_pos` has reached the n-th position exactly when all up to it completed |
| `FlushState.StartAgrees` | glommio/src/io/dma_file_stream.rs:751-756 | a flush started beyond the last keeps the bookkeeping in agreement with the history |
| `FlushState.CompleteAgrees` | glommio/src/io/dma_file_stream.rs:766-789 | so does a completion, in whatever order |
| `FlushState.TakeAgrees` | glommio/src/io/dma_file_stream.rs:739-749 | the handles handed out are exactly those in flight not handed out before |
| `FlushState.WriterFlushState.constructor` | glommio/src/io/dma_file_stream.rs:725-731 | nothing is tracked at first |
| `FlushState.WriterFlushState.LastFlushPos` | glommio/src/io/dma_file_stream.rs:733-737 | the position of the newest flush |
| `FlushState.WriterFlushState.OnStart` | glommio/src/io/dma_file_stream.rs:751-756 | one more pending flush at the back |
| `FlushState.WriterFlushState.OnComplete` | glommio/src/io/dma_file_stream.rs:766-789 | the single pass with its early exit marks the flush, drops the completed prefix and moves `flushed_pos` to its end |
| `FlushState.WriterFlushState.MarkAndCount` | glommio/src/io/dma_file_stream.rs:767-784 | the loop by itself: marked entries, length of the completed prefix, new position |
| `FlushState.WriterFlushState.TakePendingHandles` | glommio/src/io/dma_file_stream.rs:739-749 | hands out each pending handle once |
| `StreamWriter.LastNotBeyond` | glommio/src/io/dma_file_stream.rs:925-951 | synced, flushed, last started and current position never pass one another, so the position assertions never fail |
| `StreamWriter.FillTakes` | glommio/src/io/dma_file_stream.rs:1355-1388 | a write takes the front of what it is given, as much as there is room for: the rest of the buffer in hand, and one block for each flush that may still be started |
| `StreamWriter.WriteExact` | glommio/src/io/dma_file_stream.rs:1338-1396 | `poll_write` accepts exactly that prefix and tells the caller to wait if and only if it is empty; for a write of some bytes that is when another waker is kept, or there is no buffer and `write_behind` flushes are pending |
| `StreamWriter.ApplyKeepsInv` | glommio/src/io/dma_file_stream.rs:842-974 | every call, completion, sync and close step keeps: each write carries exactly the accepted bytes of its range, writes leave no gap and fill whole blocks, the buffer holds the accepted tail |
| `StreamWriter.RunKeepsInv` | glommio/src/io/dma_file_stream.rs:842-974 | the same on every run |
| `StreamDurability.GoodIsDurable` | glommio/src/io/dma_file_stream.rs:1076-1115 | if every landed write reads back, the file agrees with the accepted bytes up to `flushed_pos` |
| `StreamDurability.AtRestSame` | glommio/src/io/dma_file_stream.rs:1076-1115 | with nothing in flight the two promises are the same |
| `StreamDurability.LandExact` | glommio/src/io/dma_file_stream.rs:955-974 | a completion keeps every landed write readable if and only if it does not overwrite newer bytes of its block |
| `StreamDurability.CloseIsExact` | glommio/src/io/dma_file_stream.rs:864-898 | the closing task cuts the padding off and nothing else; everything is synced, and reported so, if asked for, and otherwise nothing is |
| `StreamDurability.ReadersSeeTheStream` | glommio/src/io/dma_file_stream.rs:842-974 | on every run without a harmful completion, `flushed_pos` can be trusted at any time and a closed file is exactly the accepted bytes |
| `StreamOrder.AnyOrderSafeIff` | glommio/src/io/dma_file_stream.rs:925-974 | what `flushed_pos` promises holds after every order of completions, finished or not, if and only if no write in flight clashes with a newer one; if one does, some order in which everything completes breaks the promise |
| `StreamOrder.ClosedFileExactIff` | glommio/src/io/dma_file_stream.rs:842-898 | whatever lands before the close and in whatever order the rest lands after it, the closed file is exactly the accepted bytes if and only if no write in flight clashes with a newer one, the padded write of the close included |
| `StreamOrder.CloseClashIff` | glommio/src/io/dma_file_stream.rs:842-951 | that condition as it can be seen before the close: no clash so far, and if the close has a padded write to start, the writes in flight to its block already carry its bytes |
| `StreamOrder.CloseCanFinish` | glommio/src/io/dma_file_stream.rs:842-898 | once everything awaited has landed, in whatever order, the closing task finishes without its assertion failing, the file ends closed and the caller no longer waits |
| `StreamOrder.PatientIsCalm` | glommio/src/io/dma_file_stream.rs:925-974 | callers who wait for a padded write before they go on never cause a harmful completion |
| `StreamOrder.PatientCallersAreSafe` | glommio/src/io/dma_file_stream.rs:925-974 | for them the file is right whatever order writes complete in |
| `StreamOrder.ImpatientCallerCanLose` | glommio/src/io/dma_file_stream.rs:1117-1137 | from every state, a partial flush followed at once by non-zero bytes that fill the block has an order of completions after which `flushed_pos` promises bytes that are not in the file, and one after which a close leaves a wrong file |
| `StreamOrder.ImpatientCloseCanLose` | glommio/src/io/dma_file_stream.rs:842-951 | the same for a byte that does not fill the block, when the close itself starts the last padded write |
| `StreamOrder.LosesAByte` | glommio/src/io/dma_file_stream.rs:1117-1137 | `ImpatientCallerCanLose` from a new writer with blocks of two bytes |
| `StreamCalls.FlushAssertIff` | glommio/src/io/dma_file_stream.rs:1117-1137 | the final assertion of `flush_inner` holds on every continuation if and only if at the call no other caller waits for a write in flight up to the target; the target is the current position for a partial flush and the last full block otherwise |
| `StreamCalls.CloseAssertIff` | glommio/src/io/dma_file_stream.rs:842-873 | the same for the assertion of the closing task |
| `StreamCalls.SecondFlushCanPanic` | glommio/src/io/dma_file_stream.rs:1117-1137 | from a new writer: one byte and two partial flushes, and the assertions of the second and of a close can fail |
| `StreamCalls.SyncExact` | glommio/src/io/dma_file_stream.rs:1139-1153 | a sync either finds everything flushed synced already, or starts one; whenever that one ends, all writes that were flushed when it began are stable, it reports that position, and it alone is over |
| `StreamCalls.PollFlushExact` | glommio/src/io/dma_file_stream.rs:1398-1412 | `poll_flush` waits if and only if something accepted has not been flushed; then the caller is in the slot and, unless somebody was there before, everything accepted is on its way; otherwise the slot is empty |
| `StreamCalls.PendingIsInFlight` | glommio/src/io/dma_file_stream.rs:955-974 | a positive pending count means a write whose completion wakes the caller in the slot |
| `StreamCalls.StuckIff` | glommio/src/io/dma_file_stream.rs:1338-1438 | every waiting caller stays the one in the slot with a write in flight, if and only if the call is not a poll while another caller waits nor a write of no bytes while nothing is in flight |
| `StreamCalls.EmptyWriteSticks` | glommio/src/io/dma_file_stream.rs:1338-1396 | a write of no bytes to a new writer breaks this |
| `StreamCalls.WaitersAreWoken` | glommio/src/io/dma_file_stream.rs:1338-1438 | on every run of a new writer without such calls, each waiting caller of an open stream has a write in flight whose completion wakes them |
| `StreamCalls.DisplacedForEver` | glommio/src/io/dma_file_stream.rs:955-974 | a waiting caller who is not in the slot is woken by nothing that the others do |
| `StreamCalls.SecondCallerDisplaces` | glommio/src/io/dma_file_stream.rs:1338-1396 | from a new writer with room for one write in flight: two callers, one completion, nothing left in flight, and the first caller still waits |
| `StreamWriterState.WriterState.constructor` | glommio/src/io/dma_file_stream.rs:1026-1048 | a new writer |
| `StreamWriterState.WriterState.FlushOneBuffer` | glommio/src/io/dma_file_stream.rs:955-974 | the write is started and recorded |
| `StreamWriterState.WriterState.PollWrite` | glommio/src/io/dma_file_stream.rs:1338-1396 | equals the step of the model; answers the number of bytes for which there is room, those being accepted, and Pending exactly when that is none |
| `StreamWriterState.WriterState.Absorb` | glommio/src/io/dma_file_stream.rs:1355-1388 | the copying loop over buffers in place takes exactly what the model's loop takes, as much as there is room for |
| `StreamWriterState.WriterState.PutBytes` | glommio/src/io/dma_file_stream.rs:1371-1386 | one turn of the loop with a buffer in hand |
| `StreamWriterState.WriterState.FlushPadded` | glommio/src/io/dma_file_stream.rs:925-951 | equals the step of the model; reports whether a write was started |
| `StreamWriterState.WriterState.PadAndCopy` | glommio/src/io/dma_file_stream.rs:942-949 | the buffer given away is padded with zeros and an open writer goes on with a copy |
| `StreamWriterState.WriterState.PollFlush` | glommio/src/io/dma_file_stream.rs:1398-1412 | equals the step of the model; ready exactly when everything was flushed |
| `StreamWriterState.WriterState.FlushInner` | glommio/src/io/dma_file_stream.rs:1117-1126 | equals the step of the model; the promised position is the current one for a partial flush and the last full block otherwise, and the handles are those not handed out before |
| `StreamWriterState.WriterState.OnWritten` | glommio/src/io/dma_file_stream.rs:959-971 | equals the completion step of the model |
| `StreamWriterState.WriterState.InitiateClose` | glommio/src/io/dma_file_stream.rs:842-847 | equals the closing step of the model, with the final position and the awaited handles |
| `StreamReader.NewInv` | glommio/src/io/dma_file_stream.rs:391-421 | a new reader stands at the start, has delivered nothing, and has asked for the first blocks and no others |
| `StreamReader.PollExact` | glommio/src/io/dma_file_stream.rs:540-597 | a served read returns exactly the next bytes of the file, cut at the block, the range and the end of the file; Pending leaves the wanted block in flight with the caller registered for it |
| `StreamReader.SkipExact` | glommio/src/io/dma_file_stream.rs:452-469 | a skip passes exactly so many positions, or all that are left of the range, delivers none of them, and keeps the cache and the waiters |
| `StreamReader.EofExact` | glommio/src/io/dma_file_stream.rs:540-597 | a served read is empty exactly when nothing was asked for or the end of range or file is reached |
| `StreamReader.ApplyKeepsInv` | glommio/src/io/dma_file_stream.rs:194-300 | every read, skip and arrival keeps: exactly the blocks from the current one up to the read-ahead position are in memory or in flight, each with its own bytes; whoever waits waits for a block in flight |
| `StreamReader.RunKeepsInv` | glommio/src/io/dma_file_stream.rs:194-300 | the same on every run, with every position passed delivered once, in order, or skipped |
| `StreamReader.MemoryBound` | glommio/src/io/dma_file_stream.rs:202-249 | at most `read_ahead + 1` blocks are in memory or in flight, and at least `read_ahead` unless the end of the range has been asked for |
| `StreamReader.LinearScan` | glommio/src/io/dma_file_stream.rs:540-597 | without skips the reads together deliver exactly the file from the start to the current position, whatever order blocks arrive in |
| `StreamReader.ScanExact` | glommio/src/io/dma_file_stream.rs:452-597 | on every run of reads, skips and arrivals, what the calls told the caller is laid end to end from the start to the current position, and every byte told is the byte of the file at its place |
| `StreamReaderState.ReaderState.constructor` | glommio/src/io/dma_file_stream.rs:391-421 | a new reader |
| `StreamReaderState.ReaderState.FillBuffer` | glommio/src/io/dma_file_stream.rs:208-249 | equals the step of the model |
| `StreamReaderState.ReaderState.ReplenishReadAhead` | glommio/src/io/dma_file_stream.rs:202-206 | the loop fills as often as the model does |
| `StreamReaderState.ReaderState.DiscardBuffers` | glommio/src/io/dma_file_stream.rs:464-466 | exactly the blocks left behind are dropped or cancelled |
| `StreamReaderState.ReaderState.Skip` | glommio/src/io/dma_file_stream.rs:452-469 | equals the step of the model; the position moves on by the bytes asked for, up to the end of the range, and nothing is delivered |
| `StreamReaderState.ReaderState.GetCachedBuffer` | glommio/src/io/dma_file_stream.rs:274-300 | the one-entry cache and what it returns |
| `StreamReaderState.ReaderState.PollGetBuffer` | glommio/src/io/dma_file_stream.rs:566-597 | the slice of the block at hand, or a wait for it |
| `StreamReaderState.ReaderState.PollGetBufferAligned` | glommio/src/io/dma_file_stream.rs:540-564 | equals the step of the model |
| `StreamReaderState.ReaderState.OnArrival` | glommio/src/io/dma_file_stream.rs:224-245 | equals the arrival step of the model |
| `CoalescedReads.GapStaysNarrow` | glommio/src/io/bulk_io.rs:140-152 | joining a request that is not too far away leaves no stretch longer than the limit that nobody asked for |
| `CoalescedReads.MergeKeeps` | glommio/src/io/bulk_io.rs:130-172 | every group is the exact hull of its requests, within the merge limit when it has several, with no wide gap; no request is lost or reordered |
| `CoalescedReads.MergeJoins` | glommio/src/io/bulk_io.rs:130-172 | a request starts a new group if and only if joining would leave too wide a gap or make the read too large; otherwise it joins |
| `CoalescedReads.PendingKeepsNothing` | glommio/src/io/bulk_io.rs:238-261 | when the inner loop answers Pending nothing is left in the merger |
| `CoalescedReads.GroupsAreClosedLate` | glommio/src/io/bulk_io.rs:238-261 | a group is handed out only at the end of the stream, when the stream is pending, or when the next request would have broken a limit |
| `CoalescedReads.AlignCovers` | glommio/src/io/bulk_io.rs:229-236 | the aligned range holds the group and reaches less than one unit beyond it on either side |
| `CoalescedReads.PartsInside` | glommio/src/io/bulk_io.rs:228-279 | every request lies inside the read of its group |
| `CoalescedReads.PollNextKeeps` | glommio/src/io/bulk_io.rs:228-279 | each poll conserves the requests in order and hands out only groups within the limits |
| `CoalescedReads.AllGroupsExact` | glommio/src/io/bulk_io.rs:228-279 | for every stream and every pattern of Pending, the groups together are the requests in order, each within the limits, and neighbours read different ranges |
| `CoalescedStream.IoVecMerger.constructor` | glommio/src/io/bulk_io.rs:192-210 | an empty merger with its limits |
| `CoalescedStream.IoVecMerger.Restart` | glommio/src/io/bulk_io.rs:144-151 | the push to the front and the drain of the rest hand out the old group and keep the new request |
| `CoalescedStream.IoVecMerger.Merge` | glommio/src/io/bulk_io.rs:130-172 | equals the step of the model |
| `CoalescedStream.IoVecMerger.Flush` | glommio/src/io/bulk_io.rs:174-180 | equals the step of the model |
| `CoalescedStream.Stream.constructor` | glommio/src/io/bulk_io.rs:192-210 | a new stream |
| `CoalescedStream.Stream.NextInner` | glommio/src/io/bulk_io.rs:238-261 | the inner loop equals the model's |
| `CoalescedStream.Stream.PollNext` | glommio/src/io/bulk_io.rs:263-279 | the outer loop with alignment and deduplication equals the model's |
| `BulkRead.FullIsNotEmpty` | glommio/src/io/bulk_io.rs:334-399 | a full window is never empty, so the unwrap of its back never fails |
| `BulkRead.PollBulkKeeps` | glommio/src/io/bulk_io.rs:356-399 | reads come back first in, first out; in-flight count stays within the cap and the memory counter equals the sum of sizes; with the oldest result there a poll never waits, and when it waits the window is full or nothing is left to start; beyond the memory limit the window does not grow, and filling stops with the first read that passes it; the end means nothing is left |
| `BulkRead.SharedRead` | glommio/src/io/sched.rs:220-226 | a read served from part of a larger one gets the bytes it would have read itself |
| `BulkRead.ShareIsExact` | glommio/src/io/bulk_io.rs:485-494 | a request inside a read gets exactly its own bytes, cut at the end of the file |
| `BulkRead.PollManyExact` | glommio/src/io/bulk_io.rs:485-506 | each poll answers the next request with its bytes, waits only for the oldest read, and ends only when all are answered |
| `BulkRead.AnswersExact` | glommio/src/io/bulk_io.rs:485-506 | the answers of a run are a prefix of what is expected, and all of it at the end |
| `BulkRead.EndIsReached` | glommio/src/io/bulk_io.rs:485-506 | more polls that find the oldest result there than requests are left reach the end, whatever the other polls did |
| `BulkRead.ReadManyExact` | glommio/src/io/dma_file.rs:512-560 | from end to end, for every stream of requests, pattern of Pending and order of completions, `read_many` answers the requests in order, each once, with exactly its bytes, and ends |
| `BulkStream.OrderedBulkIo.constructor` | glommio/src/io/bulk_io.rs:302-313 | an empty window |
| `BulkStream.OrderedBulkIo.PollInner` | glommio/src/io/bulk_io.rs:359-366 | equals the step of the model |
| `BulkStream.OrderedBulkIo.FillUp` | glommio/src/io/bulk_io.rs:389-391 | the loop equals the model's |
| `BulkStream.OrderedBulkIo.PollBuffer` | glommio/src/io/bulk_io.rs:368-384 | equals the step of the model |
| `BulkStream.OrderedBulkIo.PollNext` | glommio/src/io/bulk_io.rs:356-399 | equals the step of the model and keeps its books |
| `BulkStream.ReadManyResult.constructor` | glommio/src/io/dma_file.rs:556-560 | no read is current at first |
| `BulkStream.ReadManyResult.Serve` | glommio/src/io/bulk_io.rs:486-494 | the next request of the current read gets its slice |
| `BulkStream.ReadManyResult.PollNext` | glommio/src/io/bulk_io.rs:485-506 | equals the step of the model |
| `LocalChannel.ApplyKeepsInv` | glommio/src/channels/local_channel.rs:104-231 | every push, poll, spurious poll and drop keeps the wakeup invariant |
| `LocalChannel.RunKeepsInv` | glommio/src/channels/local_channel.rs:104-231 | the same after any events |
| `LocalChannel.NoLostWakeup` | glommio/src/channels/local_channel.rs:314-364 | items come out in order, the capacity holds, and while both ends live no wakeup is lost: waiting receivers mean enough woken ones for the items, waiting senders enough for the room |
| `LocalChannel.QuiescentMeansBlocked` | glommio/src/channels/local_channel.rs:314-364 | once every woken future has been polled or dropped, a pending receiver means an empty channel and a pending sender a full one |
| `LocalChannel.SendNeverWouldBlock` | glommio/src/channels/local_channel.rs:541-544 | a poll of `send` is pending if and only if the channel is full, otherwise it is answered by Closed or by success according to whether the receiver is there, and only success adds its item |
| `LocalChannel.TrySendExact` | glommio/src/channels/local_channel.rs:513-520 | `try_send` answers Closed, WouldBlock or success exactly when the receiver is gone, the channel full, or neither, and only success changes what is queued |
| `LocalChannel.ReceiveTakesOldest` | glommio/src/channels/local_channel.rs:352-364 | a receive hands over the oldest item, and ends if and only if nothing is left and the sender is gone |
| `LocalChannel.CallsAreAnswered` | glommio/src/channels/local_channel.rs:541-544 | a call that starts while its end is alive gets an answer when it is polled |
| `LocalChannel.DropForgets` | glommio/src/channels/local_channel.rs:192-231 | a future that is dropped is in no list any more, and no other future or item goes with it |
| `LocalChannel.DropSenderEnds` | glommio/src/channels/local_channel.rs:625-633 | when the sender is dropped the queued items stay, and receivers get them and then the end |
| `LocalChannel.DropReachesReceivers` | glommio/src/channels/local_channel.rs:603-633 | on every run, once the sender is gone no receiver is pending with a waker that has not been called |
| `LocalChannel.DropReachesSenders` | glommio/src/channels/local_channel.rs:603-641 | when the receiver is dropped the waker of every pending sender is called |
| `LocalChannel.SendAnsweredIff` | glommio/src/channels/local_channel.rs:344-350 | after the receiver has been dropped, whatever happens, a `send` is answered, by Closed, if and only if the channel was not full |
| `LocalChannel.AbandonedSend` | glommio/src/channels/local_channel.rs:344-350 | from a new channel of one place: one item, the receiver dropped, and a `send` that stays pending for ever |
| `LocalChannel.Channel.constructor` | glommio/src/channels/local_channel.rs:404-440 | a new channel |
| `LocalChannel.Channel.WakeFirstReceiver` | glommio/src/channels/local_channel.rs:597-601 | equals the step of the model |
| `LocalChannel.Channel.WakeFirstSender` | glommio/src/channels/local_channel.rs:597-601 | equals the step of the model |
| `LocalChannel.Channel.PushItem` | glommio/src/channels/local_channel.rs:315-327 | equals the step of the model |
| `LocalChannel.Channel.TrySend` | glommio/src/channels/local_channel.rs:513-520 | equals the step of the model; which answer is given, and that only success appends the item |
| `LocalChannel.Channel.PollSend` | glommio/src/channels/local_channel.rs:541-544 | equals the step of the model |
| `LocalChannel.Channel.PollRecv` | glommio/src/channels/local_channel.rs:668-706 | equals the step of the model |
| `LocalChannel.Channel.DropWaiter` | glommio/src/channels/local_channel.rs:192-231 | a woken future that is dropped passes its wakeup on, as in the model |
| `MeshWiring.JoinState.constructor` | glommio/src/channels/channel_mesh.rs:202-215 | nobody has joined |
| `MeshWiring.JoinState.Search` | glommio/src/channels/channel_mesh.rs:343-346 | the rank of an executor id, or the place where it belongs |
| `MeshWiring.JoinState.Enlist` | glommio/src/channels/channel_mesh.rs:332-351 | full, joined twice or joined, and the place by rank that a new peer takes |
| `MeshWiring.JoinState.Build` | glommio/src/channels/channel_mesh.rs:353-376 | one fresh channel for each linked pair, unless that has been done |
| `MeshWiring.JoinState.Identify` | glommio/src/channels/channel_mesh.rs:393-406 | the peer id is the rank of the executor id, the role id the rank within the role |
| `MeshWiring.JoinState.Take` | glommio/src/channels/channel_mesh.rs:409-425 | a peer takes what is left of its own halves, nothing the second time, and no others |
| `MeshWiring.Collect` | glommio/src/channels/channel_mesh.rs:442-466 | the loop keeps or drops placeholders as the specification says |
| `MeshWiring.CollectedAt` | glommio/src/channels/channel_mesh.rs:442-466 | dropping placeholders puts each end at the rank of its peer within the role |
| `MeshWiring.PartialMeshPairs` | glommio/src/channels/channel_mesh.rs:409-480 | in a partial mesh the ends found under consumer id and producer id are two halves of one channel |
| `MeshJoining.ApplyKeepsInv` | glommio/src/channels/channel_mesh.rs:329-425 | every locked section of any call keeps: peers are sorted, channels are wired for them, calls that got in are of different executors, each holds or is about to take exactly the ends of its own peer |
| `MeshJoining.RunKeepsInv` | glommio/src/channels/channel_mesh.rs:329-425 | the same after every interleaving |
| `MeshJoining.TakesFirst` | glommio/src/channels/channel_mesh.rs:409-425 | in every interleaving, whoever comes to take the ends of a peer finds the channels built and is the first to come for them |
| `MeshJoining.IdsExact` | glommio/src/channels/channel_mesh.rs:393-406 | when as many call as there are places, in every interleaving the peer id of each is the number of callers with a smaller executor id, and its role id the number of those in the same role |
| `MeshJoining.SameInEveryOrder` | glommio/src/channels/channel_mesh.rs:329-480 | however many call, any two interleavings that let the same executors in give each the same ids and ends in the same places |
| `MeshJoining.EndsMeet` | glommio/src/channels/channel_mesh.rs:409-480 | in every interleaving, the end a call holds for another, found under its peer id or consumer id, and the end that one holds for it are halves of one channel, and no half is held twice |
| `MeshJoining.EveryoneJoins` | glommio/src/channels/channel_mesh.rs:329-425 | when as many distinct executors call as there are places, none is refused or panics, moves that do anything run out, and until all hold their ends there is one |
| `MeshJoining.NobodyJoins` | glommio/src/channels/channel_mesh.rs:329-425 | when as many call as there are places and two of them are one executor, no call ever holds its ends |
| `MeshJoining.PanicsSpread` | glommio/src/channels/channel_mesh.rs:329-425 | once a call has panicked, every further step of any call panics: nothing under the lock changes and nobody else gets in |
| `MeshJoining.JoinableIff` | glommio/src/channels/channel_mesh.rs:329-425 | so some run lets someone in if and only if the callers are different executors |
| `MeshConnect.NoDeadlock` | glommio/src/channels/channel_mesh.rs:442-466 | in every state some unfinished peer can move |
| `MeshConnect.MoveShrinks` | glommio/src/channels/shared_channel.rs:125-147 | every move brings the end nearer |
| `MeshConnect.RunShrinks` | glommio/src/channels/shared_channel.rs:170-191 | so does every run |
| `MeshConnect.EveryoneConnects` | glommio/src/channels/channel_mesh.rs:442-466 | every run is finite, and one that cannot go on has brought every peer to the end of its loop |
| `MeshConnect.NobodyGoesOnAlone` | glommio/src/channels/channel_mesh.rs:442-466 | on every run, a peer has passed an index only if the peer there has posted its halves of the channels between them |
| `Latch.StepKeepsInv` | glommio/src/executor/latch.rs:114-147 | every atomic step of any thread keeps the invariant, unless it counts zero down from zero |
| `Latch.Reachable` | glommio/src/executor/latch.rs:114-147 | it holds in every interleaving without such a step |
| `Latch.ProperIsTidy` | glommio/src/executor/latch.rs:70-73 | decrements of at least one never take such a step |
| `Latch.Agreement` | glommio/src/executor/latch.rs:80-102 | all waiters and failed cancellers report the same state, never Pending |
| `Latch.OneCancellation` | glommio/src/executor/latch.rs:80-83 | at most one cancellation succeeds, and it is the call that brought the counter to zero |
| `Latch.ReadyMeansAllArrived` | glommio/src/executor/latch.rs:70-102 | Ready is reported only once the whole count has arrived, and the last arrival decides |
| `Latch.EveryArrivalCounts` | glommio/src/executor/latch.rs:70-102 | in every tidy interleaving, what has arrived is the sum of the decrements of the calls that counted; a call counts unless the counter was too low for it when it looked, and its outcome says which |
| `LatchProgress.EveryoneIsReleased` | glommio/src/executor/latch.rs:70-140 | when the decrements of all callers add up to the count and nobody cancels, whatever has happened so far, no step leads away from the end, some step leads nearer to it until all are done, and whoever is done was counted or, having waited, saw Ready |
| `Latch.DecidedOnce` | glommio/src/executor/latch.rs:114-140 | the deciding call and its choice stand for the rest of the run |
| `Latch.DeciderReleases` | glommio/src/executor/latch.rs:88-94 | after the decision a step of the deciding thread releases every waiter |
| `Latch.OverturnedIff` | glommio/src/executor/latch.rs:114-140 | a step overturns a cancellation if and only if it counts zero down from zero |
| `Latch.ZeroCountDownOverturns` | glommio/src/executor/latch.rs:70-73 | on a cancelled latch a count-down leaves the verdict alone exactly when it is not zero |
| `Latch.CancelledThenReady` | glommio/src/executor/latch.rs:70-83 | a run from a new latch in which a cancellation succeeds and the latch then becomes ready with nothing arrived |
| `FreeList.ChainUnique` | glommio/src/free_list.rs:41-53 | the chain of free slots is determined by the slots |
| `FreeList.ChainAcyclic` | glommio/src/free_list.rs:41-53 | it passes through no slot twice |
| `FreeList.ChainFrame` | glommio/src/free_list.rs:55-82 | writing slots outside the chain leaves it alone |
| `FreeList.FreeList.constructor` | glommio/src/free_list.rs:46-53 | an empty list |
| `FreeList.FreeList.Alloc` | glommio/src/free_list.rs:56-71 | stores under an index that was not live, reusing the last one freed, and changes no other entry |
| `FreeList.FreeList.Dealloc` | glommio/src/free_list.rs:73-82 | returns what was stored and forgets exactly that index |
| `FreeList.FreeList.Get` | glommio/src/free_list.rs:84-93 | indexing a live index finds its item |
| `FreeList.FreeList.Set` | glommio/src/free_list.rs:95-103 | so does writing through it, and no other entry changes |
| `FreeList.FreeList.VisitsEachFreeSlotOnce` | glommio/src/free_list.rs:55-82 | the chain visits every free slot exactly once and no live one |

## Left out

- Weak memory: the ring's counters are stored with relaxed ordering; the model is sequentially consistent.
- io_uring, the reactor, sockets, files, eventfd and sleep notification, stall detection, statistics that are read and cleared.
- The wakers of the shared channel (registration with the reactor of the other executor); its sends and receives are modelled, the sleeping is not.
- The preempt timer and latency classes of task queues; preemption may come at any moment in the model.
- Shutdown and clean-up of cancelled tasks (`with_cleanup`, `finish_shutdown`), and task panics.
- `std::collections::BinaryHeap` is any heap-ordered arrangement; how it sifts is not modelled.
- I/O errors in the stream reader, the stream writer and bulk reads, short writes, and dropping a writer that is not closed.
- Calls on a writer that is already closing, other than `poll_close`; callers dropped while they wait; `poll_seal`, which shares `initiate_close`.
- A file that is not empty when the writer starts, or that others change under the reader or the writer.
- StreamReader.NewInv: the start does not lie beyond the end; there the first read subtracts below zero, and what follows is not modelled.
- Cancelling reads in flight when a stream reader is closed; a `skip` that takes the position of a reader past 2^64.
- The scheduler of I/O requests, beyond the reuse of a larger read; `DeadlineQueue` with its floating-point control.
- `align_up`, `align_down` and the `& mask` that finds a slot of the ring are stated by remainders; that the bit masks compute them for powers of two is not shown.
- A hard bound on the memory of bulk reads: the limit is soft, one read over it is always allowed.
- The buffered stream, timers, sharding, controllers and the synchronisation primitives.
- Starvation.NoStarvation: slices are charged and no queue wakes while the floor is the largest word; the two theorems of `StarvedRuns` show that neither condition can be dropped.
- Fairness.ProportionalShare: both queues stay active, shares are static, no overflow resets the clocks in between, and slices are shorter than 2^42 ns (`Shares.LongestSliceWraps`).
- Fairness.ProportionalShareAlways: no queue has woken at the largest floor before the interval; otherwise the bound of `Fairness.ProportionalShare` holds.
- SpscRing.SendNeverPanics: until 2^64 items have been pushed; what happens after that is `SpscRing.SendOnFullRing`.
- Latch.Agreement: nobody counts zero down from a counter at zero; `Latch.OverturnedIff` and `Latch.CancelledThenReady` show why.
- StreamDurability.ReadersSeeTheStream: completions are harmless; `StreamDurability.LandExact` and `StreamOrder.AnyOrderSafeIff` say exactly which are.
