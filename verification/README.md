# A verified model of defmt-persist

defmt-persist keeps log bytes in a ring buffer that survives resets. This project
models the ring and what stands around it, and proves what the crate promises:
the bytes that `write` accepts are read once and in order, whatever the
interleaving of producer and consumer and wherever a reset strikes, on plain RAM
and on RAM behind an ECC write cache. What does not fit is dropped by `write`
itself, and a reset can take back or hand out again only the bytes of a call that
has stored its index and not flushed it yet.

`dafny verify dfyconfig.toml` checks everything.

## How it is built

| file | contents |
|---|---|
| `Words.dfy` | machine integers and small helpers |
| `RingIndex.dfy` | the index expressions of the code, branch by branch, and what they mean around the ring |
| `RingSpec.dfy` | what recovery, `write` and `release` do to a memory image |
| `EccRam.dfy` | the layout of the region, and RAM behind a one-word ECC write cache |
| `RingStores.dfy` | the stores that recovery, `write` and `release` make, in order |
| `RingBuffer.dfy` | the ring as objects: recovery, producer, consumer, grant, with 32-bit indices and copy loops, and a record of their stores |
| `RingMachine.dfy` | the ring as a step system: one step for each load, copied byte, index store, header word and flush; a reset may come before any step |
| `RingInvariant.dfy`, `RingSteps.dfy` | its invariant, and that every step keeps it |
| `RingTheorems.dfy`, `RingConsequences.dfy` | what holds of every run |
| `RingRefinement.dfy`, `RingProgress.dfy` | the steps of one call arrive at the image the object's method computes; every call returns, and makes the very stores that the method makes |
| `AtomicWaker.dfy`, `Wait.dfy`, `Logger.dfy` | waker cell, one poll of the consumer, and the logger in front of ring and RTT channel, as objects |
| `LogMachine.dfy`, `LogProofs.dfy` | nested logging contexts and the consumer task as a step system, and its invariant |
| `LogTheorems.dfy`, `LogFrames.dfy`, `LogWakeups.dfy`, `LogProgress.dfy` | exclusive use of the encoder and the interrupt state; whole frames; no lost wake-up; what whole calls and polls do, and that they end |
| `Rtt.dfy` | the RTT channel with a host that reads concurrently |
| `Init.dfy`, `Drain.dfy` | initialization, and the two documented drain loops |

Points worth knowing when reading the step systems:

- A load of an index may return an old value. It is modelled as a load of any
  counter between the newest one this side has seen and the current one.
- `Enabled` says when a step can happen; `InBounds` says that it uses no index
  outside the buffer. `RingTheorems.NoBadAccess` proves that the second always
  follows from the first, so `InBounds` shuts out no behaviour.
- `EccRam.Cache` covers plain RAM, a write-back cache with words of 4 or 8 bytes
  (Cargo.toml:40-47), and the variant that the comment at
  src/ring_buffer.rs:327-329 has in mind, where a store of a full word goes
  straight to memory while an older partial word is still cached. All theorems
  about resets hold of all of them, except that only a write-back cache makes
  durable memory a past image of all stores.
- The objects record their stores in order (`RingBuffer.stores`), and the core
  records critical sections, chunks and wake-ups (`Cpu.trace`), so that the
  methods' contracts fix the order of what they do and not only its result.
- The only bytes a reset can affect are those of a call that has stored its index
  and not flushed it yet. `Lost` and `Redelivered` name them exactly.

## What was found

- The comment in src/logger.rs:28 says that a call from an NMI, a HardFault or a
  panic during logging is dropped. This is not so between the decrement of the
  depth counter and the release of the critical section
  (src/logger.rs:141-154). What that costs, and exactly when, differs:
  - The encoder and the saved interrupt state have one user at a time if and only
    if no context starts to log in that window
    (`LogTheorems.ExclusiveIffQuiet`).
  - The frames stay whole if and only if no context begins a frame while another
    one is closing its own, the first part of the window
    (`LogFrames.WholeFramesIff`). `LogTheorems.LoggingInWindowBreaksFrames` gives
    a run in which an NMI logs there: its frame lands inside the open one, and
    interrupts stay masked afterwards.
  - Every context finds the interrupt state that it saved if and only if nobody
    in the window is overtaken by a context that saves another state
    (`LogTheorems.StatesKeptIffSavesAgree`). The whole window counts here:
    `LogTheorems.LoggingBeforeLeavingLosesState` gives a run with whole frames in
    which interrupts stay masked.
  - The depth count, the masking of encoder calls, the dropping of nested calls
    and the wake-up of the consumer do not depend on any of this. They hold in
    every run.
- The comment at src/ring_buffer.rs:354-356 says that a read across the end of
  the ring may give less. The code hands out both pieces
  (src/ring_buffer.rs:366-421), and so does the model.
- With a cache that only ever writes back, the flush between data and index
  (src/ring_buffer.rs:330) is not needed for the order.
  `EccRam.DataIsFlushedFirst` shows for which caches it is.

## Model

| member | source | states |
|---|---|---|
| RingIndex.AvailableIsFreeSpace | src/ring_buffer.rs:252-258 | both branches of `available` give one less than the cells not in the queue, so full and empty differ |
| RingIndex.NewWriteWraps | src/ring_buffer.rs:332-335 | the stored write index is the exact sum around the ring; neither the wrapping add nor the 32-bit cast loses anything |
| RingIndex.NewReadWraps | src/ring_buffer.rs:474-487 | the branch in `release` never underflows and is the exact sum around the ring |
| RingIndex.CopyCellWraps | src/ring_buffer.rs:294-325 | each accepted byte goes to the next cell around the ring, in the one-piece and the two-piece copy |
| RingIndex.SlicesAreQueue | src/ring_buffer.rs:366-427 | the two slices lie in the buffer and together are the whole queue in order |
| RingIndex.AppendQueue | src/ring_buffer.rs:271-335 | bytes laid in the free space extend the queue by exactly those bytes |
| RingIndex.DropQueue | src/ring_buffer.rs:478-487 | moving the read index by `used` drops `used` bytes from the front |
| RingIndex.CellIsMod | src/ring_buffer.rs:332-335 | the cell of a stream position is the position modulo the buffer length |
| RingSpec.RecoverImageIsQueue | src/ring_buffer.rs:178-213 | a recovered region is a queue with exactly the promised bytes, the data is untouched, recovering twice changes nothing, and a ready region is not changed at all |
| RingSpec.WriteAppends | src/ring_buffer.rs:264-337 | a write appends `min(len, free)` bytes and changes no cell outside the accepted range |
| RingSpec.ReleaseDrops | src/ring_buffer.rs:474-489 | a release drops from the front |
| RingSpec.WriteTwice | src/ring_buffer.rs:264-337 | two writes are one write of the concatenation, memory image included |
| RingSpec.ChunkingIndependence | src/logger.rs:125-170 | any split into chunks leaves the same memory as one write, also when the buffer fills part-way |
| RingSpec.SplitRelease | src/ring_buffer.rs:474-489 | releasing in two rounds with publications in between stores the index of one release of the sum and leaves the rest of the first grant in front |
| RingSpec.ChunksOnlyAppend | src/ring_buffer.rs:264-337 | writing never touches the read index or the bytes already queued |
| RingSpec.MagicIsHeader | src/ring_buffer.rs:84 | the four header words are the 128-bit magic value |
| RingStores.RecoverStoresRecover | src/ring_buffer.rs:178-213 | the listed stores of a recovery amount to its image |
| RingStores.WriteStoresWrite | src/ring_buffer.rs:285-336 | the listed stores of a `write` (data, flush, index, flush) amount to a bounded append |
| RingStores.ReleaseStoresRelease | src/ring_buffer.rs:484-488 | the listed stores of a `release` drop from the front |
| RingBuffers.RingBuffer.RecoverOrReinitialize | src/ring_buffer.rs:157-230 | from any memory, the result is a queue with the promised content, the image is the specified one, and the stores come in the order that makes resets harmless |
| RingBuffers.CopyAround | src/ring_buffer.rs:294-325 | the one or two copies lay the data around the ring and change nothing else |
| RingBuffers.Producer.Available | src/ring_buffer.rs:252-258 | free space, computed in 32 bits without underflow |
| RingBuffers.Producer.Write | src/ring_buffer.rs:264-337 | bounded append to the queue; the whole memory image afterwards; data, flush, index, flush in this order |
| RingBuffers.Consumer.IsEmpty | src/ring_buffer.rs:343-350 | true exactly when nothing is stored |
| RingBuffers.Consumer.Read | src/ring_buffer.rs:359-428 | grants the whole queue |
| RingBuffers.GrantR.Bufs | src/ring_buffer.rs:501-503 | the two slices together are the granted front of the queue |
| RingBuffers.GrantR.Release | src/ring_buffer.rs:474-489 | drops `min(used, granted)` bytes; the whole memory image afterwards; index, then flush |
| RingBuffers.GrantR.ReleaseAll | src/ring_buffer.rs:495-497 | drops the whole grant |
| RingBuffers.WriteUnderGrant | src/ring_buffer.rs:382-389 | a write under an open grant changes no byte of either slice and leaves the grant valid |
| EccRam.DurableIsPastImage | Cargo.toml:40-47 | for every kind of cache, durable memory is the image after a prefix of the stores, and behind it is exactly what is still cached: all stores to the last word, from the first since that word was committed; only stores of full words that pass the cache are durable besides |
| EccRam.WordStaysCached | Cargo.toml:43-45 | stores to one word stay in a write-back cache, whatever it held before |
| EccRam.FieldsInOrder | src/ring_buffer.rs:33-52 | the fields follow each other as declared |
| EccRam.FieldsAreDisjoint | src/ring_buffer.rs:33-52 | different fields do not overlap, and every store stays in one ECC word |
| EccRam.DataIsFlushedFirst | src/ring_buffer.rs:327-330 | after any copies from any cache state, exactly when an index store becomes durable before the data, and that the flush in between rules it out for all caches |
| EccRam.CopiedByteIsHeld | Cargo.toml:40-47 | a copied byte that changes something is not durable yet, exactly if there is a cache |
| RingSteps.CopyTarget | src/ring_buffer.rs:294-325 | a copied byte goes to the cell of its stream position, which no unreleased position shares |
| RingSteps.GrantShowsStream | src/ring_buffer.rs:359-428 | a grant shows the stream from the read counter to the write counter that was loaded |
| RingTheorems.StepKeepsInv | src/ring_buffer.rs:157-489 | every step of recovery, producer and consumer, every cache commit and every reset keeps the invariant |
| RingTheorems.NoBadAccess | src/ring_buffer.rs:285-325 | no run reaches a step that uses an index outside the buffer or a negative difference |
| RingTheorems.ArithmeticBounds | src/ring_buffer.rs:193-211 | in every run the index that recovery stores is below the length and unchanged by its 32-bit cast; in service indices stay below the length, in loads and after resets, sums stay in 32 bits, and both stored indices are sums modulo the length |
| RingTheorems.StepConserves | src/ring_buffer.rs:264-489 | what a step releases followed by the new queue is the old queue followed by what it publishes |
| RingTheorems.ResetConserves | src/ring_buffer.rs:327-336 | what recovery will find, with the unflushed publication put back, is the queue with the unflushed release put back |
| RingTheorems.RunConserves | src/ring_buffer.rs:157-489 | over every run from any memory with resets anywhere, delivered bytes followed by the queue are the stream; resets undo only the unflushed ends of both |
| RingConsequences.FifoAcrossResets | src/ring_buffer.rs:157-489 | all released bytes followed by the queue are the initial queue followed by all published bytes; without a cache for every run, with one if no reset hits an unflushed index store |
| RingConsequences.DeliveredIsPrefix | testsuite/src/lib.rs:26-34 | with a concurrent producer, what was released so far, followed by any part of the open grant that was already sent, is a prefix of the stream |
| RingConsequences.DurableOnReturn | src/ring_buffer.rs:327-336 | once `write` and `release` have returned, a reset loses nothing and redelivers nothing; with one of them in flight only its own bytes can be affected |
| RingConsequences.DurableWasVisible | src/ring_buffer.rs:15-25 | with a write-back cache, durable memory is the memory image of an earlier moment since power-on |
| RingConsequences.RecoveredQueueWasReal | src/ring_buffer.rs:15-25 | with every cache, a reset leaves a queue the run really had since power-on |
| RingConsequences.RecoveryIsAtomic | src/ring_buffer.rs:178-213 | recovery interrupted any number of times, header torn word by word, arrives at the image of an undisturbed one, and no image in between promises other content |
| RingConsequences.RecoveryCompletes | src/ring_buffer.rs:178-214 | left alone, recovery completes in at most nine steps from wherever it stands |
| RingConsequences.CopyAvoidsUnreleased | src/ring_buffer.rs:294-325 | the producer never copies to the cell of an unreleased byte, even after loading an old read index |
| RingConsequences.IsEmptyDecides | src/ring_buffer.rs:343-350 | in every run `is_empty` answers whether the write counter it loaded is the read counter, also with an old value; when it says no, there is something to read |
| RingConsequences.GrantIsStable | src/ring_buffer.rs:382-389 | until the consumer moves on, no interleaving of other steps changes a byte of either slice |
| RingConsequences.GrantCoversRecovered | src/lib.rs:96-105 | the first grant covers at least what was recovered, also with an old write index; every byte past it was published in this run; with nothing published the length is exact |
| RingRefinement.SoloWrite | src/ring_buffer.rs:264-337 | the steps of one `write` arrive at the image that `Producer.Write` is proved to compute |
| RingRefinement.SoloRelease | src/ring_buffer.rs:474-489 | the same for `release` |
| RingRefinement.StaleReadUnderestimates | src/ring_buffer.rs:265-271 | an old read index makes `write` accept less by exactly the bytes released since, and exactly what fits when it is current |
| RingProgress.WriteReturns | src/ring_buffer.rs:264-337 | from every moment of every run, the `write` in progress returns, within a bounded number of its own steps |
| RingProgress.ReadReturns | src/ring_buffer.rs:343-489 | the same for `is_empty`, `read` and `release` |
| RingProgress.WholeWrite | src/ring_buffer.rs:264-337 | from every moment at which no `write` is in progress, one can be made, returns, makes exactly the stores of `Producer.Write` through the cache, and leaves its image |
| RingProgress.WholeRelease | src/ring_buffer.rs:474-489 | the same for `release`, which drops `min(used, granted)` bytes |
| RingProgress.WholeRead | src/ring_buffer.rs:359-428 | a `read` that loads the current index grants the whole queue and changes nothing |
| RingProgress.DroppedGrantComesBack | src/ring_buffer.rs:359-428 | dropping a grant releases nothing; the next `read` grants the same bytes again, followed by what was published since |
| RingProgress.WholeIsEmpty | src/ring_buffer.rs:343-350 | an `is_empty` that loads the current index answers whether the queue is empty and changes nothing |
| RingProgress.WholeRecovery | src/ring_buffer.rs:157-230 | from power-on with any memory, recovery returns after exactly the stores of `RecoverOrReinitialize` |
| RingProgress.UnflushedIndexIsLost | src/ring_buffer.rs:327-336 | behind a write-back cache a reset right after the index store undoes the whole `write` or `release`; with every other RAM it undoes nothing |
| RingProgress.ResetAnywhere | README.md:8-14 | a reset is possible at every moment and starts again from what was durable |
| RingProgress.OldIndexCanBeLoaded | src/ring_buffer.rs:265-266 | a call may work with any value its index has had since this side loaded it last |
| AtomicWakers.AtomicWaker.Register | src/atomic_waker.rs:27-30 | replaces the waker inside a critical section, interrupt state as before |
| AtomicWakers.AtomicWaker.Wake | src/atomic_waker.rs:33-40 | takes the waker inside a critical section and calls it once outside of it |
| Wait.PollForData | src/ring_buffer.rs:432-443 | the poll is ready exactly when the queue is not empty, and the waker is registered or was called, also if a log call comes between registering and checking |
| Loggers.LoggerState.Initialize | src/logger.rs:36-42 | installs the producer |
| Loggers.LoggerState.WriteToRing | src/logger.rs:48-56 | writes to the ring once there is one |
| Loggers.LoggerState.WriteAll | src/logger.rs:79-92 | inside a critical section one chunk reaches the ring and the RTT channel: of it the front that fits, at least, and all if a host is connected |
| Loggers.LoggerState.PassOn | src/logger.rs:125 | the encoder's chunks reach both in order, one by one, inside the critical section |
| Loggers.ChunksArrive | src/logger.rs:79-92 | what that comes to: the ring holds the chunks as written one after the other, the host gets a front of each with at least what fits, and everything if it is connected |
| Loggers.LoggerState.Acquire | src/logger.rs:100-126 | raises the depth; only from depth 0 it masks interrupts, saves their state and begins the frame; else nothing reaches ring or channel |
| Loggers.LoggerState.Write | src/logger.rs:162-171 | reaches ring and channel only at depth 1 |
| Loggers.LoggerState.Flush | src/logger.rs:128-138 | at depth 1 a connected host has read everything on return; else it does nothing, and it never outputs anything |
| Loggers.LoggerState.Release | src/logger.rs:140-160 | lowers the depth; only from depth 1 it ends the frame, then leaves the critical section with the saved state, then wakes the consumer |
| Loggers.LoggerState.LogFrame | src/logger.rs:100-171 | a whole call leaves the ring as one write of the frame, hands a connected RTT host all of it in order and any other host the fronts that fit, does all this inside one critical section, wakes the consumer behind it, and leaves depth and interrupt state as before |
| Loggers.LoggerState.LogNested | src/logger.rs:100-171 | a whole call while another one is going on leaves no trace |
| LogTheorems.DepthAndMask | src/logger.rs:100-160 | in every run the depth counts the contexts inside a call, and encoder calls run with interrupts masked |
| LogTheorems.NestedCallsAreDropped | src/logger.rs:27-29 | in every run a nested context's calls change nothing but the depth |
| LogTheorems.ExclusiveIffQuiet | src/logger.rs:100-160 | the encoder has one user at a time if and only if nobody starts to log in the closing window |
| LogTheorems.QuietIsEnough | src/logger.rs:141-154 | that condition also gives whole frames and restored interrupt states |
| LogTheorems.StatesKeptIffSavesAgree | src/logger.rs:108-119 | at every moment each context finds the interrupt state it saved, if and only if nobody saves another state than a context in the window found |
| LogTheorems.LeavingRestores | src/logger.rs:150-154 | in those runs leaving the critical section puts back the state found on entering |
| LogTheorems.LoggingInWindowBreaksFrames | src/logger.rs:141-147 | a run in which the conditions fail, with a frame inside a frame and interrupts left masked |
| LogTheorems.LoggingBeforeLeavingLosesState | src/logger.rs:147-154 | a run with whole frames in which the interrupt state is lost all the same |
| LogFrames.WholeFramesIff | src/logger.rs:100-171 | in every nested run the chunks are complete frames, each from one context in start, body, end order, with at most one open frame, if and only if no frame begins while another one is being closed |
| LogFrames.FramesStayWhole | src/logger.rs:100-171 | in those runs the open frame belongs to the one context that has begun and not finished one |
| LogWakeups.NoLostWakeup | src/ring_buffer.rs:432-443 | in every run, also if the consumer goes on reading after its check, a consumer parked on unreleased bytes has been woken, or is about to be, or the last publisher still owes the wake-up |
| LogProgress.WholeCall | src/logger.rs:100-171 | from every state with depth 0 a log call can be made step by step; it adds one complete frame with all its chunks, publishes what the ring accepts, restores depth and mask, and wakes a registered consumer |
| LogProgress.WholeNestedCall | src/logger.rs:100-171 | at any other depth it leaves the state as it was |
| LogProgress.ArriveAndReturn | src/logger.rs:100-112 | interrupts that can be masked arrive exactly while they are not, never during encoder calls; arriving and returning changes nothing |
| LogProgress.PollAnswers | src/ring_buffer.rs:432-443 | in every run the task parks exactly if everything its check saw is released: always if nothing is left, never if something is there and the check is up to date |
| LogProgress.OldCountCanBeChecked | src/ring_buffer.rs:344-345 | the check may load any count since the waker was registered |
| LogProgress.ConsumerComesToRest | testsuite/src/lib.rs:26-34 | from every state, polling, reading and polling again parks the task with everything released and its waker registered |
| LogProgress.ParkedWhileWakeIsDue | src/ring_buffer.rs:432-443 | a run that ends with the consumer parked on unreleased bytes, not woken, and the wake-up due |
| LogProgress.AllReturn | src/logger.rs:100-171 | from every moment of every run, however deep the nesting, all calls can end and all contexts return |
| LogProgress.QuietMeansWoken | src/logger.rs:158-159 | when nobody is in a log call, a consumer parked on unreleased bytes has been woken |
| LogProgress.WakeupArrives | src/logger.rs:158-159 | from every moment at which the consumer is parked on unreleased bytes, ending the calls in progress wakes it |
| Rtt.AvailableBufferSize | src/logger/rtt.rs:229-235 | free space, without underflow |
| Rtt.Channel.WriteImpl | src/logger/rtt.rs:185-209 | appends `min(len, available)` bytes although the host reads on, and overwrites nothing unread |
| Rtt.Channel.BlockingWrite | src/logger/rtt.rs:154-168 | one attempt stores what fits |
| Rtt.Channel.NonblockingWrite | src/logger/rtt.rs:170-176 | one attempt stores what fits |
| Rtt.Channel.WriteAll | src/logger/rtt.rs:133-152 | stores a prefix behind what was stored before: everything if the mode bits say to block; in every other mode at least what fits, giving up only when the host leaves the channel full, after a number of attempts that the stored bytes bound |
| Rtt.Channel.Flush | src/logger/rtt.rs:211-219 | if the mode bits say to block, returns when the host has read everything; in every other mode at once |
| Init.RegionError | src/lib.rs:81-90 | which regions are refused and with which error; an accepted length is positive and small enough for all index arithmetic |
| Init.BufferBehindHeader | src/lib.rs:84-90 | the buffer begins right behind the header fields |
| Init.InitialQueue | src/lib.rs:96-105 | the queue after recovery and some writes starts with the recovered bytes |
| Init.Statics.Init | src/lib.rs:64-111 | one-shot guard, refusals in order, consumer and logger share the recovered queue, and the sampled length covers the recovered bytes and is exact if nobody logged in between |
| Drain.DrainToUart | testsuite/src/lib.rs:26-34 | terminates, sends the whole queue once and in order, leaves it empty |
| Drain.DrainPartially | README.md:58-66 | the same when each round sends only a part of the grant, or for a while nothing |

## Left out

- Drain.DrainPartially: the link sends nothing only finitely often in a row; with a link that sends nothing forever the loop does not end.
- Rtt.Channel.WriteAll: a connected host looks away only finitely often in a row; without that, blocking mode does not end.
- Loggers.LoggerState.Acquire: the depth counter is unbounded; its wrap after 2^32 nested calls is not modelled.
- Loggers.LoggerState.WriteAll: the semihosting output of the QEMU tests is not modelled; with the `rtt` feature off, the RTT part of its contract is void.
- LogProgress.WakeupArrives: the calls in progress can end and then have woken the consumer; that the contexts are given time to, and that the executor polls a woken task, is not modelled.
- A handler that returns with interrupts unmasked although it found them masked is not modelled.
- One chunk reaches the ring in one step of the logging contexts, so two ring writes that cut into each other, from a context that logs in the closing window, are not modelled.
- Registering, taking and calling a waker are one step each. src/atomic_waker.rs:27-40 only masks interrupts for this, so an NMI or a fault that logs could enter the cell in between.
- The defmt encoder is not part of this model: its chunks are arbitrary parameters.
- Weak memory beyond old index values: a load of the write index brings the bytes before it along, as its acquire ordering promises.
- Pointers, provenance, lifetimes and `Send`/`Sync`: one producer, one consumer and one grant at a time are built into the model.
- Contexts that do not nest (several cores, round-robin threads): the depth counter relies on nesting.
- A buffer length or layout that changes between resets, and the content of recovered data.
- With the `ecc` feature off, flushing does nothing; the model covers this on RAM without a cache, where a flush has no effect either.
- The test executor, the example programs, the UART driver, QEMU and the build scripts.
