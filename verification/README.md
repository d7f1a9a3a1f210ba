# A verified model of the Linux block layer's queueing core and of two pieces of its crypto layer

This project models, in Dafny, the parts of the block layer that decide what a disk is asked to do and in which
order, and proves what they promise over every run: the FLUSH/FUA sequencer, request merging and segment accounting,
partial completion, the deadline scheduler and the dispatch queue, the merge hash, throttling, and tagged queueing.
From the crypto layer it models cipher block chaining and the parser of algorithm names.

`dafny verify dfyconfig.toml` checks everything.

## How it is built

Each component has a specification on values and, where the source updates things in place, a class or a method with
loops that is proved to do exactly what the specification says. The theorems are about the specification.

| component | files |
|---|---|
| shared values | `Block.dfy`, `Lists.dfy`, `Numbers.dfy` |
| FLUSH/FUA sequencer | `FlushSpec.dfy` (transition system with a disk that has a volatile cache), `FlushSafety.dfy` (invariant and theorems), `FlushOrder.dfy` (who is served first), `FlushQueue.dfy` (the bit mask and the fetching loop) |
| segments, merging, completion | `Segments.dfy`, `Completion.dfy`, `Requests.dfy`, `RequestSafety.dfy`, `RequestSteps.dfy` (completion in two calls), `RequestErrors.dfy` (with which error a bio ends), `RequestMerging.dfy` (limits and failfast bits), `RequestObject.dfy` (the loops, in place) |
| merge hash | `MergeHash.dfy`, `MergeQueue.dfy` (the hash and the deadline scheduler's index together) |
| deadline scheduler | `DeadlineSpec.dfy`, `DeadlineSafety.dfy` (both indexes agree, writes are not starved), `DeadlineLatency.dfy` (expired requests are served), `DeadlineOrder.dfy` (which request is next), `DeadlineTurns.dfy` (deadlines and turns), `Deadline.dfy` (in place) |
| dispatch queue | `DispatchOrder.dfy` |
| throttling | `ThrottleRate.dfy` (slices and the rate), `ThrottleWait.dfy` (waiting times), `ThrottleService.dfy` (the rate is reached), `Throttle.dfy` (service tree and dispatch loops) |
| tags | `Tags.dfy` |
| CBC | `Cbc.dfy` (textbook form), `CbcBuffers.dfy` (the loops on byte buffers) |
| algorithm names | `CryptoName.dfy` |

A piece of code that runs under the queue lock is one atomic step. Kernel lists are sequences, red-black trees are
sorted sequences, jiffies are naturals that only grow. A run is a list of steps; `CanRun` says that each step was
possible when it was taken and never assumes the invariant.

## The main results

- `FlushSafety.Durability`: in every run and for every device, an ended REQ_FUA write without error is on
  non-volatile storage, and an ended REQ_FLUSH request without error had every write that completed before its
  sequence began made durable before its own data was first issued. `StageOrder` and `NoneLost` go with it.
  `FlushOrder.FirstCome`: sequences begin in the order in which their requests came and were first looked at.
- `RequestSafety.SegmentBound`: after any back, front and request merges, partial and error completions,
  `nr_phys_segments` is at least the number of scatterlist entries. It rests on `Segments.GreedyIsOptimal` (no valid
  partition has fewer entries than the greedy one) and on the invariant that the cached numbers always describe some
  valid partition. `MergedShape` and `FailureBoundary` are the other two theorems over these runs, and in
  `RequestMerging` `SectorLimit` (every request stays within `max_sectors`), `SegmentLimit` and `FailfastKept` (the
  failfast bits that count for a bio are those it came with).
- `Completion.DropStream`, `DropAll` and the loop `RequestObject.CompleteBytes`: completing `n` bytes takes exactly the
  first `n` off the byte stream. `RequestSteps.UpdateTwice`: exactly when two calls of `blk_update_request` leave the
  request that one call for all the bytes leaves, in every field. `RequestErrors.BioErrors`: over any calls with any
  errors, a bio ends with 0 if and only if no call for bytes of it failed.
- `ThrottleRate.RateBound`: bytes and bios charged never exceed the limit over the time since the first slice plus one
  slice. `ThrottleService.RateReached`: a lane that always has bios queued gets that much, but for a byte per slice, a
  tick and a bio. `Throttle.Dispatcher.SelectDispatch` terminates at a fixed jiffy. `ThrottleWait.AskedAgain`: exactly
  when a refused bio may go at any later time; `BpsWaitSuffices` and `IopsWaitSuffices` apply it to the announced wait.
- `DeadlineSafety.WritesNotStarved` and `AlwaysInv`; `DeadlineLatency.ExpiredServed`: a request whose deadline has passed
  is gone after a bounded number of dispatch calls; `DeadlineOrder.AlwaysInOrder` and `DeadlineTurns.ReadsGoFirst`: which
  request, and which direction, is next, told from what was dispatched before; `DispatchOrder.OneWayElevator`, over runs that sort requests in, add
  them at the tail and fetch them.
- `MergeHash.Elevator.Find` agrees with a linear scan; every back merge and every joining leaves each request in the
  bucket of its end. `Merge` says which request takes a bio, and exactly when one that could is missed.
- `MergeQueue.IndexAlways`: in every run over both, the sorted lists of the deadline scheduler index exactly the requests
  that the elevator holds, although front merges move requests and an alias is evicted from one and has to leave the other.
- `Tags.TagQueue`: bits, index slots and tagged requests stay in bijection; invalidation restores the order of starting.
- `CbcBuffers.EncryptMessage`, `DecryptMessage` and `Cbc.RoundTrip`; `CryptoName.RoundTrip` and `ParseSound`.

## Properties that hold only under a condition

In each case the code is modelled as it is, and the condition is proved to be exact.

- An empty request that asks for FUA only has no stage. If another flush request is pending, `blk_do_flush` then hands
  that one to the driver without a sequence: `HandsOutUnready` shows how a queue gets there, and `HandsOutReady` has
  the exact condition. The run theorems of the flush protocol therefore let an empty request ask for FUA only together
  with FLUSH (`FlushSpec.Sensible`).
- `blk_update_request` returns true although all bytes are done if the last of several bios is empty, and completing
  zero bytes ends an empty bio at the head: `EmptyBios`, exact condition in `DropAll`.
- Two calls of `blk_update_request` are not always one: the call that uses a request up leaves its start where it is, so
  after `m` and then all the rest the start is `m` bytes further than after one call. `UpdateTwice` has the exact
  condition, `DataTwice` the case where every bio has data.
- A partial completion recounts the segments and forgets the slot reserved for the drain buffer. The count is then enough
  exactly if no drain entry is needed or no shortest scatterlist keeps every high page apart. As long as vectors that
  touch fit in one segment, that is exactly if a high page touches a neighbour: `DrainForgotten`.
- `elv_merge` looks only at the first request in the chain that ends where the bio starts. A request that could take the
  bio is missed exactly if it ends there, the first one in the chain is not fit for the bio, and neither is the request of
  the last merge nor one that starts at the bio's end: `MergeHash.Elevator.Merge`. `HiddenPartner` is such a queue, with a
  write that hides a read.
- A front merge leaves the hash key alone exactly if no odd bytes add up to a sector: `FrontKeepsEnd`. Otherwise
  `elv_merged_request`, which repositions only after a back merge, may leave it stale: `FrontMerge`. A back merge moves
  the key exactly if the bytes add up to a sector: `BackMovesEnd`.
- Adding a request at the tail of the dispatch queue keeps the one-way order exactly if no waiting request starts between
  the old boundary and the new one, or all do: `AddTailKeeps`.
- Growing a tag map copies past the end of the new one exactly if twice `nr_requests` is less than the old size:
  `OldMapFits`, `Resize`. Then, and only then, a tag can be beyond the map; `blk_queue_end_tag` leaves such a request
  alone, and `blk_finish_request` and `blk_requeue_request` hit their BUG_ON: `EndTag`, `Finish`, `Requeue`, and
  `GrowthLosesTags` for a queue that gets there. Replacing the map once more leaves it right exactly if no lost tag comes
  back within it, where it would have no slot: `Replace`, `Resize`. The comment in `blk_queue_end_tag` gives another cause, that the depth
  was reduced; reducing it keeps the map.
- The wait announced for the byte limit is rounded down and may be too short by one tick: `BpsWaitTooShort`, exact
  condition in `BpsWaitSuffices`. A bio that asks only after its slice has ended finds a new slice with nothing in it. If
  it does not fit in one slice it is refused again, any number of times: `AskedAgain`, `LateAskerStarves`.
- The deadline scheduler goes on with the least sector above the last one, but only of those requests that were there
  when the last one was dispatched: `NewsPassedOver` has a request that came later and is passed over. Of the others it
  takes the least, whether the batch is used up or not, unless the oldest has expired: `AlwaysInOrder`.
- Trimming a slice costs less than a byte and a bio, if what the slices that have passed allowed was used; what was not
  used is lost: `UnusedIsLost`, with the price from both sides in `TrimCost` and `StillFits`.
- With `writes_starved` = 0 a read can wait for any number of dispatch calls: `ReadsMayStarve`; with any other setting,
  and for writes always, the bound of `ExpiredServed` holds.
- A printed name with CRYPTO_MAX_ATTRS arguments or more is refused: `CryptoName.RoundTrip`.

## Model

| member | source | states |
|---|---|---|
| FlushSafety.Durability | linux/block/blk-flush.c:137-192 | over every run on every device: an ended FUA write without error is durable; an ended FLUSH request without error had all writes completed before its sequence began durable before its data was issued |
| FlushSafety.StageOrder | linux/block/blk-flush.c:100-135 | over every run: at most one sequence, exactly one outstanding stage, the lowest not done; a sequenced request ends after exactly its planned stages, in order, with the first error |
| FlushSafety.NoneLost | linux/block/blk-flush.c:50-55 | over every run each submitted request is in exactly one place, and pending requests wait for a running sequence or for a queued request that will start one |
| FlushSafety.InvAlways | linux/block/blk-flush.c:30-192 | the invariant behind the three theorems holds after any run |
| FlushSafety.CopiesKept | linux/block/blk-flush.c:161-191 | no step loses or duplicates a request |
| FlushSafety.NoneStuckKept | linux/block/blk-flush.c:50-55 | every step keeps it that pending requests have someone to start them |
| FlushSafety.OneStageKept | linux/block/blk-flush.c:100-135 | every step keeps it that exactly one stage of the running sequence is queued or at the device |
| FlushSafety.AchievedComplete | linux/block/blk-flush.c:30-57 | a stage that succeeds brings the durability promise of the running request one stage further |
| FlushSafety.KeptDirect | linux/block/blk-flush.c:145-159 | a request that needs no flush stage keeps its promises when the driver completes it |
| FlushSafety.KeptSequenced | linux/block/blk-flush.c:41-56 | a request keeps its promises when its last stage completes |
| FlushSafety.KeptAtOnce | linux/block/blk-core.c:1516-1522 | an empty request ended early on a queue without a cache keeps its promises |
| FlushOrder.PendingNext | linux/block/blk-flush.c:41-57 | the last stage of a sequence completes while requests are pending: looking at the queue then puts the first stage of the one pending longest at its head, before everything queued |
| FlushOrder.NextStage | linux/block/blk-flush.c:30-44 | any other stage completes: the next one is at the head of the queue |
| FlushOrder.HandedClean | linux/block/blk-flush.c:154-189 | what the driver gets, as it is or as the data of a sequence, has no REQ_FLUSH, REQ_FUA exactly if asked for and the device has it, and is otherwise as submitted |
| FlushOrder.NoWaste | linux/block/blk-flush.c:137-191 | no stage twice, no flush nobody asked for or the device does not need, data exactly if there is any |
| FlushOrder.StepOrderly | linux/block/blk-flush.c:30-192 | every step keeps the line of those waiting for a sequence: who comes goes to its end, who begins was at its head |
| FlushOrder.FirstCome | linux/block/blk-flush.c:50-55 | over every run in which nothing that needs a sequence is submitted at the head: those whose sequence has begun are the first of those looked at, and these the first of those that came, in order |
| FlushOrder.StagesFirst | linux/block/blk-flush.c:100-135 | over every run in which nothing is put at the head of the queue, a stage that waits is at the head |
| FlushOrder.EmptyNeverIssued | linux/block/blk-core.c:1516-1522 | over every run a request that asks for FLUSH or FUA reaches the driver only if it has data |
| FlushQueue.CurSeqIsNext | linux/block/blk-flush.c:23-28 | the current stage computed from the mask is the first stage not done, DONE after the last |
| FlushQueue.TodoAfter | linux/block/blk-flush.c:30-44 | setting the bit of the current stage leaves the other stages, in order, and never hits the BUG_ON |
| FlushQueue.TodoAfterSkip | linux/block/blk-flush.c:184-191 | the mask of skipped stages leaves exactly the plan of the request |
| FlushQueue.Sequencer.constructor | linux/block/blk-core.c:528 | an empty queue without a sequence |
| FlushQueue.Sequencer.CurSeq | linux/block/blk-flush.c:23-28 | the lowest clear bit of the mask, 0 if there is no sequence |
| FlushQueue.Sequencer.QueueNextFseq | linux/block/blk-flush.c:100-135 | queues flush_rq in front, set up for the first stage not done; the BUG is unreachable |
| FlushQueue.Sequencer.CompleteStages | linux/block/blk-flush.c:30-57 | the next stage is queued, or the request ends with the first error and the first pending request is moved to the head |
| FlushQueue.Sequencer.StageEndIo | linux/block/blk-flush.c:59-91 | completing the stage in progress is the abstract step CompleteSeq |
| FlushQueue.Sequencer.StartSequence | linux/block/blk-flush.c:171-191 | starts the request's plan, or ends it if the plan is empty |
| FlushQueue.Sequencer.DoFlush | linux/block/blk-flush.c:137-192 | the new queue and the returned request are those of the abstract step, for every flag and capability combination |
| FlushQueue.Sequencer.ElevatorDispatch | linux/block/blk.h:71-72 | the scheduler hands over any one of its requests, or none |
| FlushQueue.Sequencer.FirstReady | linux/block/blk.h:61-69 | terminates with the queue empty or with a head fit for the driver, whose flags it understands, reached by abstract steps |
| FlushQueue.Sequencer.NextRequest | linux/block/blk.h:56-74 | terminates, returns the head and only if it is fit for the driver, without REQ_FLUSH, and with REQ_FUA only if the device has it; the queue got there by examine and dispatch steps and the device was not touched |
| FlushQueue.AlwaysFetchable | linux/block/blk.h:56-74 | in every reachable state the fetching loop may be entered |
| FlushQueue.ExamineOutcome | linux/block/blk-flush.c:161-191 | a request with a stage to run is made pending or replaced by something fit for the driver |
| FlushQueue.HandsOutReady | linux/block/blk-flush.c:171-191 | what is handed out is fit for the driver if and only if it is not the case that a request without stages ends while others are pending |
| FlushQueue.HandsOutUnready | linux/block/blk-flush.c:137-192 | from two FLUSH writes with an empty FUA request between them, the steps of the protocol hand out the second write unsequenced |
| Segments.MapSgPartition | linux/block/blk-merge.c:117-169 | the scatterlist covers the vectors exactly once, in order, in acceptable entries |
| Segments.RecalcPartition | linux/block/blk-merge.c:12-69 | so does the count of segments |
| Segments.GreedyIsOptimal | linux/block/blk-merge.c:117-169 | no acceptable partition has fewer entries than the greedy one, nor, with as many, a smaller last entry |
| Segments.EnoughSegments | linux/block/blk-merge.c:117-169 | a count that describes some partition is enough for the scatterlist |
| Segments.RecalcIsOptimal | linux/block/blk-merge.c:12-69 | the fresh count is that of a partition that keeps high pages apart, and no such partition has fewer entries |
| Segments.RecalcExact | linux/block/blk-merge.c:12-69 | if no high page touches a neighbour, whatever the sizes, the count is the number of scatterlist entries; so it is without high pages |
| Segments.SplitsCount | linux/block/blk-merge.c:12-69 | as long as vectors that touch fit in one segment, the count exceeds the scatterlist by the number of neighbours kept apart for a high page |
| Segments.FreshCount | linux/block/blk-merge.c:12-69 | the count is never below the number of scatterlist entries, and equal to it if and only if some shortest scatterlist keeps every high page apart |
| Segments.AccountedConcat | linux/block/blk-merge.c:202-226 | adding the counts of two chains describes a partition of the joined chain |
| Segments.AccountedGlue | linux/block/blk-merge.c:277-306 | so does one less when the chains touch, with the new size caches |
| Segments.AccountedRecalc | linux/block/blk-merge.c:12-84 | a fresh count with its size caches describes a partition |
| Completion.SkipBytes | linux/block/blk-core.c:2048-2075 | skipping bytes of a vector list is dropping them from its byte stream |
| Completion.AdvanceOk | linux/block/blk-core.c:134-170 | a bio advanced by some bytes is the bio without those bytes |
| Completion.DropStream | linux/block/blk-core.c:2008-2139 | completing n bytes takes exactly the first min(n, total) bytes off the request |
| Completion.FinishedPrefix | linux/block/blk-core.c:134-170 | bios end once, in order, with the right error, and with the bios left they make up the chain |
| Completion.DropAll | linux/block/blk-core.c:2080-2101 | nothing is left if and only if all bytes are done and the last bio is not an empty one of several |
| Completion.DropTwice | linux/block/blk-core.c:2039-2088 | the loop alone: m then n bytes leave the bio chain of m + n bytes if and only if n is not zero with an empty bio at the head; bios end alike |
| RequestSteps.UpdateTwice | linux/block/blk-core.c:2008-2139 | two calls, for m and n bytes, leave the request that one call for m + n leaves, in length, start, failfast bits, segment count and bios, with the same bios ended, if and only if the first left nothing, or the second ends no empty bio for nothing and either leaves something or the first changed nothing; size caches may be larger after two calls |
| RequestSteps.DataTwice | linux/block/blk-core.c:2008-2139 | if every bio has data: two calls are one if bytes are left, or were all done by the first; if the second uses the request up, its start differs by the first's bytes |
| Completion.EmptyBios | linux/block/blk-core.c:2080-2101 | two bios for which returning false at n = total, and composition with n = 0, fail |
| RequestErrors.BioErrors | linux/block/blk-core.c:134-170 | over any list of calls with any numbers of bytes and any errors: a bio with data is ended exactly if all its bytes are done, with 0 if and only if it was up to date and no call for bytes of it reported an error, else with the error of the call that ended it, or -EIO if that had none |
| RequestErrors.EmptyBioErrors | linux/block/blk-core.c:134-170 | a bio without data ends with the error of one of the calls, or with -EIO if it had failed before |
| RequestErrors.LeftBio | linux/block/blk-core.c:2103-2136 | a bio that is left after a call: how far ahead it is, and that it remembers an error exactly if the call was for bytes of it |
| RequestSafety.NewOk | linux/block/blk-core.c:1161-1174 | a request made from a bio satisfies the invariant |
| RequestSafety.BackMergeOk | linux/block/blk-core.c:1216-1237 | a back merge keeps it; refused, bio and request are as they were |
| RequestSafety.FrontMergeOk | linux/block/blk-core.c:1239-1271 | a front merge keeps it, with the new start and failfast bits |
| RequestSafety.GlueOk | linux/block/blk-merge.c:277-315 | the size caches stay right for both requests even if the merge is then refused |
| RequestSafety.ChainOk | linux/block/blk-merge.c:404-426 | chaining the bios of the next request keeps it |
| RequestSafety.JoinOk | linux/block/blk-merge.c:366-446 | attempt_merge keeps it for one request or for both |
| RequestSafety.UpdateOk | linux/block/blk-core.c:2103-2138 | a partial completion keeps it and moves start and length by the bytes done |
| RequestSafety.EagerPrefixLongest | linux/block/blk-core.c:1759-1763 | the prefix that fails together is the longest one as eager to fail |
| RequestSafety.ErrBytesPositive | linux/block/blk-core.c:1743-1768 | the bytes to fail are a positive, whole prefix of bios; the BUG_ON is unreachable |
| RequestSafety.ErrorStep | linux/block/blk-core.c:1743-1768 | one error completion ends exactly the bios up to the boundary, so repeating it terminates |
| RequestSafety.DrainForgotten | linux/block/blk-core.c:2135-2136 | after a partial completion the count is enough if and only if no drain entry is needed or no shortest scatterlist keeps every high page apart; if vectors that touch fit in one segment, if and only if none is needed or a high page touches a neighbour; if none does, only if none is needed |
| RequestSafety.NextOk | linux/block/blk-core.c:1185-1317 | every operation keeps every request right |
| RequestSafety.FirstRun | linux/block/blk-core.c:1161-1174 | the runs are not empty: any sound bio becomes a request |
| RequestSafety.AlwaysOk | linux/block/blk-core.c:1185-1317 | so does every run |
| RequestSafety.SegmentBound | linux/block/blk-merge.c:202-315 | over every run nr_phys_segments is at least the number of scatterlist entries, drain entry included while its slot is reserved |
| RequestSafety.MergedShape | linux/block/blk-core.c:1214-1271 | over every run bios are contiguous in order, `__sector` is the first bio's and `__data_len` their sum |
| RequestSafety.FailureBoundary | linux/block/blk-core.c:1743-1768 | over every run a mixed request fails in a longest, non-empty prefix at least as eager |
| RequestMerging.BackMergeWithin | linux/block/blk-merge.c:228-250 | merged if and only if the joint sectors and segments are within the limits, and then grown by the bio; else marked unmergeable and otherwise as it was |
| RequestMerging.FrontMergeWithin | linux/block/blk-merge.c:252-275 | the same at the front, with the new start |
| RequestMerging.JoinWithin | linux/block/blk-merge.c:277-446 | two requests are joined if and only if both can be merged, are of one kind, contiguous and not special, and jointly within the limits, with one segment less if they touch |
| RequestMerging.SectorLimit | linux/block/blk-merge.c:228-315 | over every run whose bios are within max_sectors every request is |
| RequestMerging.SegmentLimit | linux/block/blk-merge.c:202-315 | over every run without completions whose bios are within max_segments so are the count and the scatterlist of every request |
| RequestMerging.FailfastKept | linux/block/blk-merge.c:326-345 | over every run: for each bio the failfast bits it came with count, all of them for read-ahead; the request has those of its first bio; an error completion takes the longest run of bios, from the first, that asked for at least as much |
| RequestObject.CountBio | linux/block/blk-merge.c:28-59 | the loop over the vectors of one bio continues the count |
| RequestObject.CountSegments | linux/block/blk-merge.c:12-69 | the loops compute the recalculated partition and the size caches |
| RequestObject.RecountBio | linux/block/blk-merge.c:76-84 | counts a bio only if it has not been counted |
| RequestObject.MapVecs | linux/block/blk-merge.c:133-169 | the loop writes the greedy scatterlist |
| RequestObject.CompleteBytes | linux/block/blk-core.c:2039-2088 | the loop stops where the specification says and ends the same bios; the "bio idx" branch is unreachable |
| RequestObject.AfterLoop | linux/block/blk-core.c:2103-2133 | the bios left by the loop are those of Drop, and the request is not shorter than its first vector |
| RequestObject.ShrunkIsUpdate | linux/block/blk-core.c:2103-2138 | the end of the function computes Update |
| RequestObject.Request.constructor | linux/block/blk-core.c:1161-1174 | the request is New of the bio |
| RequestObject.Request.SetMixedMerge | linux/block/blk-merge.c:326-345 | the loop distributes the failfast bits to every bio |
| RequestObject.Request.NewHwSegment | linux/block/blk-merge.c:202-226 | adds the segments, or refuses and marks the request |
| RequestObject.Request.ChainBack | linux/block/blk-core.c:1224-1230 | the bio is last and the request longer by it, mixed if the failfast bits differ |
| RequestObject.Request.ChainFront | linux/block/blk-core.c:1247-1262 | the bio is first; start, length and failfast bits follow |
| RequestObject.Request.TryBackMerge | linux/block/blk-merge.c:228-250 | the whole back merge, with both refusals |
| RequestObject.Request.TryFrontMerge | linux/block/blk-merge.c:252-275 | the whole front merge, with both refusals |
| RequestObject.Request.GlueTo | linux/block/blk-merge.c:277-306 | size caches and count of two requests |
| RequestObject.Request.TakeOver | linux/block/blk-merge.c:404-426 | the bios go over, both requests mixed first if needed |
| RequestObject.Request.AttemptMerge | linux/block/blk-merge.c:366-446 | joins exactly when Join does, with the same two requests after it |
| RequestObject.Request.Shrink | linux/block/blk-core.c:2113-2138 | length, start, failfast bits and segment count after a partial completion; the "request botched" branch is unreachable |
| RequestObject.Request.UpdateRequest | linux/block/blk-core.c:2008-2139 | new state Update, false exactly if nothing is left, bios ended in order |
| RequestObject.Request.ScatterList | linux/block/blk-merge.c:117-199 | greedy entries, the last one padded, the drain buffer at the end |
| RequestObject.Request.BytesToFail | linux/block/blk-core.c:1743-1768 | the loop computes the size of the eager prefix |
| MergeHash.FirstEndingFinds | linux/block/elevator.c:335-355 | a linear scan finds a request if and only if one that is mergeable ends there |
| MergeHash.BucketSuffices | linux/block/elevator.c:335-355 | scanning one bucket finds a request if and only if any held mergeable request ends there |
| MergeHash.FrontKeepsEnd | linux/block/elevator.c:522-533 | a front merge keeps the key if and only if the odd bytes do not make up a sector |
| MergeHash.BackMovesEnd | linux/block/elevator.c:529-530 | a back merge never lowers the key and moves it if and only if the bytes make up a sector, so the request must be repositioned |
| MergeHash.JoinCovers | linux/block/blk-merge.c:366-446 | requests that are joined were of one direction and kind, and the joined one covers both, one after the other |
| MergeHash.Elevator.constructor | linux/block/elevator.c:206-234 | empty buckets, every hash function with the right range |
| MergeHash.Elevator.Del | linux/block/elevator.c:310-319 | the request leaves its chain and no other changes |
| MergeHash.Elevator.Add | linux/block/elevator.c:321-327 | the request is at the head of the bucket of its end |
| MergeHash.Elevator.Reposition | linux/block/elevator.c:329-333 | the same for a request already hashed; the BUG_ON is unreachable |
| MergeHash.Elevator.Find | linux/block/elevator.c:335-355 | what a linear scan of all mergeable requests finds, while dropping only unmergeable ones |
| MergeHash.Elevator.Insert | linux/block/elevator.c:655-671 | hashed exactly if mergeable; counter and last_merge |
| MergeHash.Elevator.Refuse | linux/block/blk-merge.c:221-225 | a request marked unmergeable leaves the index right |
| MergeHash.Elevator.GrowBack | linux/block/blk-core.c:1227-1229 | after chaining, only this request's key is stale |
| MergeHash.Elevator.GrowFront | linux/block/blk-core.c:1253-1263 | after chaining in front at most this request's key is stale, and none if the odd bytes do not make up a sector |
| MergeHash.Elevator.MergedRequest | linux/block/elevator.c:522-533 | after a back merge the index is right again; after a front merge it is as it was; last_merge is the request |
| MergeHash.Elevator.AttemptMerge | linux/block/blk-merge.c:366-446 | joins exactly contiguous mergeable requests of one direction and kind that fit; the index is right after it even if one of the two keys was stale |
| MergeHash.Elevator.MergeRequests | linux/block/elevator.c:535-548 | one request grows, the other is gone from hash and count |
| MergeHash.Elevator.Dispatch | linux/block/elevator.c:463-475 | the request leaves hash, count and last_merge |
| MergeHash.SchedulerIndex | linux/block/deadline-iosched.c:66-84 | the sorted side of the deadline scheduler, in every state that satisfies its invariant, is an index of the requests of one direction by sector |
| MergeHash.RbFind | linux/block/elevator.c:393-410 | halving the index finds the one request at a sector, if and only if there is one |
| MergeHash.Elevator.TryLast | linux/block/elevator.c:116-131 | the request of the last merge is taken if and only if it may be merged and ends at the bio, a back merge, or starts at its end, a front merge |
| MergeHash.Elevator.FrontSearch | linux/block/deadline-iosched.c:127-154 | a front merge if and only if front merges are on and a request that may be merged starts at the bio's end |
| MergeHash.Elevator.Merge | linux/block/elevator.c:478-520 | back merges end at the bio's start and front merges start at its end; for every merge level, there is no merge if and only if neither the last request, nor the first in the chain that ends at the bio, nor one that starts at its end takes it; a request that could is missed exactly if another one hides it in the chain and neither of the others takes the bio |
| MergeHash.HiddenPartner | linux/block/elevator.c:335-355 | for every hash function, a queue with a read and a write that end where a read bio starts, the write hashed last: the bio is not merged |
| MergeHash.Elevator.BackMerge | linux/block/blk-core.c:1216-1237 | the whole path, joined with the next request or not, leaves every key right |
| MergeHash.Elevator.FrontMerge | linux/block/blk-core.c:1239-1271 | joins exactly when the request before ends at the new start and both fit, and then every key is right; not joined, every key is right if the odd bytes do not make up a sector, and otherwise at most this request's is stale |
| MergeQueue.HeldAdd | linux/block/deadline-iosched.c:76-113 | adding a request to the scheduler lets exactly those go that start at the same sector in the same direction |
| MergeQueue.HeldFront | linux/block/deadline-iosched.c:156-168 | so does reinserting a front-merged one |
| MergeQueue.PlaceTakes | linux/block/elevator.c:361-382 | what the insertion runs into is the one held request of that direction and sector, if there is one |
| MergeQueue.NextTied | linux/block/elevator.c:463-548 | inserting, merging at either end, joining and dispatching keep elevator and scheduler holding the same requests at the same places |
| MergeQueue.IndexAlways | linux/block/elevator.c:463-671 | over every run from an empty queue, each sorted list of the scheduler holds exactly the elevator's requests of its direction, in the order of their sectors |
| MergeQueue.Queue.constructor | linux/block/elevator.c:206-234 | both are empty |
| MergeQueue.Queue.Evict | linux/block/deadline-iosched.c:76-84 | the alias leaves the hash as well, and only it |
| MergeQueue.Queue.AddRequest | linux/block/elevator.c:655-671 | the step Insert; hash and index stay right |
| MergeQueue.Queue.BackMerge | linux/block/blk-core.c:1216-1237 | joined with the next request in the index exactly if the two may be joined, and then the step JoinBio, else BackBio; hash and index stay right |
| MergeQueue.Queue.FrontMerge | linux/block/blk-core.c:1239-1271 | the same with the request before, and else FrontBio; only the key of this request may be stale, and only if odd bytes make up a sector |
| MergeQueue.Queue.DispatchRequest | linux/block/deadline-iosched.c:245-327 | the step DispatchOne: what the scheduler chooses leaves hash and index |
| MergeQueue.Queue.Merge | linux/block/elevator.c:478-520 | with the index the scheduler keeps, no hypothesis on it: there is no merge if and only if neither the last request, the first in the chain that ends at the bio, nor one that starts at its end takes it |
| DeadlineSafety.MoveOk | linux/block/deadline-iosched.c:207-222 | dispatching a request keeps both indexes in agreement and sets one next_rq |
| DeadlineSafety.AddOk | linux/block/deadline-iosched.c:101-113 | so does adding one, alias eviction included |
| DeadlineSafety.FrontMergedOk | linux/block/deadline-iosched.c:156-168 | so does reinserting a front-merged one |
| DeadlineSafety.JoinedOk | linux/block/deadline-iosched.c:171-189 | so does joining two; fifo order stays expiry order |
| DeadlineSafety.ChooseOk | linux/block/deadline-iosched.c:245-327 | what is chosen is waiting, and nothing is chosen exactly if nothing waits |
| DeadlineSafety.DispatchOk | linux/block/deadline-iosched.c:245-327 | a dispatch call keeps the invariant and takes exactly one request if there is one |
| DeadlineSafety.DrainEmpties | linux/block/elevator.c:576-588 | draining ends with nr_sorted zero |
| DeadlineSafety.AlwaysInv | linux/block/deadline-iosched.c:76-222 | over every run fifo and sorted index hold the same requests, ordered by expiry and by sector, at most one next_rq which is in the index, nr_sorted counts them |
| DeadlineSafety.ReadUsesCredit | linux/block/deadline-iosched.c:261-324 | while writes wait, each dispatch of a read uses up a bounded credit |
| DeadlineSafety.WritesNotStarved | linux/block/deadline-iosched.c:245-327 | among any fifo_batch + writes_starved * max(1, fifo_batch) + 1 dispatch calls with writes waiting, interleaved with anything, one dispatches a write |
| DeadlineLatency.PlaceKept | linux/block/deadline-iosched.c:101-189 | arrivals and merges never send a waiting request back in its fifo and never move its deadline out |
| DeadlineLatency.BatchGoesUp | linux/block/deadline-iosched.c:207-222 | after a dispatch the batch continues with the waiting request of the same direction that has the least higher sector, and with none if there is none |
| DeadlineLatency.DispatchNearer | linux/block/deadline-iosched.c:245-327 | a dispatch call that leaves an expired request waiting brings its turn nearer |
| DeadlineLatency.ExpiredServed | linux/block/deadline-iosched.c:228-327 | a request whose deadline has passed, with k before it in its fifo, is gone after at most k * (p + 1) * b + fifo_batch + p * b dispatch calls, whatever arrives or merges in between |
| DeadlineLatency.ReadsMayStarve | linux/block/deadline-iosched.c:270-294 | with writes_starved = 0 a read waits through any number of dispatch calls in some run |
| DeadlineLatency.ReadAloneReached | linux/block/deadline-iosched.c:101-113 | the start of that run is reached from an empty scheduler |
| DeadlineOrder.StepCursor | linux/block/deadline-iosched.c:76-222 | every step keeps it that next_rq is the first request above the one dispatched last, but for those that came or grew at the front since, and none in the other direction |
| DeadlineOrder.DispatchInOrder | linux/block/deadline-iosched.c:245-327 | a dispatch call takes the least sector above the last one if the batch lasts, or if the direction stays and its oldest request has not expired; if nothing is further up, or a new batch starts for another reason, the oldest of its direction |
| DeadlineOrder.AlwaysInOrder | linux/block/deadline-iosched.c:245-327 | so it is after every run from an empty scheduler in which front merges go down and not across the request dispatched last |
| DeadlineOrder.NewsPassedOver | linux/block/deadline-iosched.c:302-315 | a run in which a request that came after the last dispatch is passed over although it is nearer |
| DeadlineTurns.DueAsPromised | linux/block/deadline-iosched.c:101-189 | after every run a request is due when it came plus the time its direction allows, or at the earliest such time of those it has swallowed |
| DeadlineTurns.ReadsGoFirst | linux/block/deadline-iosched.c:261-294 | after every run a call that begins a batch takes a write if and only if one waits and no read does or batches of reads have begun writes_starved times past waiting writes since the last batch of writes |
| Deadline.Latter | linux/block/deadline-iosched.c:66-74 | the successor in the sorted index |
| Deadline.RbAdd | linux/block/elevator.c:361-382 | inserts by sector, or returns the request at the same sector |
| Deadline.Scheduler.constructor | linux/block/deadline-iosched.c:350-368 | empty indexes |
| Deadline.Scheduler.RemoveRequest | linux/block/deadline-iosched.c:87-124 | out of both indexes, next_rq moved on if it was the request |
| Deadline.Scheduler.MoveRequest | linux/block/deadline-iosched.c:195-222 | the abstract move, with elv_dispatch_add_tail |
| Deadline.Scheduler.AddRqRb | linux/block/deadline-iosched.c:77-84 | the alias loop evicts at most one request, then inserts |
| Deadline.Scheduler.AddRequest | linux/block/deadline-iosched.c:101-113 | the abstract add |
| Deadline.Scheduler.MergedRequest | linux/block/deadline-iosched.c:156-168 | the abstract front merge |
| Deadline.Scheduler.MergedRequests | linux/block/deadline-iosched.c:171-189 | the abstract join, the earlier deadline kept |
| Deadline.Scheduler.DispatchRequests | linux/block/deadline-iosched.c:245-327 | the abstract dispatch; returns whether anything was waiting |
| Deadline.Scheduler.DrainElevator | linux/block/elevator.c:576-588 | terminates with nothing left |
| DispatchOrder.PlaceStops | linux/block/elevator.c:433-454 | exactly the requests that may be passed are passed |
| DispatchOrder.NeverPassesBarrier | linux/block/elevator.c:432-442 | started and soft-barrier requests and those of another direction or kind keep their place |
| DispatchOrder.SortKeeps | linux/block/elevator.c:418-455 | sorting in keeps the one-way order |
| DispatchOrder.PeekKeeps | linux/block/blk-core.c:1826-1853 | peeking keeps it although the boundary moves |
| DispatchOrder.OrderAtOther | linux/block/elevator.c:472-473 | requests in one-way order for one boundary are in order for another if and only if none of them starts between the two, or all do |
| DispatchOrder.AddTailKeeps | linux/block/elevator.c:463-475 | adding at the tail keeps the invariant of the one-way order if and only if no waiting request starts between the old boundary and the end of the new request, or all do |
| DispatchOrder.PeekTakesNext | linux/block/blk-core.c:1826-1853 | the request peeked at is the next one in elevator order |
| DispatchOrder.OneWayElevator | linux/block/elevator.c:418-455 | over every run of sorting in, adding at the tail where the boundary may move, and peeking, unseen requests stand as sectors from the boundary up ascending, then the rest ascending, and never overlap |
| DispatchOrder.OneWayIs | linux/block/elevator.c:418-455 | the one-way order is two ascending runs, the first from the boundary up and the second below it |
| DispatchOrder.DispatchQueue.DispatchSort | linux/block/elevator.c:418-455 | the backward scan inserts at the specified place |
| DispatchOrder.DispatchQueue.DispatchAddTail | linux/block/elevator.c:463-475 | in place, the step AddTail whose effect on the order AddTailKeeps gives |
| DispatchOrder.DispatchQueue.PeekRequest | linux/block/blk-core.c:1826-1853 | the head is started and the boundary moves if it was reached |
| ThrottleRate.RateCharge | linux/block/blk-throttle.c:493-533 | a charge within the rounded-up allowance keeps the account |
| ThrottleRate.RateTrim | linux/block/blk-throttle.c:385-441 | trimming whole slices with floor division keeps it |
| ThrottleRate.RateNew | linux/block/blk-throttle.c:347-356 | a slice that has run out covers all it was charged |
| ThrottleRate.AskOk | linux/block/blk-throttle.c:539-588 | asking keeps the account; a bio let through fits in a slice that lasts long enough; a refusal comes with a wait |
| ThrottleRate.SpendOk | linux/block/blk-throttle.c:590-604 | charging a bio that fits keeps it |
| ThrottleRate.TrimOk | linux/block/blk-throttle.c:385-441 | trimming keeps it, also when the slice end moves back |
| ThrottleRate.RateBound | linux/block/blk-throttle.c:443-604 | over every run: bytes times HZ at most bps times (time since the first slice plus one slice), and likewise for bios |
| ThrottleWait.AskedAgain | linux/block/blk-throttle.c:539-588 | a refused bio that asks at any later time may go if and only if it fits in the time passed in its slice, while that lasts, or, after it, in a single slice |
| ThrottleWait.IopsWaitSuffices | linux/block/blk-throttle.c:443-490 | a bio over the limit on bios only may go at any time from the announced one to the end of its slice, which is not before it; after that if and only if it fits in a single slice |
| ThrottleWait.BpsWaitSuffices | linux/block/blk-throttle.c:493-588 | at the announced time the bio may go if and only if its bytes fit in that time rounded up to slices; from a tick later to the end of its slice it may; after that if and only if it fits in a single slice |
| ThrottleWait.BpsWaitTooShort | linux/block/blk-throttle.c:518-531 | with slices of a tenth of a second, a family of limits and of bios of whole sectors, first asked on a fresh group, for which the wait is too short |
| ThrottleWait.LateAskerStarves | linux/block/blk-throttle.c:560-588 | a bio that does not fit in a single slice and always asks after its slice has ended, never before it was told, is refused any number of times |
| ThrottleService.TrimCost | linux/block/blk-throttle.c:385-441 | at any later time a limit allows after trimming what it would have allowed before, less what the slices that have passed had allowed and was not used, and less at most one byte or bio |
| ThrottleService.StillFits | linux/block/blk-throttle.c:385-441 | a bio that would have fit with a byte to spare fits after trimming if nothing was left unused; the largest such bio does not if more than a byte was |
| ThrottleService.UnusedIsLost | linux/block/blk-throttle.c:424-427 | a family of limits, with slices of a tenth of a second, and bios that fit before trimming and not after it, because two slices went unused |
| ThrottleService.BytesTold | linux/block/blk-throttle.c:518-531 | at the time a refused bio is told, the slice with the bio is used up but for one byte and one tick, and trimming will not lose any of it |
| ThrottleService.RateReached | linux/block/blk-throttle.c:443-604 | over every run of a lane limited in bytes that always has a bio queued and asks when it was told: bps times the time is at most the bytes let through times HZ, plus the bio at the head, one byte, one tick, and one byte per slice |
| ThrottleService.BioRateReached | linux/block/blk-throttle.c:443-604 | the same for a lane limited in bios, with one bio and one tick per slice |
| Throttle.AskLaneOk | linux/block/blk-throttle.c:539-588 | for the first bio of a lane: let through with no wait and the account right after it goes, or refused with a positive wait |
| Throttle.QueuedMeansBusy | linux/block/blk-throttle.c:138-141 | the totals are zero exactly if no group has a bio queued |
| Throttle.LanesKeepRate | linux/block/blk-throttle.c:443-604 | in every valid state of the dispatcher each lane has kept the rate bound |
| Throttle.LeastFirst | linux/block/blk-throttle.c:230-243 | the leftmost group has the least dispatch time |
| Throttle.Dispatcher.constructor | linux/block/blk-throttle.c:1039-1085 | no bio, no group on the tree |
| Throttle.Dispatcher.First | linux/block/blk-throttle.c:230-243 | the cached leftmost node is the first of the tree |
| Throttle.Dispatcher.Dequeue | linux/block/blk-throttle.c:251-323 | the group is off the tree and the cached node follows |
| Throttle.Dispatcher.Enqueue | linux/block/blk-throttle.c:271-311 | the group is on the tree behind all due no later |
| Throttle.Dispatcher.DispatchOne | linux/block/blk-throttle.c:639-657 | the first bio of a lane goes, counters and account follow |
| Throttle.Dispatcher.DispatchLane | linux/block/blk-throttle.c:669-687 | at most max bios go, in order; fewer only if none is left or the next is refused |
| Throttle.Dispatcher.DispatchGroup | linux/block/blk-throttle.c:659-690 | at most three quarters of a quantum of reads and one quarter of writes go; fewer of either only if none is left or the next is refused |
| Throttle.Dispatcher.MinWait | linux/block/blk-throttle.c:619-632 | the shorter of the waits of the lanes' first bios, positive for a stalled group; no bio moves |
| Throttle.Dispatcher.UpdateDisptime | linux/block/blk-throttle.c:619-637 | the group is on the tree with the dispatch time of its sooner lane; a stalled one is no longer due |
| Throttle.Dispatcher.SelectDispatch | linux/block/blk-throttle.c:692-721 | terminates at a fixed jiffy; every lane sends a prefix in order; if below the quantum, no busy group is due |
| Throttle.Dispatcher.Submit | linux/block/blk-throttle.c:982-1037 | the bio passes, and is charged, exactly if none is queued and it is within the limit; else it is last in its lane and its group is on the tree |
| Throttle.Dispatcher.NextDelay | linux/block/blk-throttle.c:325-344 | none exactly if nothing is queued, else up to the earliest dispatch time; the BUG_ON is unreachable |
| Tags.Bijection | linux/block/blk-tag.c:337-384 | if no tag is beyond the map, a bit is set, and a slot filled, if and only if a request has that tag, and no two have the same |
| Tags.AgreeStart | linux/block/blk-tag.c:366-382 | starting keeps bits, index and requests in bijection |
| Tags.AgreeEnd | linux/block/blk-tag.c:282-316 | so does ending |
| Tags.AgreeGrow | linux/block/blk-tag.c:251-263 | a larger map that starts with the old one agrees with the requests if and only if no tag that was beyond the old one is within it |
| Tags.AgreeCut | linux/block/blk-tag.c:251-263 | a smaller map that the old one is cut down to agrees with the requests whose tags it still holds |
| Tags.StartOrder | linux/block/blk-tag.c:399-405 | the busy list turned round is in the order of starting |
| Tags.GrowthLosesTags | linux/block/blk-tag.c:220-265 | a queue of ten tags, all taken, that asks for eleven after nr_requests went from 128 to four, and gets eight: a request has a tag beyond the map |
| Tags.OldMapFits | linux/block/blk-tag.c:251-260 | the old map fits in the new one if and only if twice nr_requests is not below its size |
| Tags.TagQueue.constructor | linux/block/blk-tag.c:108-157 | an empty map of the clamped depth |
| Tags.TagQueue.FirstZero | linux/block/blk-tag.c:369-372 | the first clear bit below the depth |
| Tags.TagQueue.FreeTag | linux/block/blk-tag.c:356-374 | the lowest tag the request may have; none if and only if all are taken or too many asynchronous requests are in flight |
| Tags.TagQueue.StartTag | linux/block/blk-tag.c:337-384 | the request gets the lowest free tag, goes to the busy list and is in flight, or nothing changes; it gets one if and only if a tag is free below its depth and not too many asynchronous requests are in flight; an asynchronous one leaves the last two tags of the depth alone |
| Tags.TagQueue.EndTag | linux/block/blk-tag.c:282-316 | a tag beyond the map is left alone; for any other its bit and slot are free and nothing else changes, and the complaints are unreachable |
| Tags.TagQueue.Finish | linux/block/blk-core.c:2183-2209 | the tag is given back and the request no longer in flight; the BUG_ON is hit if and only if the tag is beyond the map |
| Tags.TagQueue.Replace | linux/block/blk-tag.c:251-263 | a new map of the given depth, which starts with as much of the old one as it holds; right if and only if no tag that was beyond the old one is within it |
| Tags.TagQueue.Resize | linux/block/blk-tag.c:220-265 | which of the outcomes occurs, the new depth and map; the copy overruns if and only if the new map is the smaller one, exactly under the stated condition; outstanding tags are kept, and all are within the map unless it overran; the map is right if and only if no tag that an earlier overrun put beyond it is now within it |
| Tags.TagQueue.Requeue | linux/block/blk-core.c:982-994 | the request is untagged, no longer in flight and at the head of the queue; the BUG_ON is hit if and only if its tag is beyond the map |
| Tags.TagQueue.InvalidateTags | linux/block/blk-tag.c:399-405 | unless a tag is beyond the map no tag is left, and the requests stand at the head of the queue in the order of starting |
| Cbc.EncryptIs | linux/crypto/cbc.c:42-88 | block j is E(P[j] xor C[j-1]), the IV for the first: section 6.2 of NIST SP 800-38A |
| Cbc.DecryptIs | linux/crypto/cbc.c:114-167 | block j is D(C[j]) xor C[j-1] |
| Cbc.RoundTrip | linux/crypto/cbc.c:42-191 | decryption of the encryption gives back all whole blocks, for every permutation |
| Cbc.EncryptParts | linux/crypto/cbc.c:90-112 | encrypting in parts with the last ciphertext block as IV is encrypting the whole |
| Cbc.DecryptParts | linux/crypto/cbc.c:169-191 | so is decrypting |
| CbcBuffers.WordXorIsXor | linux/crypto/algapi.c:898-907 | exclusive or of 32-bit words is that of their bytes |
| CbcBuffers.XorByte | linux/crypto/algapi.c:892-896 | byte by byte, nothing else changes |
| CbcBuffers.CryptoXor | linux/crypto/algapi.c:898-907 | words and odd bytes together: the exclusive or, nothing else changes, also within one buffer |
| CbcBuffers.EncryptSegment | linux/crypto/cbc.c:42-64 | destination, IV and tail length of the textbook form |
| CbcBuffers.EncryptInplace | linux/crypto/cbc.c:66-88 | the same in place |
| CbcBuffers.DecryptSegment | linux/crypto/cbc.c:114-138 | destination, IV and tail length of the textbook form |
| CbcBuffers.DecryptInplace | linux/crypto/cbc.c:140-167 | the same in place, although it runs backwards |
| CbcBuffers.Backwards | linux/crypto/cbc.c:155-163 | the backward loop decrypts every block with the ciphertext before it |
| CbcBuffers.MaskIsMod | linux/crypto/cbc.c:151-152 | masking with bsize - 1 is the remainder for a power of two, which the template insists on (lines 230-231) |
| CbcBuffers.EncryptMessage | linux/crypto/cbc.c:90-112 | the whole message whatever the chunks, the IV left, an error exactly if bytes are left |
| CbcBuffers.DecryptMessage | linux/crypto/cbc.c:169-191 | so for decryption |
| CryptoName.CloseName | linux/crypto/algboss.c:133-147 | a printed name leaves the nesting depth as it was |
| CryptoName.TokenIs | linux/crypto/algboss.c:127-151 | a printed argument is read to its end and no further |
| CryptoName.RoundTrip | linux/crypto/algboss.c:114-182 | parsing a printed name yields the template and the printed arguments at any depth if and only if there are fewer than CRYPTO_MAX_ATTRS |
| CryptoName.ParseSound | linux/crypto/algboss.c:114-182 | whatever is accepted starts with the template and exactly these arguments in parentheses |
| CryptoName.NumberRoundTrip | linux/lib/vsprintf.c:34-103 | a decimal argument is read as itself modulo 2^32 |
| CryptoName.OctalRoundTrip | linux/lib/vsprintf.c:37-47 | with a zero before it a number is read as octal |
| CryptoName.AlgorithmRoundTrip | linux/crypto/algboss.c:152-164 | a printed name is an algorithm, not a number, if and only if it has arguments or a character that is no digit |
| CryptoName.ReadNumber | linux/crypto/algboss.c:158-164 | the number is that of the argument although the rest of the name follows |
| CryptoName.ScanRun | linux/crypto/algboss.c:130-131 | the run of name characters, and whether it is a number |
| CryptoName.SkipNested | linux/crypto/algboss.c:133-143 | finds the closing parenthesis or the terminator and stops there |
| CryptoName.ReadArguments | linux/crypto/algboss.c:123-177 | terminates within the tables and fills them with the arguments, or fails as specified |
| CryptoName.ScheduleProbe | linux/crypto/algboss.c:114-188 | accepts exactly what Parse accepts, with its template, attributes and table, never past the terminator |

## Left out

- CFQ, the no-op scheduler and switching schedulers: other schedulers would repeat the deadline theorems on other state.
- Plugging, timers, work queues, request timeouts, softirq completion, statistics, tracing: plumbing around the modelled steps.
- Integrity segments, bounce buffers and data-less discards in the segment count: other counting rules; discards appear as a flag in the dispatch order only.
- Page-level tests: "physically mergeable and in the same boundary window" is an arbitrary relation on vectors, "high page" an arbitrary predicate.
- Partial completion of flush_rq, elv_abort_queue, and recursion from insertion into the driver: outside the flush protocol.
- Machine arithmetic: sectors, byte counts, jiffies and rate products are unbounded naturals; only the UINT_MAX clamp of the bio limit and the 32-bit attribute value are modelled.
- Limits that change during the rate theorem, group creation and destruction: limits are fixed per lane.
- A group with only one of its two limits set: the missing limit never refuses and never trims, while the source computes with the largest value.
- Negative writes_starved, and changing the tunables of the deadline scheduler during a run.
- The hash function of the merge hash: any function into the buckets.
- Tag maps shared by several queues: a shared map appears only as the reference count that refuses to grow it.
- Tags.TagQueue.Resize: does not model the memory that a copy past the end of the new map overwrites.
- MergeHash.Elevator.AttemptMerge: takes the tests of disk, secure discard and special requests and the answer of ll_merge_requests_fn as two arguments, because the hash depends on neither; `RequestObject.Request.AttemptMerge` models the segment and size limits.
- MergeHash.Elevator.BackMerge: takes the same two arguments for joining with the request after it.
- MergeHash.Elevator.FrontMerge: takes the same two arguments for joining with the request before it.
- MergeQueue.Queue.BackMerge: takes the same two arguments; which request it is joined with comes from the index.
- MergeQueue.Queue.FrontMerge: takes the same two arguments.
- MergeHash.Elevator.Merge: takes the tests of elv_rq_merge_ok on disk, integrity and the scheduler's own veto as a set of requests that pass them.
- DeadlineOrder.AlwaysInOrder: says nothing of runs in which a request grows at the front across the sector of the request dispatched last, because the two would overlap.
- ThrottleService.BioRateReached: is stated for counts of bios below UINT_MAX, the clamp of the limit, because a lane at the clamp is refused whatever its rate.
- A lane with both limits set: the lower bounds on what it gets are stated for one limit at a time.
- ThrottleWait.IopsWaitSuffices: is stated for a count of bios below UINT_MAX, the clamp of the limit; AskedAgain has no such condition.
- The scatterlist walk of CBC: it offers chunks of any size of at least a block, in place or not; allocation failures are left out.
- Key setup and the block ciphers: CBC is proved for every permutation of blocks.
- Buffer sizes of names: the parser works on names of any length; that copies fit follows from the bound on the whole name.
