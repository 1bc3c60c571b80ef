# Verified models of the RAID simulators, the bounded buffer and the sequential MapReduce

Four programs of the repository are modelled and proved here. Python code is read as Python 2.7, as
`lecture-15/README.md` asks, so `/` on integers is floor division; times are exact reals.

* **The RAID address maps and parity writer (`lecture-15/raid.py`).** `RaidLayout` holds the closed-form maps for
  levels 0, 1, 4 and 5 and their inverse; `RaidLayoutTheorems` shows that each layout is a bijection and how data and
  parity rotate. `RaidPlan` says which physical I/Os a request turns into and what they cost; `DiskTiming` is the disk
  cost model, in terms of the offsets each disk is asked for. The program moves no data, so `Redundancy` and `RaidContents` add ghost contents: a block is the set of
  its one-bits and XOR is symmetric difference. `RaidArray` has the `Disk` and `Raid` objects, updated in place. Their
  methods are proved against the plans, and every parity value written is computed only from blocks that the same
  operation read or wrote. The result is that the array refines a flat block store, that mirrors and parity stay
  right, and that any single disk can be rebuilt.
* **The producer/consumer program (`week-9/pc.c`).** `RingBuffer` is the circular buffer, as a value and as the object
  that is updated in place. `ProducerConsumer` is the step relation of one producer and any number of consumers over
  one mutex and two condition variables, with its invariant; `ProducerConsumerRuns` has the theorems about whole
  schedules. Safety and deadlock freedom hold with spurious wakeups; the bound on the length of a schedule charges
  four steps for each of them.
* **The disk simulation (`lecture-15/raid-graphics.py`), without drawing.** `SimRequest` is the status machine of a
  request together with the history of its physical I/Os; `SimState` is the state of disks, scheduler and clock;
  `SimProofs` and `SimTicks` show that each step keeps the invariant and uses up a measure; `SimSeek` follows one seek
  through the ticks, `SimService` one I/O from its seek to the end of its transfer, and `SimFullStripe` a data write
  of a full stripe; `SimHistory` is about what the disks record; `SimSetup` treats the request set-up, and `SimLayout`
  compares its layouts with those of `raid.py`; `SimRuns` is about whole runs: how long their I/Os take, when they
  finish, and what has been done by then. `SimRaid` has the `Request` and `Raid` objects, updated in place and proved
  against the functions of `SimState`.
* **The sequential MapReduce (`week-9/sequentual_mapreduce.c`).** `MapReduce` has the growing list, the sort, the
  shared cursor and the driver, which run any reducer through the getter, and shows for which reducers together they
  are a group-by. A reducer is what it does with its getter, per key: calls with any keys, once or until NULL.

`Arithmetic` and `Sums` hold facts about division and about sums over sequences. `dafny verify dfyconfig.toml` checks
the whole project.

## What the code does not do

Seven properties one might expect hold only under a condition. Each is stated with its exact condition, except where
the third item says otherwise.

* Left-asymmetric RAID-5 does not spread consecutive chunks over all the disks, unless there are two disks
  (`SpreadsExactly`).
* The test in `doPartialWrite` between subtractive and additive parity counts one parity read where there can be up to
  `chunkSize` of them, so with larger chunks it can pick the branch with more reads (`FewestReadsExactly`,
  `FewestReadsFails`).
* In a level-4 full stripe, the first two writes are marked to write no parity. The scheduler gives such a write to
  whichever of its two disks asks first, so the parity disk may take it; it is then reported done although its data
  disk was never written. At the default speed and window, reads of blocks 0, 3 and 6 followed by writes of blocks 0,
  1 and 2 show it (`FullStripeFails`). It cannot happen at window 1, or if no entry queued before a marked data write
  is on its data disk (`SimulationCompletes`). For lists with only reads before the marked triple, and a window that
  takes in the whole list, the condition on the list is exact (`DataReachedExactly`).
* The marking does not look where a stripe begins. Three marked writes write the parity of the first one's row if and
  only if the first address is a multiple of three (`FullStripeParity`); after writes of blocks 1, 2 and 3 the parity
  of row 0 has never been written (`MisalignedStripeFails`).
* The level-4 full-stripe marking takes eight off the goal for three consecutive addresses even if some of them are
  reads; then the simulation never stops with all requests done (`GoalExact`, `GoalFails`, `SimulationFinishes`).
* A head stops on its target only if the seek speed divides the distance (`SeekEndsExactly`); a run whose requests are
  on rows at other distances from row 0, where the heads start, never finishes (`SimulationFinishes`,
  `SpeedThreeFails`).
* `MR_Run` calls `reduce` once per key, with exactly the values of that key, only if each call asks its getter often
  enough for its own key and not for the next key after that (`OncePerKeyExactly`). A reducer that goes on to the next
  key takes that group with it, so that `reduce` is never called for it (`OverrunningReducer`).

## Model

| member | source | states |
|---|---|---|
| RingBuffer.FillEnqueues | week-9/pc.c:26-30 | with room left, do_fill appends to the queue the ring stands for and keeps fill_ptr at use_ptr + num_full |
| RingBuffer.DropDequeues | week-9/pc.c:32-37 | with something queued, do_get removes the oldest element and nothing else |
| RingBuffer.Buffer.constructor | week-9/pc.c:98-104 | the buffer starts zeroed and empty |
| RingBuffer.Buffer.DoFill | week-9/pc.c:26-30 | the in-place do_fill is the value-level one on any buffer, and an enqueue when there is room |
| RingBuffer.Buffer.DoGet | week-9/pc.c:32-37 | the in-place do_get is the value-level one on any buffer, and a dequeue when something is queued |
| ProducerConsumer.InitHolds | week-9/pc.c:14-20 | the initial globals satisfy the invariant of the step relation |
| ProducerConsumer.StepPreserves | week-9/pc.c:39-85 | every step of every thread, and every spurious wakeup, keeps locking, queue order, end-marker counts and the two no-lost-wakeup facts |
| ProducerConsumerRuns.MutualExclusion | week-9/pc.c:42-51 | in every reachable state at most one thread is between lock and unlock |
| ProducerConsumerRuns.NoOverrun | week-9/pc.c:43-49 | num_full stays within the buffer, fill_ptr is (use_ptr + num_full) % max, and no thread fills a full or reads an empty buffer |
| ProducerConsumerRuns.TakesInOrder | week-9/pc.c:41-63 | the gets so far are a prefix of 0..loops-1 followed by the end markers, and the buffer holds exactly the next items, in every interleaving |
| ProducerConsumerRuns.NoDeadlock | week-9/pc.c:39-85 | in a reachable state no thread can take a real step exactly when all have returned |
| ProducerConsumerRuns.MeasureDecreases | week-9/pc.c:39-85 | each real step uses up the measure of remaining fills, gets and program points; a spurious wakeup adds at most three |
| ProducerConsumerRuns.ScheduleBound | week-9/pc.c:39-85 | every schedule is finite, with an explicit bound in loops and consumers plus four per spurious wakeup |
| ProducerConsumerRuns.RunToEnd | week-9/pc.c:39-85 | from every state satisfying the invariant some schedule without spurious wakeups ends with all threads returned |
| ProducerConsumerRuns.Outcome | week-9/pc.c:39-85 | a schedule nobody can extend ends with an empty buffer, 0..loops-1 each taken once in order, and exactly one end marker per consumer |
| RaidLayout.HoldsBmap | lecture-15/raid.py:194-273 | every logical block lies on a real disk, where the inverse layout finds it, at every level and for both mirrors |
| RaidLayout.BmapHolds | lecture-15/raid.py:194-273 | every physical block that is not parity is the place its inverse names |
| RaidLayoutTheorems.FirstBlock | lecture-15/raid.py:194-273 | block 0 is at offset 0 of disk 0 at every level |
| RaidLayoutTheorems.NextBlock | lecture-15/raid.py:194-273 | the layout as a walk: the next block is one below in the chunk, or at the top of the next chunk of the row (past the parity disk when left-asymmetric, around the disks when left-symmetric), or in the first chunk of the next row |
| RaidLayoutTheorems.LayoutBijection | lecture-15/raid.py:194-273 | at levels 0, 4 and 5 a logical block and its physical block determine each other |
| RaidLayoutTheorems.MirrorBijection | lecture-15/raid.py:213-217 | a physical block holds a logical block exactly when it is one of its two copies, on distinct disks |
| RaidLayoutTheorems.ParityPlace | lecture-15/raid.py:248-283 | a physical block is the parity of a stripe exactly when it is on the stripe's parity disk in the stripe's rows, never data as well |
| RaidLayoutTheorems.PmapValue | lecture-15/raid.py:248-283 | the parity disk is the last one at level 4, and at level 5 moves one disk to the left with each stripe |
| RaidLayoutTheorems.StripeOfBlock | lecture-15/raid.py:254-283 | a block's row is its stripe, pmap5 names the parity disk __bmap5 computes, and the assertion disk != pdisk cannot fail |
| RaidLayoutTheorems.ParityRotates | lecture-15/raid.py:260-261 | any numDisks consecutive stripes put parity on each disk exactly once |
| RaidLayoutTheorems.LeftSymmetricDisk | lecture-15/raid.py:254-273 | the left-symmetric rotate-by-row computation places chunk cnum on disk cnum % numDisks |
| RaidLayoutTheorems.SpreadsExactly | lecture-15/raid.py:263-273 | any numDisks consecutive chunks lie on distinct disks exactly for left-symmetric layouts or two disks |
| RaidPlan.TouchedStep | lecture-15/raid.py:292-297 | the offset list built by membership tests is the first min(k, chunkSize) offsets, each once |
| RaidPlan.PartialCost | lecture-15/raid.py:286-320 | exact I/O cost of a partial-stripe write: 2(k+p) subtractive, blocksInStripe + p additive, with reads and writes counted apart |
| RaidPlan.PlanTraffic | lecture-15/raid.py:286-320 | the exact I/Os of a partial-stripe write in order: the run and its parity offsets, or the rest of the stripe, are read; then the run and its parity offsets are written |
| RaidPlan.RequestTraffic | lecture-15/raid.py:199-236 | the exact I/Os of striped requests, mirrored requests and parity-level reads in order; mirrored reads go to the even disk of the pair at even offsets and to the odd one at odd offsets, mirrored writes to both |
| RaidPlan.FewestReadsExactly | lecture-15/raid.py:289-301 | the branch test picks the fewer reads exactly when blocksInStripe - k is outside [k+1, k+p) |
| RaidPlan.FewestReadsUnitChunk | lecture-15/raid.py:289-301 | with one-block chunks it always does, and a full-stripe write reads nothing |
| RaidPlan.FewestReadsFails | lecture-15/raid.py:289-301 | a concrete write that reads six blocks where five would do |
| RaidPlan.ParityInputsAvailable | lecture-15/raid.py:286-320 | in each branch the I/Os read or write every block needed to compute every parity block written |
| RaidPlan.PiecesPartition | lecture-15/raid.py:333-354 | the stripe pieces of a request are inside their stripes, consecutive, non-empty, and cover it exactly |
| Redundancy.RowRecovers | lecture-15/raid.py:238-283 | a row XORs to zero exactly when any chosen block of it is the XOR of the others |
| Redundancy.SubtractiveIsParity | lecture-15/raid.py:289-299 | old parity adjusted by the changes is the XOR of the new data, if the old parity was right |
| Redundancy.AdditiveIsParity | lecture-15/raid.py:300-310 | combining the unwritten data read with the new data gives the XOR of the new data, whatever the old parity was |
| RaidContents.DiskRecoverable | lecture-15/raid.py:210-283 | at levels 1, 4 and 5 the contents of any single disk can be recomputed from the others |
| RaidContents.ReadPhaseSuffices | lecture-15/raid.py:289-310 | what the read loops fetched and the data loop wrote determines every parity block to write |
| RaidContents.PartialWriteCorrect | lecture-15/raid.py:286-320 | a partial-stripe write stores the new data, leaves other logical blocks alone, and keeps every parity block the XOR of its row |
| DiskTiming.CountsAddUp | lecture-15/raid.py:68-91 | every access is counted once, as sequential, nearly sequential or random |
| DiskTiming.NextAccess | lecture-15/raid.py:68-91 | going from block x to block y costs abs(y - x) transfers if they are on one track of 100 blocks or fewer than 100 apart, counted as sequential exactly for neighbours; otherwise a seek and a transfer, counted as random |
| DiskTiming.CostOfRun | lecture-15/raid.py:68-91 | over any offsets, utilTime is a seek and a transfer for every far access plus a transfer for every block of distance of the near ones, and countRand is the number of far ones |
| DiskTiming.NearCosts | lecture-15/raid.py:68-91 | with the default times, blocks 0 and 50 cost 15.1, and reading the second again nothing |
| DiskTiming.ConsecutiveCost | lecture-15/raid.py:68-91 | strictly consecutive offsets on a fresh disk cost one seek and one transfer each, with one random access |
| DiskTiming.ContiguousOffsets | lecture-15/raid.py:194-206 | under a contiguous level-0 run each disk sees consecutive offsets, each once |
| DiskTiming.StripedRunCost | lecture-15/raid.py:68-91 | so each disk used has one random access and utilTime seekTime + countIO * xferTime, for any start, chunk size and mix |
| DiskTiming.StripedFullRows | lecture-15/raid.py:168-206 | k whole rows of chunks cost every disk one seek and k * chunkSize transfers |
| RaidArray.Disk.Enqueue | lecture-15/raid.py:68-91 | the in-place access updates head, counters and time as the cost model says |
| RaidArray.Raid.DiskCosts | lecture-15/raid.py:68-91 | whatever has been done, each disk's countIO, countRand and utilTime follow from the offsets of its I/Os: 10.1 for a far access and 0.1 for each block of distance of a near one |
| RaidArray.Raid.Go | lecture-15/raid.py:168-174 | the completion time is the largest of the disks' times |
| RaidArray.Raid.Enqueue0 | lecture-15/raid.py:199-208 | a striped request emits its plan; writes change exactly their logical blocks, reads fetch them |
| RaidArray.Raid.Enqueue1 | lecture-15/raid.py:219-236 | a mirrored request emits its plan, writes both copies, reads the copy the offset selects and keeps the mirrors equal; writes change exactly their logical blocks, reads fetch them |
| RaidArray.Raid.ReadForParity | lecture-15/raid.py:289-310 | the read phase emits exactly the reads of its branch and knows their values |
| RaidArray.Raid.WriteParity | lecture-15/raid.py:319-320 | each parity block written is computed from values read or written by the same operation |
| RaidArray.Raid.DoPartialWrite | lecture-15/raid.py:286-320 | the whole routine emits exactly these I/Os in order, stores its data and keeps parity |
| RaidArray.Raid.WriteStripe | lecture-15/raid.py:340-354 | one round of the stripe loop writes exactly the stripe's piece and moves left and begin on |
| RaidArray.Raid.WriteStripes | lecture-15/raid.py:333-354 | the stripe loop writes the whole request, with left at zero at its end |
| RaidArray.Raid.Enqueue45 | lecture-15/raid.py:323-358 | a level-4 or level-5 request stores or fetches its blocks and keeps parity |
| RaidArray.Raid.Enqueue | lecture-15/raid.py:141-165 | one request at any level: the exact I/Os in order (for parity writes its plan), contents, answers and redundancy |
| RaidArray.Raid.ProcessRequests | lecture-15/raid.py:428-441 | over any run of requests each read fetches what was last written to its blocks, redundancy holds at the end, and the I/Os are those of the requests one after another |
| RaidArray.Raid.SequentialWorkload | lecture-15/raid.py:428-444 | the sequential level-0 workload makes each disk seek at most once, and go() return seekTime + k * chunkSize * xferTime over k whole rows |
| SimRequest.NewReqOk | lecture-15/raid-graphics.py:379-455 | a request as set up is in its legal initial state with all its I/Os pending, and where the design puts its block: rows filled from the left, mirrored blocks on disk pairs, level-5 parity one disk further left in each row and skipped by the data |
| SimLayout.SameLayout | lecture-15/raid-graphics.py:381-455 | home, second copy and parity disk of every block are those of raid.py with four disks and one-block chunks, left-asymmetric at level 5 |
| SimLayout.PlacesApart | lecture-15/raid-graphics.py:381-455 | different blocks have different homes, mirrored ones no place in common, no home is a parity block, and parity blocks are shared exactly within a row; mirrored block b is on disks 2 * (b % 2) and the next |
| SimLayout.ParityTurns | lecture-15/raid-graphics.py:430-455 | the blocks of a level-5 row share its parity disk, and any four consecutive rows have their parity on four different disks |
| SimLayout.PlaceUsed | lecture-15/raid-graphics.py:381-455 | each of the twenty rows of each disk is used by some block below the block count, as its home, copy or parity |
| SimRequest.OfferOk | lecture-15/raid-graphics.py:607-755 | whatever a scheduler starts is an I/O the request still needs, on a disk of its list it was not using |
| SimRequest.OfferExactly | lecture-15/raid-graphics.py:607-755 | a disk that asks is given an I/O exactly if the request's history allows it to begin one there, and that one: parity writes start only after both reads have ended, and a mirrored read can start on either disk |
| SimRequest.OfferComplete | lecture-15/raid-graphics.py:607-755 | a request with work left and nothing in flight is accepted by the scheduler of one of its disks |
| SimRequest.CompleteOk | lecture-15/raid-graphics.py:98-132 | each completion leaves one I/O less to finish and reports the request done exactly when none is left |
| SimProofs.HeadMove | lecture-15/raid-graphics.py:581-596 | if the speed divides the distance, each head move brings the head nearer by exactly the seek speed and never past the target |
| SimProofs.FirstUnfinished | lecture-15/raid-graphics.py:768-773 | the first request with pending I/Os always lies inside the scheduling window |
| SimProofs.WindowOffers | lecture-15/raid-graphics.py:768-785 | with work pending and all disks idle, the window offers some disk an I/O |
| SimProofs.TakesFirst | lecture-15/raid-graphics.py:768-785 | an idle disk begins what the first request of the window has for it, changing nothing else, or nothing if none has anything |
| SimProofs.GetNextIOsOk | lecture-15/raid-graphics.py:758-786 | after GetNextIOs the goal is reached or, the goal being right, some disk is busy; the measure does not grow |
| SimTicks.FinishRequest | lecture-15/raid-graphics.py:823-846 | a finished transfer was the in-flight I/O of its request for that disk, so the completion routines' assertion holds |
| SimTicks.TickDiskOk | lecture-15/raid-graphics.py:859-875 | an idle disk does nothing in a tick and, on rows the speed can hit, a busy one uses up the measure; the invariant is kept at any speed |
| SimTicks.TickOk | lecture-15/raid-graphics.py:848-879 | every call of Animate keeps the invariant and, on rows the speed can hit, strictly decreases the measure while the simulation runs |
| SimTicks.ReportedExactlyWhenDone | lecture-15/raid-graphics.py:104-132 | a request is reported at most once, and exactly when the I/Os counted for it are over: two writes for a mirrored write; two reads, then two writes, none begun before both reads ended, for a parity write; a full-stripe data write has then written its data disk exactly if none was begun on the parity disk |
| SimTicks.RunsToCompletion | lecture-15/raid-graphics.py:848-879 | on rows the speed can hit, every live simulation stops within its measure, with request_count at its goal and every request reported once, its counted I/Os over |
| SimSeek.SeekProgress | lecture-15/raid-graphics.py:581-603 | while n moves do not exceed the distance, n ticks of the whole simulation leave the disk seeking the same target, n * seek_speed nearer, whatever the other disks do |
| SimSeek.SeekMisses | lecture-15/raid-graphics.py:859-866 | at a speed that does not divide the distance, the disk is still seeking after any number of ticks and never on its target |
| SimSeek.SeekEndsExactly | lecture-15/raid-graphics.py:581-603 | a seek of the running simulation ends on its target exactly if the seek speed divides the distance, after distance / seek_speed ticks and not before |
| SimHistory.TicksRemember | lecture-15/raid-graphics.py:598-605 | over any ticks the last two targets of a disk are the last two requests it has begun I/Os for, one entry per I/O |
| SimHistory.TicksRest | lecture-15/raid-graphics.py:859-875 | over any ticks an idle head stands on the row of the request served last, or on row 0 |
| SimHistory.TicksCounted | lecture-15/raid-graphics.py:823-830 | over any ticks a disk's read and write counters are the reads and writes that have ended on it, over all requests |
| SimHistory.TicksWindow | lecture-15/raid-graphics.py:840-845 | over any ticks a bounded window has grown by one with every report, and an unbounded one stays unbounded |
| SimService.ServiceEnds | lecture-15/raid-graphics.py:791-819 | an I/O whose seek has a moves left ends after a ticks and one more if its row comes right after that of the request the disk served before, or is row 0 and its first, and ten more if not |
| SimService.ServiceGoesOn | lecture-15/raid-graphics.py:859-870 | and until then nothing is counted for the disk, whatever the other disks do |
| SimFullStripe.NextAtHome | lecture-15/raid-graphics.py:671-690 | GetNextIOs does not start on the parity disk a data write whose data disk is idle and wanted by no earlier request |
| SimFullStripe.ApartStaysHome | lecture-15/raid-graphics.py:671-690 | a data write with no earlier request on its data disk is never begun on the parity disk, over any number of ticks |
| SimFullStripe.NarrowStays | lecture-15/raid-graphics.py:758-786 | with window 1 no data write is ever begun on the parity disk, over any number of ticks |
| SimFullStripe.StolenAtStart | lecture-15/raid-graphics.py:671-690 | with an idle parity disk and only reads before two data writes, one of the reads being on the data disk of one of the writes, GetNextIOs starts one of the writes on the parity disk |
| SimSetup.GoalUpTo | lecture-15/raid-graphics.py:416-428 | marking never leaves the goal above the I/Os needed, and leaves it equal exactly when the marked triples are writes |
| SimSetup.GoalExact | lecture-15/raid-graphics.py:379-435 | request_count_needed is the number of physical I/Os needed exactly when, at level 4, every marked triple is three writes |
| SimSetup.GoalFails | lecture-15/raid-graphics.py:416-428 | three consecutive level-4 reads set the goal to minus five |
| SimRuns.HeadsOnLattice | lecture-15/raid-graphics.py:581-596 | in every state of every run each head is a whole number of moves from row 0 |
| SimRuns.ReportsInRun | lecture-15/raid-graphics.py:104-132 | in every state of every run each request is the one asked for, on the disks and row of the design, reported at most once and exactly when the I/Os counted for it are over |
| SimRuns.GoalMeansDone | lecture-15/raid-graphics.py:823-846 | in every state of every run request_count is all the I/Os the disks have finished and, the goal being right, reaches request_count_needed exactly when all requests are reported |
| SimRuns.EverySeekEnds | lecture-15/raid-graphics.py:859-866 | in every state of a run with the right goal and rows the speed can hit, each seek ends on its target after distance / seek_speed ticks and not before |
| SimRuns.RunRecords | lecture-15/raid-graphics.py:823-875 | in every state of every run targets, resting heads, read and write counters and the window are as the history of the run says |
| SimRuns.ServedInRun | lecture-15/raid-graphics.py:598-605 | what a disk has served stays served, and more is added at the end |
| SimRuns.IOTakes | lecture-15/raid-graphics.py:791-819 | in every run with a right goal, from any tick at which a disk seeks a row the speed can hit: its I/O ends after the moves that are left and then one tick or ten, by the row of the request it served before, at that tick and not sooner |
| SimRuns.SimulationFinishes | lecture-15/raid-graphics.py:532-535 | for any list, mapping, window and seek speed, the simulation stops with every request reported and its counted I/Os over exactly if the speed divides every requested row's distance from row 0 and, at level 4, every marked triple is three writes; and then within 400 ticks per I/O |
| SimRuns.SpeedThreeFails | lecture-15/raid-graphics.py:859-866 | at seek speed 3 a read of a block in row 1 is never reported |
| SimRuns.SimulationCompletes | lecture-15/raid-graphics.py:671-690 | it stops with every write on its data disk as well, if at level 4 the window is 1 or no entry before a marked data write is on its data disk |
| SimRuns.DataReachedExactly | lecture-15/raid-graphics.py:671-690 | with only reads before the marked triple and a window that takes in the list, every write reaches its data disk if and only if no entry before a marked data write is on its data disk |
| SimRuns.FullStripeFails | lecture-15/raid-graphics.py:671-690 | three reads of disk 0 and a full stripe, at the default speed and window: the run finishes, and in no state of it has every write reached its data disk |
| SimRuns.FullStripeParity | lecture-15/raid-graphics.py:416-428 | when a run has completed, a marked triple has written the parity of its first entry's row if and only if its first address is a multiple of three |
| SimRuns.MisalignedStripeFails | lecture-15/raid-graphics.py:416-428 | writes of blocks 1, 2 and 3 complete with the parity of row 0 never written |
| SimRaid.Request.RequestLevel0Done | lecture-15/raid-graphics.py:98-102 | the in-place routine is the value-level one |
| SimRaid.Request.RequestLevel1Done | lecture-15/raid-graphics.py:104-114 | the in-place routine is the value-level one |
| SimRaid.Request.RequestLevel4Done | lecture-15/raid-graphics.py:117-132 | the in-place routine is the value-level one, for reads and both write phases |
| SimRaid.MarkFullStripes | lecture-15/raid-graphics.py:418-428 | the marking loop flags exactly the triples with consecutive addresses and takes eight off the goal for each |
| SimRaid.SetUp | lecture-15/raid-graphics.py:366-455 | the set-up loops build the initial request queue and goal, each request asked for being where the design puts its block |
| SimRaid.Raid.constructor | lecture-15/raid-graphics.py:298-455 | a new simulator is in the initial state |
| SimRaid.Raid.DoStripeScheduling | lecture-15/raid-graphics.py:607-620 | in place, what Offer decides for a striped request |
| SimRaid.Raid.DoMirrorScheduling | lecture-15/raid-graphics.py:622-645 | in place, what Offer decides for a mirrored request |
| SimRaid.Raid.DoRaid4Scheduling | lecture-15/raid-graphics.py:647-709 | in place, what Offer decides at level 4, full-stripe branches included |
| SimRaid.Raid.DoRaid5Scheduling | lecture-15/raid-graphics.py:711-755 | in place, what Offer decides at level 5 |
| SimRaid.Raid.GetNextIOs | lecture-15/raid-graphics.py:758-786 | the nested loops with the window count are the scheduler function |
| SimRaid.Raid.StartTransfer | lecture-15/raid-graphics.py:805-816 | the ticks of the transfer function, which `SimService.ServiceEnds` says are one for the block after the last target and ten for any other |
| SimRaid.Raid.MarkDone | lecture-15/raid-graphics.py:823-846 | counters, request status, window and disk state change together as the completion function says |
| SimRaid.Raid.AnimateDisk | lecture-15/raid-graphics.py:859-875 | one disk's part of Animate is the tick function |
| SimRaid.Raid.Animate | lecture-15/raid-graphics.py:848-879 | the whole call is the tick function |
| SimRaid.AnimateAll | lecture-15/raid-graphics.py:848-879 | ticking the started object until it stops goes through the states of the run, in at most 400 ticks per I/O |
| SimRaid.Simulate | lecture-15/raid-graphics.py:532-535 | set up, start and tick until the animation stops: every request is reported once with the I/Os counted for it made, in at most 400 ticks per I/O; and with every write on its data disk if list and window are safe |
| MapReduce.StrcmpEqual | week-9/sequentual_mapreduce.c:42 | strcmp is zero exactly on equal strings |
| MapReduce.StrcmpPrecedes | week-9/sequentual_mapreduce.c:49-53 | strcmp is negative exactly if the first string is a proper prefix of the second or has the smaller byte where they first differ |
| MapReduce.StrcmpTransitive | week-9/sequentual_mapreduce.c:49-53 | cmp orders keys transitively, strictly if either step is strict |
| MapReduce.KvList.AddToList | week-9/sequentual_mapreduce.c:29-35 | the list keeps the exact emitted sequence; capacity is the initial one times a power of two; all reallocations together move fewer than 2N elements |
| MapReduce.KvList.QSort | week-9/sequentual_mapreduce.c:93 | the list is left a permutation of itself in which no key precedes one before it in that order, nothing more |
| MapReduce.KvList.GetFunc | week-9/sequentual_mapreduce.c:37-47 | the getter yields the next value and moves on exactly if the cursor stands on the key |
| MapReduce.KvList.Drain | week-9/sequentual_mapreduce.c:37-47 | calling the getter with one key until NULL takes exactly the rest of that key's run, and nothing if the cursor is on another key |
| MapReduce.KvList.Reduce | week-9/sequentual_mapreduce.c:104 | a call of any reducer moves the cursor as its getter calls say, and receives exactly the values moved over |
| MapReduce.GroupedByPermutation | week-9/sequentual_mapreduce.c:93 | the grouping depends only on which pairs were emitted, not on the order qsort left |
| MapReduce.GroupStep | week-9/sequentual_mapreduce.c:103-105 | consuming the next run extends the group-by by exactly that key and its values |
| MapReduce.ReduceStep | week-9/sequentual_mapreduce.c:103-105 | a call that takes exactly the group under the cursor adds exactly that group |
| MapReduce.CallTakesGroup | week-9/sequentual_mapreduce.c:37-47 | a call on a group takes exactly that group if and only if its reducer asks often enough for its key and then not for the next |
| MapReduce.OncePerKeyExactly | week-9/sequentual_mapreduce.c:103-105 | for any reducer, the reduce loop ends having made one call per key, in order and with exactly its values, if and only if for every key the reducer asks often enough for it and then not for the next |
| MapReduce.OverrunningReducer | week-9/sequentual_mapreduce.c:37-47 | with keys a and b and a reducer that asks for both, the loop ends and reduce is never called for b |
| MapReduce.DrainersDrain | week-9/sequentual_mapreduce.c:103-105 | a reducer that calls its getter with its own key until NULL meets that condition, whatever was emitted |
| MapReduce.EmittedFrom | week-9/sequentual_mapreduce.c:83-85 | a pair is emitted exactly if the mapper emits it for an argument other than the first |
| MapReduce.MapAll | week-9/sequentual_mapreduce.c:80-85 | the map stage collects exactly the emitted pairs, in order, with fewer than 2N copies |
| MapReduce.ReduceAll | week-9/sequentual_mapreduce.c:101-105 | the reduce stage runs the rounds of the loop with any reducer, and tells whether the loop ends |
| MapReduce.MRRun | week-9/sequentual_mapreduce.c:73-110 | for any mapper and reducer, MR_Run ends with one call per distinct key, in ascending order, a proper prefix before what it is a prefix of, and with exactly the multiset of values emitted for it, if and only if the reducer meets the condition; a draining one does |

## Left out

- Raid.Enqueue: requires that no physical I/O of the request lies beyond block 9999 of a disk; the program's own assertion stops it there.
- Raid.ProcessRequests: requests are arbitrary input; the random request generator, option parsing and printing are not modelled.
- Buffer.DoFill: in the step relation do_fill and do_get are one step each; both run only under the mutex.
- Cond_signal wakes exactly one waiter if there is one; waking more is covered by spurious wakeups.
- Simulate: requires a legal request list, window and seek speed, rows that the speed can hit and marked level-4 triples of writes; `SimulationFinishes` shows that otherwise no run finishes.
- SimulationCompletes: is one direction only. Whether the data disk or the parity disk takes a marked write first depends, in general, on when every earlier transfer ends, so a list that fails the condition can still be lucky; `DataReachedExactly` is the exact form where that does not come in.
- MRRun: a reducer's getter calls depend on the key it is called with, not on the values it receives; a loop in which a call takes nothing runs forever, which the method reports as ended being false.
- SimRaid.Raid: the per-disk dictionaries are one record per disk, which also keeps the history of the requests served, and current and last targets are queue indices; the request queue is visited in index order.
- IOTakes: requires a right goal, since a wrong one can stop the clock with I/Os under way; and a row the speed can hit, since otherwise the seek never ends (`SeekMisses`).
- Parity contents in the disk simulation are not claimed consistent: concurrent writes to one stripe interleave freely.
- The canvas, colours, key bindings, pause and exit, latencies and printed statistics of the disk simulation are user interface.
- Request generation from an address description in the disk simulation; the request list is arbitrary input.
- KvList.Grow: counts every element as moved by each reallocation; malloc and realloc failure and the clock calls are not modelled.
- KvList.QSort: has its own sorting body, but nothing beyond the contract of qsort (section 7.22.5.2 of ISO C11) is used.
- The prior weeks' demos, the xv6 excerpts and the ext2 readers carry no property of this kind; read_ext2.h is not part of this model.
