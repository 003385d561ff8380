# Verified model of TinyQuanta

TinyQuanta schedules microsecond-scale jobs: a compiler pass plants preemption probes in the code
of a job, a server runs jobs as coroutines that yield at those probes, and a modified RocksDB is the
main workload. This project models the parts of the repository whose correctness is least obvious
and proves what they are meant to guarantee. Nothing here executes the original program.

- **Compaction** (`Records`, `LevelCursors`, `SnapshotViews`, `CompactionSteps`, `CompactionBooks`,
  `CompactionFates`, `CompactionIterator`). The iterator that drops hidden versions, obsolete deletions and
  SingleDelete/Put pairs, and squashes sequence numbers, as a class with the fields of the source.
  `Compact` says of every record whether it is output, and that no live snapshot can tell the difference.
- **Subcompactions** (`Subcompactions`, `SubcompactionRuns`), **input files** (`CompactionInputs`) and
  **dictionary sampling** (`DictionarySampling`): how a compaction is chosen, completed, cut into
  pieces and sampled. `CompactInPieces` carries the result about `Compact` over to any cut.
- **SuperVersions** (`SuperVersions`, `SuperVersionSafety`, `SuperVersionCalls`): the lock-free hand-over
  of the current version through thread-local slots, as a step system over all interleavings.
- **Block caches** (`CacheKeys`, `LruState`, `LruSpec`, `LruLinks`, `LruPool`, `HandleTable`,
  `LruShard`; `ClockCache`, `ClockSafety`, `ClockLookups`, `ClockSections`, `ClockScans`, `ClockPins`,
  `ClockPinRun`): the LRU shard as a class that owns its circular list of linked nodes and its chained
  hash table, and the CLOCK cache as a step system over all interleavings of its atomic operations.
- **Probe placement** (`ControlFlow`, `TopoSort`, `Distances`, `DistancesFrom`, `CallDistances`,
  `BlockProbes`, `StretchBounds`, `StretchLimits`, `ProbePlacement`, `GreedyCuts`, `GreedyLoops`,
  `ProbePass`, `WalkBounds`, `LoopLimits`, `ProbeRuns`, `LoopCounters`): depth-first sorting, the three
  longest-path passes, the greedy placement and why each probe is where it is, probes on edges, in
  blocks and in loops, what they mean for the instructions that run between two probes on paths and on
  whole executions, and the induction-variable threshold.
- **Scheduler** (`Scheduler`, `SchedulerSafety`, `SchedulerLosses`, `SchedulerTurns`): dispatcher and
  workers as a step system over all interleavings, exactly when a packet is lost, and in which order
  jobs run.

`Options` and `Arithmetic` hold what several parts share.

`dafny verify dfyconfig.toml` checks everything.

Assumptions that come from the source or its documentation:

- A SingleDelete is used as documented: below it comes nothing, another SingleDelete, or the one Put
  it cancels. Snapshots are ascending, below the largest sequence number, and the write-conflict
  snapshot is not older than the earliest snapshot. No live snapshot has number zero while a record
  has it too; the iterator uses zero for "no earlier snapshot".
- File numbers are unique; below level 0 the files of a level follow one another.
- Back edges are those of a depth-first search, so that forward edges have no reachable cycle;
  `RunToposort` shows that the sort notices any other case.
- Atomic operations are sequentially consistent. User keys are numbers in comparator order. Byte
  counts and counters are natural numbers, ratios and means exact.

Findings about the code:

- The induction-variable threshold is not equivalent to the plain counter for every loop. The pass
  computes step, stride and first threshold as 32-bit integers, and at run time everything wraps at
  the width of the variable. `ThresholdRefinesCounter` gives the exact condition. It can fail only for
  64-bit variables or when a smaller multiple of the step wraps to zero (`NarrowVariablesFit`);
  `LargeInitialValue`, `LargeStep`, `OverflowingThreshold` and `UnmovedThreshold` are failing runs.
- The first greedy loop cannot bound a path that is the entry block alone; `OnlyTheEntryExceeds` says
  exactly when that path exceeds the limit.
- The commit interval bounds paths of blocks. The instructions between two probes can be worth more, for
  two reasons: blocks that reach the interval count as nothing and stick out at the ends of a path
  (`PassOnRow`), and the probe of a branch block is in front of its terminator, which is not counted
  again (`PassOnDiamond`, where no block reaches the interval). `IntervalHoldsExactly` gives the exact
  condition on graph, instruction costs and interval under which the interval does hold between any
  two probes, for all placements that meet what the pass establishes. It is at most the interval plus
  the cost of such a terminator without large blocks (`SmallBlocksKeepTheInterval`), and at most three
  times the interval always (`StretchIsBounded`).
- Loops keep this bounded along whole executions if they are natural loops (`WalksAreBounded`). The pass
  reports other back edges but goes on. It can then cancel the probes of two loops that enter each
  other beside their headers, so that a cycle without any probe remains (`PassOnKnot`).
  `BoundedExactlyIfTame` gives the exact condition on the graph.
- `pinned_usage_` of the CLOCK cache goes wrong when a handle is filled anew between the two steps of an
  Unref: the charge is read too late. `PinnedUsageExactly` says by how much, `SomeRunGoesWrong` shows it.
- A Lookup in the CLOCK cache can miss a key that the table lists all the time: an eviction clears the
  flags of the handle before it erases the entry (`SomeLookupMissesAListedKey`). `LoadSeesTheCache` says
  that this is the only way.
- The scan of the CLOCK cache looks at the usage before each handle but not after the last, so it can give
  up although its last eviction has made room; an insertion is then refused with an empty cache
  (`SomeScanGivesUpInVain`). `GivesUpInVainExactly` gives the exact condition.
- The pass over function calls counts nothing for the block behind a probe, but counts on from there,
  where the pass over costs stops. The model follows the code.
- When a dispatch ring is full, a comment in the server announces that all further packets are
  dropped and a check-in is forced; the code drops the rest of one chunk only and forces nothing
  (`RefusalForcesNothing`). The model follows the code.
- An invalid packet that meets a full return buffer is never freed. This happens exactly when a burst
  holds more invalid packets than the buffer has room for (`DequeueLosesExactly`,
  `PacketsAreLostExactlyBySpills`), and it does happen (`SomeRunLosesAPacket`). Invalid packets are
  never taken off the load that the dispatcher books for a worker (`RunningJobsAreAccounted`).

## Model

| member | source | states |
|---|---|---|
| CompactionIterators.Compact | RocksDB-TQ/db/compaction_iterator.cc:104-619 | For every sorted input: a record is output if and only if the input, and whether its key was output before, say that it stays (hidden versions, obsolete deletions and cancelled pairs go, pairs that a write-conflict snapshot must see stay, the Put of such a pair without its value), each in its place and with its number squashed exactly where allowed; every live snapshot and the tip read every key the same from output plus older data as from input plus older data; and a snapshot not older than the write-conflict snapshot sees a key as written to if and only if it did before |
| CompactionIterators.CompactionIterator.constructor | RocksDB-TQ/db/compaction_iterator.cc:33-88 | A fresh iterator has taken nothing and satisfies the invariant for the whole input |
| CompactionIterators.CompactionIterator.NextFromInput | RocksDB-TQ/db/compaction_iterator.cc:212-575 | From any state of the iterator: either the input is used up with nothing more to present, or exactly one more record is presented and the position has advanced; the invariant on all views, origins, order and write conflicts is kept |
| CompactionIterators.CompactionIterator.ProcessRecord | RocksDB-TQ/db/compaction_iterator.cc:212-575 | One turn of the loop keeps the invariant, makes progress, and presents at most one record, which if its number may be squashed is a value |
| CompactionIterators.CompactionIterator.StartKey | RocksDB-TQ/db/compaction_iterator.cc:258-330 | Moving to another user key, or staying on the current one, keeps the invariant; nothing of the previous key needs hiding any more |
| CompactionIterators.CompactionIterator.StartRecord | RocksDB-TQ/db/compaction_iterator.cc:258-330 | The record faced belongs to the current key and its stripe is known |
| CompactionIterators.CompactionIterator.Stripe | RocksDB-TQ/db/compaction_iterator.cc:316-320 | The earliest view that sees a sequence number, with the next older view |
| CompactionIterators.CompactionIterator.TakeSingleDeletion | RocksDB-TQ/db/compaction_iterator.cc:331-462 | A SingleDelete is skipped, cancelled against its Put, dropped or presented, and all views stay the same |
| CompactionIterators.CompactionIterator.TakeFollowedSingleDeletion | RocksDB-TQ/db/compaction_iterator.cc:362-431 | The same for a SingleDelete followed by an older record of its key: the pair goes unless a write-conflict snapshot must see it, then both stay, the Put without its value; what is decided of every position so far matches its fate |
| CompactionIterators.CompactionIterator.TakeLastSingleDeletion | RocksDB-TQ/db/compaction_iterator.cc:432-462 | The same for a SingleDelete that is the last record of its key in the input |
| CompactionIterators.CompactionIterator.DecideRecord | RocksDB-TQ/db/compaction_iterator.cc:212-575 | The record faced is dropped or presented as its fate says |
| CompactionIterators.CompactionIterator.TakePlainRecord | RocksDB-TQ/db/compaction_iterator.cc:463-565 | A Put or Deletion is dropped as hidden, dropped as obsolete or presented, and all views stay the same |
| CompactionIterators.CompactionIterator.PrepareOutput | RocksDB-TQ/db/compaction_iterator.cc:577-601 | The record presented is the delivered one with its number squashed where allowed; it is never a deletion then, which is the assertion in the source |
| CompactionIterators.CompactionIterator.SeekToFirst | RocksDB-TQ/db/compaction_iterator.cc:104-107 | Presents the first record, or the input yields none |
| CompactionIterators.CompactionIterator.Next | RocksDB-TQ/db/compaction_iterator.cc:109-152 | Presents exactly one further record, or the input is used up |
| CompactionIterators.FindEarliestVisibleSnapshot | RocksDB-TQ/db/compaction_iterator.cc:603-619 | The result is the least view at or above the number, and the second result the greatest view below it |
| CompactionSteps.DropHidden | RocksDB-TQ/db/compaction_iterator.cc:463-475 | Dropping a version hidden by a newer one of the same stripe changes what no view sees |
| CompactionSteps.DropDeletion | RocksDB-TQ/db/compaction_iterator.cc:476-507 | Dropping a deletion marker with nothing beneath it and no snapshot below it changes what no view sees |
| CompactionSteps.SkipSingleDeletion | RocksDB-TQ/db/compaction_iterator.cc:379-388 | Of two SingleDeletes in a row the newer can go |
| CompactionSteps.DropPair | RocksDB-TQ/db/compaction_iterator.cc:389-412 | A SingleDelete and the record it cancels can both go when they are in one stripe |
| CompactionSteps.DropLastSingleDeletion | RocksDB-TQ/db/compaction_iterator.cc:432-458 | The last SingleDelete of a key can go when no deeper level has the key |
| CompactionSteps.Deliver | RocksDB-TQ/db/compaction_iterator.cc:553-565 | Presenting a record, squashed or not, leaves every view as it was |
| CompactionSteps.DeliverCleared | RocksDB-TQ/db/compaction_iterator.cc:321-330 | Presenting the Put below a kept SingleDelete without its value leaves every view as it was |
| CompactionSteps.ForgetKey | RocksDB-TQ/db/compaction_iterator.cc:258-295 | At the end of a key nothing has to be hidden any more |
| CompactionSteps.Finished | RocksDB-TQ/db/compaction_iterator.cc:212-575 | When the input is used up, the presented records together with the older data show every view the same as before |
| CompactionBooks.HiddenKeepsReady | RocksDB-TQ/db/compaction_iterator.cc:463-475 | Dropping a hidden version keeps views, order, origins and write-conflict detection |
| CompactionBooks.ObsoleteDeletionKeepsReady | RocksDB-TQ/db/compaction_iterator.cc:476-507 | Dropping an obsolete deletion keeps them all |
| CompactionBooks.SkipKeepsReady | RocksDB-TQ/db/compaction_iterator.cc:379-388 | Skipping the newer of two SingleDeletes keeps them all |
| CompactionBooks.PairKeepsReady | RocksDB-TQ/db/compaction_iterator.cc:389-412 | Dropping a pair keeps them all, provided the key has been output or the pair is older than the write-conflict snapshot |
| CompactionBooks.PairDeliveryKeepsReady | RocksDB-TQ/db/compaction_iterator.cc:413-431 | Presenting the SingleDelete of a pair that a write-conflict snapshot must see keeps them all |
| CompactionBooks.LastSingleDropKeepsReady | RocksDB-TQ/db/compaction_iterator.cc:432-458 | Dropping the last SingleDelete keeps them all |
| CompactionBooks.LastSingleDeliveryKeepsReady | RocksDB-TQ/db/compaction_iterator.cc:432-462 | Presenting the last SingleDelete keeps them all |
| CompactionBooks.DeliveryKeepsReady | RocksDB-TQ/db/compaction_iterator.cc:553-565 | Presenting a record keeps the output strictly sorted even after squashing |
| CompactionBooks.ClearedDeliveryKeepsReady | RocksDB-TQ/db/compaction_iterator.cc:321-330 | The record presented without its value is a Put in the stripe of its SingleDelete, and everything is kept |
| CompactionBooks.ConflictsAtEnd | RocksDB-TQ/db/compaction_iterator.cc:389-431 | At the end a write-conflict snapshot notices exactly the writes it would have noticed in the input |
| CompactionFates.OutputIsDetermined | RocksDB-TQ/db/compaction_iterator.cc:212-601 | There is only one output that gives every position its fate |
| CompactionFates.NothingObsoleteIsKept | RocksDB-TQ/db/compaction_iterator.cc:331-507 | In the output no deletion is left that may go, no last SingleDelete that may go, and no record that a newer one hides from all snapshots, except the one a kept SingleDelete cancels |
| CompactionFates.OldPairsVanish | RocksDB-TQ/db/compaction_iterator.cc:389-412 | A SingleDelete not newer than the write-conflict snapshot and the record it cancels leave no trace |
| CompactionFates.KeptPairsAreNew | RocksDB-TQ/db/compaction_iterator.cc:413-431 | A SingleDelete output right above the record it cancels is newer than the write-conflict snapshot, the first of its key in the output, and the record follows it |
| SnapshotViews.WhenSquashed | RocksDB-TQ/db/compaction_iterator.cc:577-601 | A sequence number may be squashed, and a marker dropped, if and only if every view sees the record, its number need not be preserved, and nothing older can come from below |
| SnapshotViews.SameViewsMeansSameReads | RocksDB-TQ/db/compaction_iterator.cc:212-619 | Equal observations at all views are equal point reads |
| LevelCursors.AdvanceCursor | RocksDB-TQ/db/compaction.cc:290-302 | The cursor of one level moves to the first file that ends at or after the key, and reports a file whose range contains the key if and only if there is one |
| LevelCursors.KeyNotExistsBeyondOutputLevel | RocksDB-TQ/db/compaction.cc:277-307 | True if and only if no file of a level beyond the output level has a range containing the key |
| LevelCursors.QueryAscending | RocksDB-TQ/db/compaction.cc:277-307 | Any non-decreasing sequence of queries that shares one set of cursors gets exactly the stateless answers |
| SuperVersionSafety.EveryRunIsSafe | RocksDB-TQ/db/column_family.cc:1013-1150 | For any number of threads and any interleaving: a version counts exactly the references of the current pointer, slots, readers and the installer; it is cleaned up at most once, never while anybody refers to it, and once nobody does it has been or exactly one party is about to |
| SuperVersionSafety.HeldStaysIntact | RocksDB-TQ/db/column_family.cc:1013-1068 | What a reader has been given is referenced and not cleaned up, for as long as it holds it |
| SuperVersionCalls.ReaderIsUpToDate | RocksDB-TQ/db/column_family.cc:1027-1068 | For every run and every Swap in it: whatever happens between the Swap and the moment the reader has its version, that version is not older than the one whose number was current before the Swap |
| SuperVersionCalls.ReturnKeepsTheCache | RocksDB-TQ/db/column_family.cc:1072-1088 | For every run: after a call that comes to its return the slot caches the version returned if and only if no install scraped the slot since the Swap; otherwise it stays obsolete and the thread gives its reference up |
| SuperVersionCalls.CachedCall | RocksDB-TQ/db/column_family.cc:1027-1066 | A call alone, with the current version cached, gives that version without the mutex, and returning it restores the state |
| SuperVersionCalls.UncachedCall | RocksDB-TQ/db/column_family.cc:1042-1068 | A call alone, with nothing cached, gives the current version with one reference more, which returning leaves in the slot |
| SuperVersionCalls.ReferencedCall | RocksDB-TQ/db/column_family.cc:1013-1025 | GetReferencedSuperVersion hands out one reference beside that of the slot, and giving it back undoes exactly this |
| SuperVersionCalls.InstallOnItsOwn | RocksDB-TQ/db/column_family.cc:1096-1150 | An install alone makes a new version current under the next number with one reference, leaves every slot obsolete and every reader where it was, and drops exactly the references of the column family and of the slots to the old version, which is cleaned up at once if these were all |
| SuperVersionCalls.NothingLeaks | RocksDB-TQ/db/column_family.cc:382-398 | From any state reached with idle readers, no install under way and all references given back: once the threads have exited, the current version has one reference and every older one has been cleaned up exactly once |
| SuperVersionSafety.ScrapedSlotsAreCurrent | RocksDB-TQ/db/column_family.cc:1134-1150 | Once the slots have been scraped, a cached version is the current one |
| SuperVersionSafety.AssertionsHold | RocksDB-TQ/db/column_family.cc:1040-1150 | In every state of the invariant: the slot swapped out is not in use, the compare-and-swap that fails finds an obsolete slot, references dropped as not the last are not, and what is cleaned up has no reference left and was not cleaned up before |
| SuperVersionSafety.StepKeepsInv | RocksDB-TQ/db/column_family.cc:347-398 | Every atomic step of readers, exiting threads and the installer keeps the invariant |
| SuperVersionSafety.RunKeepsInv | RocksDB-TQ/db/column_family.cc:1013-1150 | Every run keeps the invariant and meets all assertions on its way |
| SuperVersionSafety.ReleaseKeepsAccounts | RocksDB-TQ/db/db_impl.cc:2011-2029 | Dropping a reference, at a stale slot, after a failed return, by a reader or at thread exit, keeps the count and makes exactly the last holder responsible |
| SuperVersionSafety.ScrapeKeepsAccounts | RocksDB-TQ/util/thread_local.cc:438-450 | Taking a version out of a slot moves its reference to the installer |
| SuperVersionSafety.PublishKeepsAccounts | RocksDB-TQ/db/column_family.cc:1096-1132 | Installing a version gives it one reference and leaves the older ones as they were |
| TopoSort.RunToposort | CheapPreemptions/src/CheapPreemption.cpp:126-158 | Succeeds if and only if no cycle of forward edges is reachable from the entry; then lists each reachable block once, successors before predecessors |
| TopoSort.TopoSorter.RecursiveDfs | CheapPreemptions/src/CheapPreemption.cpp:159-186 | From an unvisited block: lists it after everything it reaches and adds nothing else, or a cycle is reachable from the root |
| ControlFlow.PathGoesDown | CheapPreemptions/src/CheapPreemption.cpp:124-186 | Along every path positions in the list strictly decrease |
| ControlFlow.TopoListIsClosed | CheapPreemptions/src/CheapPreemption.cpp:124-186 | What a listed block reaches is listed |
| ControlFlow.TopoListHasNoCycle | CheapPreemptions/src/CheapPreemption.cpp:124-186 | A list in that order exists only if there is no cycle |
| ControlFlow.HasPredecessor | CheapPreemptions/src/CheapPreemption.cpp:124-186 | Every listed block but the entry has a forward predecessor later in the list |
| Distances.GenerateDistanceMap | CheapPreemptions/src/CheapPreemption.cpp:452-509 | Every listed block gets exactly the maximum total cost over all unbroken paths that end in it, and the result is the overall maximum |
| Distances.RelaxEdge | CheapPreemptions/src/CheapPreemption.cpp:470-503 | One edge: its target is at least as far as the edge makes it, only entries earlier in the list rise, and the running maximum is the maximum |
| Distances.RelaxBlock | CheapPreemptions/src/CheapPreemption.cpp:462-505 | All edges of a block, with the blocks before it done |
| Distances.SolvedIsLongest | CheapPreemptions/src/CheapPreemption.cpp:452-509 | Distances that satisfy every edge and are explained by their predecessor are the longest ones |
| DistancesFrom.LongestDistanceFrom | CheapPreemptions/src/CheapPreemption.cpp:418-450 | Every block gets exactly the maximum cost over unbroken paths from the given start, and zero when every path is broken |
| DistancesFrom.SolvedFromIsLongest | CheapPreemptions/src/CheapPreemption.cpp:418-450 | The same characterisation for one start block |
| GreedyCuts.DecideInstLocations | CheapPreemptions/src/CheapPreemption.cpp:511-532 | Follows the unbroken path that the predecessors spell and instruments the edge of it where its cost reaches the threshold, or ends at its first block, which alone reaches it |
| GreedyCuts.EndToEndReason | CheapPreemptions/src/CheapPreemption.cpp:1306-1354 | Along the first greedy loop only probes are added, and for each there is an earlier placement at which a longest unbroken path from entry to exit was too long and reached the limit on just this edge, or the entry block alone reached it |
| GreedyCuts.AnywhereReason | CheapPreemptions/src/CheapPreemption.cpp:1355-1387 | The same for the second loop and the longest unbroken path from anywhere |
| GreedyLoops.BoundDistances | CheapPreemptions/src/CheapPreemption.cpp:1355-1387 | Terminates; goes through a chain of placements, each the one before with one probe more, where a longest unbroken path, longer than the interval, reaches it; leaves no unbroken path of more than the interval; the fallback for a large block is never taken |
| GreedyLoops.MaximumBounds | CheapPreemptions/src/CheapPreemption.cpp:1355-1387 | A maximum of longest distances bounds every unbroken path |
| GreedyLoops.LongestToExit | CheapPreemptions/src/CheapPreemption.cpp:1323-1334 | The longest distance to an exit block |
| GreedyLoops.BoundEndToEnd | CheapPreemptions/src/CheapPreemption.cpp:1306-1354 | Terminates; goes through a chain of placements, each the one before with one probe more, where a longest unbroken path from entry to exit, longer than the limit, reaches it, or at the end with all edges of an entry block that alone reaches the limit; leaves no unbroken path from entry to exit of more than the limit; the path which is the entry block alone is exempt: no edge could bound it |
| GreedyLoops.OnlyTheEntryExceeds | CheapPreemptions/src/CheapPreemption.cpp:1306-1354 | After it, some unbroken path from entry to exit exceeds the limit if and only if the entry block itself returns and costs more than the limit |
| GreedyLoops.InstrumentEntryEdges | CheapPreemptions/src/CheapPreemption.cpp:1339-1353 | Exactly the edges out of the entry block that had no probe get one, and nothing else changes |
| GreedyLoops.WalkIsLongestEndToEnd | CheapPreemptions/src/CheapPreemption.cpp:1314-1339 | The path walked back is a longest unbroken path from entry to exit |
| GreedyLoops.WalkIsLongest | CheapPreemptions/src/CheapPreemption.cpp:1362-1372 | The path walked back is a longest unbroken path of all |
| ProbePass.ChainsAreNeeded | CheapPreemptions/src/CheapPreemption.cpp:1299-1389 | Every probe on a forward edge, on it or in its block, has such a reason |
| ProbePass.MergeIntoBlockProbes | CheapPreemptions/src/CheapPreemption.cpp:1091-1117 | A block gets a probe in place of its edges if and only if it branches and all its edges are probed; exactly the same edges are probed as before, so no unbroken path is added |
| ProbePass.ProbeOrUnbroken | CheapPreemptions/src/CheapPreemption.cpp:1170-1194 | Every forward path meets a probe or is an unbroken path of positive cost |
| ProbePass.ZeroMeetsProbe | CheapPreemptions/src/CheapPreemption.cpp:1170-1194 | A longest distance of zero means that every forward path between the two blocks meets an instrumented edge, an instrumented block or a zero-cost block |
| ProbePass.LoopCostIsBounded | CheapPreemptions/src/CheapPreemption.cpp:1227-1244 | A loop cost that is not zero is at most the interval |
| ProbePass.NumIters | CheapPreemptions/src/CheapPreemption.cpp:1235-1244 | The greatest number of iterations that is at least one, keeps the loop within the interval, and beyond one within the call threshold, also when no calls are counted |
| ProbePass.PlaceLoopProbes | CheapPreemptions/src/CheapPreemption.cpp:1163-1244 | Every back edge with a probe is cancelled with every header-to-latch path meeting a probe, or gets the greatest rate that keeps the longest unbroken header-to-latch path within the interval and the most calls on it within the threshold, both computed here |
| ProbePass.CancelBackEdges | CheapPreemptions/src/CheapPreemption.cpp:1184-1194 | Exactly the cancelled back edges lose their probe |
| BlockProbes.CostMap | CheapPreemptions/src/CheapPreemption.cpp:1464-1477 | Every block cost is below the interval and is the whole cost of the block or zero; it is zero exactly for the blocks without cost and for those that reach the interval |
| BlockProbes.ProbeWithin | CheapPreemptions/src/CheapPreemption.cpp:1268-1288 | The greedy probes: inside a block each stretch between two probes, or a probe and an end, stays below the interval or is one instruction; with the next instruction it would reach it; a block that reaches the interval has a probe |
| BlockProbes.GreedyIsSpaced | CheapPreemptions/src/CheapPreemption.cpp:1268-1288 | The same for the recursive definition of the greedy probes, which the loop computes |
| BlockProbes.ProbeLargeBlocks | CheapPreemptions/src/CheapPreemption.cpp:1268-1288 | Exactly the blocks of cost zero are probed within |
| BlockProbes.UnprobedInstructions | CheapPreemptions/src/CheapPreemption.cpp:1268-1288 | Any instructions of a block with no probe between them stay below the interval or are a single one |
| StretchBounds.StretchOverBlocks | CheapPreemptions/src/CheapPreemption.cpp:1204-1288 | Instructions that run over several blocks without a probe cost at most the interval plus what sticks out into a first block with a probe of its own and into a last block probed within |
| StretchBounds.StretchIsBounded | CheapPreemptions/src/CheapPreemption.cpp:1204-1288 | Instructions worth at most the interval run between two probes when no such block is at the ends, and at most three times the interval always, if no single instruction is worth more than one |
| StretchBounds.SmallBlocksKeepTheInterval | CheapPreemptions/src/CheapPreemption.cpp:1204-1288 | If no block reaches the interval and the terminators of branches are worth at most t, instructions worth at most the interval plus t run between two probes |
| StretchLimits.LeftExactlyIfLeavable | CheapPreemptions/src/CheapPreemption.cpp:1204-1288 | A stretch of instructions over several blocks is left without a probe by some placement that meets what the pass establishes, if and only if a condition on graph, instruction costs and interval holds: it avoids the probes within large blocks, its blocks fit the interval (or those behind a branch do), and a branch it ends behind can keep an open edge |
| StretchLimits.IntervalHoldsExactly | CheapPreemptions/src/CheapPreemption.cpp:1204-1288 | For every function: all placements that meet what the pass establishes keep instructions worth at most the interval between any two probes, if and only if no instruction and no such stretch is worth more |
| ProbeRuns.PassOnRow | CheapPreemptions/src/CheapPreemption.cpp:1928-1950 | A run of the pass, interval ten, that leaves 27 between two probes: the rest of one large block, a block, and the start of another large block |
| ProbeRuns.DiamondStretch | CheapPreemptions/src/CheapPreemption.cpp:1091-1117 | A function no block of which reaches the interval of ten, for which every placement leaves 14: the terminator of the branch behind the probe of its block, and the next block |
| ProbeRuns.PassOnDiamond | CheapPreemptions/src/CheapPreemption.cpp:1928-1950 | A run of the pass on it |
| WalkBounds.SilentWalksAreBounded | CheapPreemptions/src/CheapPreemption.cpp:1163-1266 | Whole executions: along any walk of forward and back edges with natural loops, from any block and any loop counters, what runs before the next probe costs at most the interval and twice the interval per back edge |
| WalkBounds.WalksAreBounded | CheapPreemptions/src/CheapPreemption.cpp:1204-1288 | The same for instructions: at most three times the interval and twice the interval per back edge |
| WalkBounds.PlaceProbesForWalks | CheapPreemptions/src/CheapPreemption.cpp:1928-1950 | The whole pass establishes this bound for every function with natural loops |
| WalkBounds.StepRound | CheapPreemptions/src/CheapPreemption.cpp:1170-1194 | What ran round a loop is an unbroken path from its header to its latch, so the loop has a counter and its cost pays for it |
| WalkBounds.StepOut | CheapPreemptions/src/CheapPreemption.cpp:1170-1194 | A walk leaves each loop that it started in only once |
| LoopLimits.BoundedExactlyIfTame | CheapPreemptions/src/CheapPreemption.cpp:1163-1266 | For every graph: all placements that meet what the pass establishes, whatever the blocks cost, have a bound on what runs between two probes along every execution, if and only if every round walk contains, over its own edges, a forward path from the target of one of its back edges to the source |
| LoopLimits.TameIsBounded | CheapPreemptions/src/CheapPreemption.cpp:1163-1266 | The bound for such graphs: intervals times blocks times one more than what the counters allow |
| LoopLimits.NotTameIsUnbounded | CheapPreemptions/src/CheapPreemption.cpp:1163-1266 | For any other graph a placement, with one instruction per block, under which no bound holds |
| LoopLimits.NaturalIsTame | CheapPreemptions/src/CheapPreemption.cpp:1163-1266 | Natural loops satisfy the condition |
| ProbeRuns.PassOnKnot | CheapPreemptions/src/CheapPreemption.cpp:1908-1925 | A function with a back edge whose target does not dominate its source: the pass cancels both loop probes, and walks of any cost meet no probe |
| CallDistances.CallCostMap | CheapPreemptions/src/CheapPreemption.cpp:1479-1510 | Per block the calls to unknown or instrumented functions, or a mark if one of them always probes |
| CallDistances.MostCallsFrom | CheapPreemptions/src/CheapPreemption.cpp:384-416 | For every block exactly the maximum number of calls counted over all ways from the start: along a path without a probe from the start, or after the first block behind a probe |
| CallDistances.SolvedIsMost | CheapPreemptions/src/CheapPreemption.cpp:384-416 | Numbers that satisfy every edge and are attained by some way are that maximum |
| ProbePass.StartEdges | CheapPreemptions/src/CheapPreemption.cpp:365-382 | Exactly the back edges start out with a loop probe |
| ProbePass.PlaceProbes | CheapPreemptions/src/CheapPreemption.cpp:1928-1950 | The whole pass on any function whose forward edges have no reachable cycle: every reachable unbroken path costs at most the interval; every unbroken path from entry to exit costs at most its limit or is the entry block alone; every back edge is probed at the greatest rate within the interval and the call threshold, or crossed by another probe; block probes are exactly where all edges of a branch were to be probed; every probe of a forward edge cuts a path that was a longest one and too long at an earlier placement, just where it reaches the limit, or is one of an entry block that alone reaches it; where nothing exceeds the limits no forward edge gets a probe; and the three bounds on instructions between two probes hold, under conditions on the function alone |
| LoopCounters.ThresholdRefinesCounter | CheapPreemptions/src/CheapPreemption.cpp:764-829 | For every possible sequence of loop executions the threshold, with its residual carried over in a nest, fires on exactly the back edges the plain counter would, if and only if the stride and the first threshold, which the pass computes in 32 bits, are congruent to the intended ones at the width of the variable and no multiple of the step below the iteration count wraps to zero |
| LoopCounters.WatchIsCount | CheapPreemptions/src/CheapPreemption.cpp:764-829 | Within one execution both fire on the same back edges, and the threshold stays the remaining iterations ahead of the variable |
| LoopCounters.EntryIsAhead | CheapPreemptions/src/CheapPreemption.cpp:798-829 | The threshold stored on entry, from a constant or a variable initial value, in a nest or not, is ahead by the iterations still to go |
| LoopCounters.TripsAgree | CheapPreemptions/src/CheapPreemption.cpp:856-887 | The residual saved at exit carries the remaining iterations to the next execution |
| LoopCounters.SavedResidual | CheapPreemptions/src/CheapPreemption.cpp:872-887 | What is stored at exit is, in the width of the variable, step times the iterations remaining |
| LoopCounters.WrongLead | CheapPreemptions/src/CheapPreemption.cpp:808-826 | If the first threshold is not the intended one, the first n back edges fire wrongly |
| LoopCounters.WrongStride | CheapPreemptions/src/CheapPreemption.cpp:856-870 | If the stride is not the intended one, the second n back edges fire wrongly |
| LoopCounters.EarlyFire | CheapPreemptions/src/CheapPreemption.cpp:856-870 | If a smaller multiple of the step wraps to zero, the probe fires among the first n - 1 back edges |
| LoopCounters.NarrowVariablesFit | CheapPreemptions/src/CheapPreemption.cpp:347-347 | For variables of up to 32 bits the conversions to int do no harm, whatever the step and the initial value |
| LoopCounters.SmallConstantsFit | CheapPreemptions/src/CheapPreemption.cpp:808-826 | Nor do they when step, stride, constant initial value and first threshold are all within the range of int |
| LoopCounters.FittingStepsDoNotWrap | CheapPreemptions/src/CheapPreemption.cpp:856-870 | No early wrap-around when the steps between two probes fit the width of the variable |
| LoopCounters.LargeInitialValue | CheapPreemptions/src/CheapPreemption.cpp:808-814 | A 64-bit variable that starts at 2^40: no early wrap-around, yet the probe misses |
| LoopCounters.LargeStep | CheapPreemptions/src/CheapPreemption.cpp:347-347 | A step of 2^40: the stride becomes zero |
| LoopCounters.OverflowingThreshold | CheapPreemptions/src/CheapPreemption.cpp:813-814 | An initial value just below 2^31: the first threshold overflows |
| LoopCounters.UnmovedThreshold | CheapPreemptions/src/CheapPreemption.cpp:867-870 | The first threshold is right but the stride is zero, so the second round is wrong |
| LruShards.AnyRun | RocksDB-TQ/cache/lru_cache.cc:120-450 | Any run of calls from an empty shard: following the next pointers of the circular list gives exactly the handles in the cache that no client holds, split at the low-priority mark into the two pools, and following prev the same backwards; the buckets hold exactly the table; usage is the sum of the charges of all allocated handles, pinned usage that of those off the list, and the capacity is exceeded only while the list is empty; every handle made is allocated or was freed once, by a call before which no client held it except for a reference that the call gave back |
| LruShards.Do | RocksDB-TQ/cache/lru_cache.cc:120-439 | Every call keeps the invariant, and a handle is freed only when its clients hold nothing of it or give back the last reference |
| LruShards.LRUCacheShard.constructor | RocksDB-TQ/cache/lru_cache.cc:102-116 | An empty shard satisfies the invariant |
| LruShards.LRUCacheShard.LruRemove | RocksDB-TQ/cache/lru_cache.cc:183-197 | On the pointers: the entry leaves the circle, the sums and the low-priority mark follow |
| LruShards.LRUCacheShard.LruInsertHigh | RocksDB-TQ/cache/lru_cache.cc:199-212 | The entry becomes the newest of the circle and joins the high-priority pool, which is then trimmed |
| LruShards.LRUCacheShard.LruInsertLow | RocksDB-TQ/cache/lru_cache.cc:213-221 | The entry comes right behind the low-priority mark, which moves on to it |
| LruShards.LRUCacheShard.LruInsert | RocksDB-TQ/cache/lru_cache.cc:199-222 | The entry goes to the young end or to the pool boundary, by priority and hit; in the first case the pool is trimmed by as few entries as needed; exactly the list of evictable handles results, split into the two pools |
| LruShards.LRUCacheShard.MaintainPoolSize | RocksDB-TQ/cache/lru_cache.cc:224-232 | Terminates within the list, moves the boundary entry by entry, no further than needed, until the high-priority pool fits, and changes nothing but pool flags |
| LruShards.LRUCacheShard.Evict | RocksDB-TQ/cache/lru_cache.cc:234-247 | The oldest entry leaves circle, table and usage, and the invariant is kept |
| LruShards.LRUCacheShard.EvictFromLRU | RocksDB-TQ/cache/lru_cache.cc:234-247 | Evicts the fewest of the oldest entries whose charges make room, or all: they leave list, table, usage and memory, and everything else is as before |
| LruShards.LRUCacheShard.SetCapacity | RocksDB-TQ/cache/lru_cache.cc:249-262 | The same for the new capacity |
| LruShards.LRUCacheShard.Lookup | RocksDB-TQ/cache/lru_cache.cc:269-281 | Returns the handle of the key if and only if the table has one, marks it hit, takes it off the list, counts one more client, and changes nothing else |
| LruShards.LRUCacheShard.Ref | RocksDB-TQ/cache/lru_cache.cc:283-291 | Counts one more client and takes the handle off the list, and changes nothing else |
| LruShards.LRUCacheShard.SetHighPriorityPoolRatio | RocksDB-TQ/cache/lru_cache.cc:293-298 | The high-priority pool is trimmed to its new limit by as few entries as needed; order, usage and table are unchanged |
| LruShards.LRUCacheShard.Unref | RocksDB-TQ/cache/lru_cache.cc:120-124 | The counter stays what clients hold plus one for the cache; reports the last reference |
| LruShards.LRUCacheShard.Release | RocksDB-TQ/cache/lru_cache.cc:300-336 | The handle is freed if and only if it was the last client and the entry was erased, the cache is over capacity or erasing was asked for; otherwise the last client puts it back on the list, where its priority and hits say; nothing else changes |
| LruShards.LRUCacheShard.Erase | RocksDB-TQ/cache/lru_cache.cc:416-439 | The key leaves the table; its handle is freed if and only if no client holds it, and stays with its clients otherwise; nothing else changes |
| LruShards.LRUCacheShard.EraseUnRefEntries | RocksDB-TQ/cache/lru_cache.cc:128-149 | Evicts exactly the handles on the list |
| LruShards.LRUCacheShard.Insert | RocksDB-TQ/cache/lru_cache.cc:338-414 | Rejects if and only if the referenced entries leave no room and the limit is strict or no handle is wanted. Freed are the fewest of the oldest entries that make room, then the replaced entry if no client holds it; usage falls by their charges and rises by the new one; the new handle has exactly the key, charge and priority given and no hit; a replaced entry that clients hold stays with them; every other handle, table entry and client count is as before; and the list is the old one without those, with the new entry where its priority says unless a client gets it |
| LruShards.LRUCacheShard.Free | RocksDB-TQ/cache/lru_cache.h:108-114 | Exactly under the condition the source asserts, and off the list, the handle and its node are given back and recorded as freed |
| LruShards.LRUCacheShard.Acquire | RocksDB-TQ/cache/lru_cache.cc:269-291 | A client more; a handle that no client held leaves the list |
| LruShards.LRUCacheShard.Detach | RocksDB-TQ/cache/lru_cache.cc:388-398 | The entry under a key leaves the table; evicted if and only if no client holds it, else it only loses the reference of the cache |
| LruShards.LRUCacheShard.MakeWay | RocksDB-TQ/cache/lru_cache.cc:387-398 | The entry of the key, if there is one, is given up in this way, and nothing else changes |
| LruSpecs.MakesWay | RocksDB-TQ/cache/lru_cache.cc:367-398 | After eviction and replacement together: freed, usage, handles, table and list, as Insert states them, in terms of the state before |
| LruSpecs.InsertedAfter | RocksDB-TQ/cache/lru_cache.cc:367-405 | The same with the new entry taken in |
| LruSpecs.OneLess | RocksDB-TQ/cache/lru_cache.cc:234-247 | One eviction more is the same as evicting one entry more at once |
| LruLinks.LruList.Oldest | RocksDB-TQ/cache/lru_cache.cc:234-240 | The entry after the dummy head is the oldest |
| LruLinks.LruList.Remove | RocksDB-TQ/cache/lru_cache.cc:183-197 | On the pointers: the circle without the entry, with the low-priority mark moved if it pointed at it |
| LruLinks.LruList.InsertHigh | RocksDB-TQ/cache/lru_cache.cc:199-212 | On the pointers: the entry comes last in the circle |
| LruLinks.LruList.InsertLow | RocksDB-TQ/cache/lru_cache.cc:213-221 | On the pointers: the entry comes behind the low-priority mark, which moves on to it |
| LruLinks.LruList.Overflow | RocksDB-TQ/cache/lru_cache.cc:224-232 | On the pointers: the mark moves to the next entry and never onto the dummy head |
| LruPools.PoolList.Remove | RocksDB-TQ/cache/lru_cache.cc:183-197 | The pool of a shard: one node per handle; its circle spells the list without the entry |
| LruPools.PoolList.InsertHigh | RocksDB-TQ/cache/lru_cache.cc:199-212 | Its circle spells the list with the entry last |
| LruPools.PoolList.InsertLow | RocksDB-TQ/cache/lru_cache.cc:213-221 | Its circle spells the list with the entry behind the mark |
| LruPools.PoolList.Overflow | RocksDB-TQ/cache/lru_cache.cc:224-232 | The entry behind the mark joins the low-priority pool, the list is the same |
| LruPools.PoolList.Walk | RocksDB-TQ/cache/lru_cache.cc:162-175 | Following next from the dummy head until it comes round, and counting up to the mark, gives the list and the size of the low-priority pool |
| LruPools.PoolList.WalkBack | RocksDB-TQ/cache/lru_cache.cc:183-197 | Following prev gives the list backwards |
| HandleTables.HandleTable.FindPointer | RocksDB-TQ/cache/lru_cache.cc:68-74 | Finds the place of the key in the bucket that masking its hash selects if and only if the map has it, else the end of the chain |
| HandleTables.BucketIsRemainder | RocksDB-TQ/cache/lru_cache.cc:68-74 | For a power-of-two length the bucket, the hash masked bit by bit with the length less one, is the remainder by the length |
| HandleTables.HandleTable.Lookup | RocksDB-TQ/cache/lru_cache.cc:38-40 | The map lookup |
| HandleTables.HandleTable.Insert | RocksDB-TQ/cache/lru_cache.cc:42-56 | The map with the entry; returns the entry replaced; on average at most one entry per bucket afterwards |
| HandleTables.HandleTable.Remove | RocksDB-TQ/cache/lru_cache.cc:58-66 | The map without the key; returns the entry removed |
| HandleTables.HandleTable.Resize | RocksDB-TQ/cache/lru_cache.cc:76-100 | The same map over a power-of-two number of buckets, at least one and a half per entry |
| HandleTables.NewLength | RocksDB-TQ/cache/lru_cache.cc:77-80 | The least power of two from 16 that is at least one and a half times the number of entries |
| ClockSafety.EveryRunMeetsItsAssertions | RocksDB-TQ/cache/clock_cache.cc:404-676 | Along every interleaving: a handle being recycled is out of the cache, without references and not yet recycled; references dropped were there; the handle evicted is found in the table; the scan stays within the list |
| ClockSafety.HeldHandlesStay | RocksDB-TQ/cache/clock_cache.cc:611-645 | What Lookup or Insert handed out is pinned, not recycled since it was filled, and keeps the key asked for until released, whatever the other threads do |
| ClockSafety.UsageIsLiveCharge | RocksDB-TQ/cache/clock_cache.cc:404-415 | Whenever the mutex is free, usage is the sum of the charges of all handles outside the recycle bin |
| ClockSafety.TableListsTheCache | RocksDB-TQ/cache/clock_cache.cc:541-585 | Whenever the mutex is free, a handle is in the cache if and only if the table lists it under its key |
| ClockSafety.EvictionMakesRoom | RocksDB-TQ/cache/clock_cache.cc:500-585 | Eviction reports success only if the charge fits, and an entry is added without room only with a reference kept and no strict limit |
| ClockSafety.LastOneRecycles | RocksDB-TQ/cache/clock_cache.cc:448-498 | A handle is recycled exactly once per filling, by the thread whose step left it out of the cache without references, never before |
| ClockSafety.OnlyOneIsResponsible | RocksDB-TQ/cache/clock_cache.cc:448-498 | No two threads are ever to recycle the same handle |
| ClockSafety.NothingIsLost | RocksDB-TQ/cache/clock_cache.cc:404-676 | When no call is in progress every handle is in the cache, held by clients, or in the recycle bin |
| ClockSafety.StepKeepsInv | RocksDB-TQ/cache/clock_cache.cc:404-676 | Every atomic step of every thread keeps the invariant, among them those of Ref by a client that holds a handle already |
| ClockSafety.RefKeepsItsHandle | RocksDB-TQ/cache/clock_cache.cc:428-446 | While a client calls Ref on a handle it holds, the handle is pinned, not recycled, and keeps its key, whatever the other threads do |
| ClockSafety.RefAddsOneInTheCache | RocksDB-TQ/cache/clock_cache.cc:428-446 | The step that ends Ref leaves the client its reference, and a second, counted one of the same key if and only if the entry is in the cache then |
| ClockSafety.AssertionsHold | RocksDB-TQ/cache/clock_cache.cc:404-524 | The assertions hold in every state of the invariant |
| ClockPins.PinnedUsageExactly | RocksDB-TQ/cache/clock_cache.cc:428-468 | Over every interleaving, at rest pinned_usage_ is what the referenced handles are charged less exactly what refills put wrong: for every handle filled anew, the change of its charge times the number of threads between the two steps of an Unref of it; so it is right if and only if these add up to zero |
| ClockPins.PinnedUsageWithoutRefills | RocksDB-TQ/cache/clock_cache.cc:448-468 | It is right whenever no handle is filled anew between the two steps of an Unref of it |
| ClockPins.StepChangesError | RocksDB-TQ/cache/clock_cache.cc:428-585 | Step by step: only such a refill changes the error |
| ClockPinRun.SomeRunGoesWrong | RocksDB-TQ/cache/clock_cache.cc:448-468 | An interleaving of two threads after which nothing is referenced and pinned_usage_ is four below zero |
| ClockSafety.LookupKeepsHandle | RocksDB-TQ/cache/clock_cache.cc:428-446 | Finding, reading and the compare-and-swap that adds a reference keep the accounts of every handle, also when the handle has been filled anew meanwhile |
| ClockSafety.CheckKeyKeepsHandle | RocksDB-TQ/cache/clock_cache.cc:622-634 | A reference to a handle of another key is dropped again, one to the right key goes to the client |
| ClockSafety.ReleaseKeepsHandle | RocksDB-TQ/cache/clock_cache.cc:448-468 | Dropping a reference makes the dropper responsible exactly when it was the last of an erased entry |
| ClockSafety.UnsetKeepsHandle | RocksDB-TQ/cache/clock_cache.cc:470-483 | Clearing the in-cache bit makes the section responsible exactly when nobody holds a reference |
| ClockSafety.TryEvictKeepsHandle | RocksDB-TQ/cache/clock_cache.cc:485-498 | A handle is evicted only from the state in the cache, unused and unreferenced, in one atomic step |
| ClockSafety.RecycleKeepsHandle | RocksDB-TQ/cache/clock_cache.cc:404-415 | Recycling ends the responsibility |
| ClockSafety.TakeKeepsHandle | RocksDB-TQ/cache/clock_cache.cc:555-572 | A handle taken from the bin or appended is owned by the section alone until its flags are set |
| ClockSafety.SectionKeepsUsage | RocksDB-TQ/cache/clock_cache.cc:404-585 | Usage and the charges of live handles differ only by the charge a section is adding or taking off |
| ClockLookups.LookupAlone | RocksDB-TQ/cache/clock_cache.cc:611-634 | For every reachable state: a Lookup that nothing interrupts returns the handle that the table lists, with one reference more counted, and changes nothing else, unless an eviction of that handle is under way |
| ClockLookups.LookupAmongOthers | RocksDB-TQ/cache/clock_cache.cc:611-634 | For every interleaving: the last step of a Lookup hands out exactly a reference to the handle that its first step found, or it gives up, and then the table does not list the handle under the key at that step, or an eviction of it is under way |
| ClockLookups.LoadSeesTheCache | RocksDB-TQ/cache/clock_cache.cc:428-434 | Where the table lists the handle found, a Lookup gives up at reading its flags if and only if an eviction of the handle is under way |
| ClockLookups.FindMisses | RocksDB-TQ/cache/clock_cache.cc:612-615 | A Lookup comes back at once, with the state unchanged, if and only if the table lacks the key |
| ClockLookups.SomeLookupMissesAListedKey | RocksDB-TQ/cache/clock_cache.cc:485-494 | A reachable state in which a Lookup misses a key that the table lists under the same handle throughout |
| ClockLookups.RefAlone | RocksDB-TQ/cache/clock_cache.cc:428-446 | Ref alone: one reference more if the entry is in the cache, else none, and nothing else changes |
| ClockLookups.ReleaseAlone | RocksDB-TQ/cache/clock_cache.cc:448-468 | Release alone: the entry is marked used and has one reference less; the thread is to recycle it if and only if that was the last one of an erased entry |
| ClockSections.RecyclesAlone | RocksDB-TQ/cache/clock_cache.cc:460-465 | Which it does: into the bin, and off the usage |
| ClockSections.EraseAlone | RocksDB-TQ/cache/clock_cache.cc:647-664 | Erase alone: the key leaves the table and its handle the cache; the handle is recycled at once if and only if nobody references it |
| ClockSections.ClearAlone | RocksDB-TQ/cache/clock_cache.cc:666-676 | EraseUnRefEntries alone: the table is empty, every handle out of the cache, recycled if nobody references it |
| ClockSections.InsertAlone | RocksDB-TQ/cache/clock_cache.cc:541-585 | Insert alone: the scan makes what room it can; then, unless it has given up and the limit is strict or no handle wanted, the entry of the same key makes way, a handle from the bin or a new one is filled with key, charge and flags, the table lists it and usage grows by its charge |
| ClockSections.ShrinkAlone | RocksDB-TQ/cache/clock_cache.cc:526-534 | SetCapacity alone: the new capacity, and what room the scan can make |
| ClockSections.ScansAlone | RocksDB-TQ/cache/clock_cache.cc:500-524 | The steps of the section, taken alone, make up the scan: at most twice round from the head |
| ClockScans.ScanGivesUp | RocksDB-TQ/cache/clock_cache.cc:500-524 | The scan succeeds only when the charge fits, and gives up only when everything still in the cache is referenced |
| ClockScans.ScanGivesSecondChance | RocksDB-TQ/cache/clock_cache.cc:485-524 | Referenced entries stay, and an entry that was used goes only if all go that were neither used nor referenced |
| ClockScans.SucceedsExactly | RocksDB-TQ/cache/clock_cache.cc:500-524 | The scan succeeds if and only if the charge fits once all entries are gone that are not referenced, except the one just before the head if that was used |
| ClockScans.GivesUpInVainExactly | RocksDB-TQ/cache/clock_cache.cc:509-521 | It gives up with room after all if and only if the charge fits without all those entries but not with that one |
| ClockScans.SomeScanGivesUpInVain | RocksDB-TQ/cache/clock_cache.cc:515-521 | A reachable state in which an insertion evicts the only entry and then gives up although the cache is empty |
| CompactionInputs.SanitizeCompactionInputFiles | RocksDB-TQ/db/compaction_picker.cc:885-944 | If accepted, the result is the least set that contains the request and is complete; nothing in it is being compacted and its key range meets no compaction writing to the output level. An abort means that every complete set is blocked, or a requested file from below the output level is being compacted, or no requested file is down to that level and a compaction writing to it covers the empty key; bad arguments and unknown files are refused |
| CompactionInputs.SanitizeForAllLevels | RocksDB-TQ/db/compaction_picker.cc:750-883 | Each level is closed in turn: everything selected is forced, the key range is exactly spanned by selected files, and all overlapping files down to the output level are selected |
| CompactionInputs.CompleteIsClosed | RocksDB-TQ/db/compaction_picker.cc:856-875 | In a complete set, with a file all files having a key in its range are included, in its level and every deeper one down to the output level |
| CompactionInputs.IncludeLevel | RocksDB-TQ/db/compaction_picker.cc:773-875 | One level: what is added belongs to every complete set, the new range contains all selected files of the level, and covers the levels below |
| CompactionInputs.FindIncluded | RocksDB-TQ/db/compaction_picker.cc:775-794 | The first and last requested file of a level |
| CompactionInputs.Expand | RocksDB-TQ/db/compaction_picker.cc:796-818 | Neighbours linked by shared keys, and no further |
| CompactionInputs.Include | RocksDB-TQ/db/compaction_picker.cc:820-828 | All files of the span, unless one is being compacted |
| CompactionInputs.NewBounds | RocksDB-TQ/db/compaction_picker.cc:830-850 | The range grows to contain the span, and both ends are attained |
| CompactionInputs.IncludeBelow | RocksDB-TQ/db/compaction_picker.cc:852-875 | All overlapping files of the level and those below, and nothing a covering set would lack |
| CompactionInputs.GapIsInside | RocksDB-TQ/db/compaction_picker.cc:852-875 | A file added beside the span lies in the gap, inside the range |
| CompactionInputs.SpanForced | RocksDB-TQ/db/compaction_picker.cc:773-828 | The files of the span belong to every complete set |
| CompactionInputs.HaveOverlappingKeyRanges | RocksDB-TQ/db/compaction_picker.cc:726-747 | The four comparisons hold if and only if some key lies in both ranges |
| CompactionInputs.RangeOverlapWithCompaction | RocksDB-TQ/db/compaction_picker.cc:260-274 | True if and only if a running compaction writes to that level in an overlapping range |
| Subcompactions.GenSubcompactionBoundaries | RocksDB-TQ/db/compaction_job.cc:451-566 | Boundaries are strictly increasing keys of input files; there is one size more than boundaries and no more than the limit when that exceeds one; sizes add up to the total; every piece but the last is the shortest run of ranges reaching the mean, and with fewer pieces than the limit the last does not reach it before its last range |
| Subcompactions.LevelBounds | RocksDB-TQ/db/compaction_job.cc:461-493 | Exactly both keys of every level-0 file, the end keys of other levels, and the first keys of the output level |
| Subcompactions.CollectBounds | RocksDB-TQ/db/compaction_job.cc:459-494 | Exactly the candidate keys of the levels from start to output |
| Subcompactions.SortUnique | RocksDB-TQ/db/compaction_job.cc:496-509 | The same keys, strictly increasing |
| Subcompactions.RangeSizes | RocksDB-TQ/db/compaction_job.cc:510-527 | One estimate per pair of neighbours, and their total |
| Subcompactions.MaxOutputFiles | RocksDB-TQ/db/compaction_job.cc:529-541 | The least number of files, filled to four fifths, that holds the data |
| Subcompactions.Group | RocksDB-TQ/db/compaction_job.cc:542-562 | Each closed piece reaches the mean and would not without its last range; the last takes the rest, which unless the limit is used up does not reach the mean before its last range |
| Subcompactions.Limit | RocksDB-TQ/db/compaction_job.cc:529-541 | The largest number not above the ranges and the option, such that one output file less would not hold the data |
| Subcompactions.PiecesPartition | RocksDB-TQ/db/compaction_job.cc:426-431 | Every user key is in exactly one piece |
| SubcompactionRuns.ProcessRange | RocksDB-TQ/db/compaction_job.cc:873-918 | A subcompaction writes what the compaction of the input from its start on would output, exactly as stated there, up to the first record at or past its end; every view of a key in the range reads the same as from the whole input |
| SubcompactionRuns.CompactInPieces | RocksDB-TQ/db/compaction_job.cc:424-431 | However the key space is cut, the output is what the subcompactions give one after the other, each exactly as stated; together they preserve every view, every write conflict and the order of the output |
| SubcompactionRuns.Seek | RocksDB-TQ/db/compaction_job.cc:873-881 | Everything skipped is before the start, everything from there on is not |
| DictionarySampling.SampleFile | RocksDB-TQ/db/compaction_job.cc:941-988 | However the file is cut into keys and values, the bytes collected are the samples cut out of the whole, in order |
| DictionarySampling.SampleElement | RocksDB-TQ/db/compaction_job.cc:944-987 | One key or value, also an empty one: the sample at hand never ends before it, as the source asserts, and what is collected matches the data so far |
| DictionarySampling.SampleOffsets | RocksDB-TQ/db/compaction_job.cc:835-855 | The scaled draws as an ordered set; samples never overlap |
| SchedulerSafety.EveryPacketIsInOnePlace | tq_server.cpp:1209-1336 | Over all interleavings every received packet is in exactly one place: with the dispatcher, in a ring, with a coroutine, in a return buffer, freed, or lost |
| SchedulerLosses.EveryPacketIsLiveOrLost | tq_server.cpp:1209-1336 | The packets received are, each once, those pending, held or freed together with those lost |
| SchedulerLosses.PacketsAreLostExactlyBySpills | tq_server.cpp:961-1001 | Over every run, no packet is lost if and only if no burst ever held more invalid packets than the return buffer had room for |
| SchedulerLosses.NoPacketIsLostWithoutSpills | tq_server.cpp:961-1001 | In such a run every received packet is pending, held or freed, in exactly one place |
| SchedulerLosses.DequeueLosesExactly | tq_server.cpp:961-1001 | A burst loses exactly the invalid packets beyond the room in the return buffer, and some if and only if there are more of them than room |
| SchedulerLosses.SomeRunLosesAPacket | tq_server.cpp:978-985 | A run from the start that loses a packet |
| SchedulerSafety.RunningJobsAreAccounted | tq_server.cpp:1226-1336 | The load booked for a worker is ring plus busy coroutines plus jobs finished but not yet read plus all invalid packets; the total is the sum over the workers |
| SchedulerSafety.CheckInVisitsEachWorkerOnce | tq_server.cpp:1297-1336 | The worker on top of the queue has the current version and has not been visited, and at the end all have been |
| SchedulerSafety.LeastLoadedGetsTheChunk | tq_server.cpp:175-184 | A chunk may go to a worker if and only if no other has less load booked; a chunk is at most the dispatch unit |
| SchedulerSafety.SomeoneIsOnTop | tq_server.cpp:175-184 | The order of the queue always has a greatest worker |
| SchedulerSafety.WorkersNeverOverflow | tq_server.cpp:876-1036 | Idle and busy coroutines are the pool, each once; a finishing job finds room in both buffers; a burst finds a coroutine per packet |
| SchedulerSafety.LostPacketsAreInvalid | tq_server.cpp:978-985 | Only an invalid packet can be lost; when one is lost is stated by DequeueLosesExactly and PacketsAreLostExactlyBySpills |
| SchedulerSafety.StepKeepsInv | tq_server.cpp:876-1336 | Every step of the dispatcher or of a worker keeps the invariant |
| SchedulerSafety.QuantumKeeps | tq_server.cpp:884-951 | Running a quantum, finished or not, moves the job without losing or duplicating it |
| SchedulerSafety.DequeueKeeps | tq_server.cpp:961-1001 | A burst from the ring: every packet gets a coroutine, is set aside in the return buffer, or is an invalid one recorded as lost; none appears twice |
| SchedulerSafety.SendKeepsInv | tq_server.cpp:1226-1275 | What the ring does not take is freed, what it takes is booked |
| SchedulerSafety.RefusalForcesNothing | tq_server.cpp:1247-1270 | When a ring refuses part of a chunk, that part is freed, the check-in counter stays, the next chunk can be sent, and after the last one no check-in is forced |
| SchedulerSafety.TopIsNotVisited | tq_server.cpp:1300-1304 | The assertion of the check-in loop |
| SchedulerTurns.BurstGoesFirst | tq_server.cpp:961-1001 | A burst puts its valid packets, in the order of the ring, in front of all jobs under way, whose order it keeps, on the coroutines that became idle last |
| SchedulerTurns.JobKeepsItsTurn | tq_server.cpp:884-931 | In every interleaving a busy job has in front of it the jobs that were there and all admitted since, less one for every quantum given |
| SchedulerTurns.TurnComes | tq_server.cpp:884-947 | So a job at position p is resumed with the quantum number p plus the jobs admitted meanwhile, counted from zero, and no other; then it finishes or goes to the back |
| SchedulerTurns.PacketsKeepTheirOrder | tq_server.cpp:1226-1275 | Over all interleavings every ring holds packets in order of arrival, before all those still to be sent; and whenever the dispatcher receives, no check-in is due |
| SchedulerTurns.AnswersDoNotWait | tq_server.cpp:1007-1017 | Over all interleavings, answers that wait when a worker starts its loop over have waited for less than a period and are fewer than a burst |
| SchedulerTurns.AnswersGoOutExactly | tq_server.cpp:1007-1017 | In a turn of its loop a worker sends its answers exactly if it has run out of jobs, has given a period of quanta since it sent some, or has a burst of them |
| SchedulerTurns.IdleWorkerCatchesUp | tq_server.cpp:953-1036 | A worker out of jobs takes up as many packets as it has coroutines, and with answers to send sends them all and gives back every packet it has finished with |

## Left out

- Merge operands, range tombstones, compaction filters, snapshot checkers, corrupt keys, shutdown and
  iteration statistics in the compaction iterator: their code is supplied by users or elsewhere.
- CompactionInputs.SanitizeCompactionInputFiles: the closure is stated for the levels down to the output level, which is where the code looks.
- Subcompactions.GenSubcompactionBoundaries: the size estimate is a function of user keys, and the arithmetic on means and file counts is exact rather than in floating point.
- SubcompactionRuns.ProcessRange: opening, filling and closing output files is not modelled, only the stream of records written.
- SchedulerSafety.EveryPacketIsInOnePlace: a lost packet counts as a place, because the code does not free every invalid packet; `SchedulerLosses` separates the lost ones and says exactly when there are any.
- LoopCounters.ThresholdRefinesCounter: overflow of the pass's own signed arithmetic is modelled as wrap-around, and nested self-loops, which the pass clones and for which it saves no residual here, are not covered.
- GreedyLoops.BoundEndToEnd: exempts the path that is the entry block alone, because the code does; `OnlyTheEntryExceeds` says exactly when that path exceeds the limit.
- ProbePass.PlaceProbes: has the same exemption.
- BlockProbes.ProbeWithin: works on the instructions of the original block; for a block that also has a probe in front of its terminator, the code has inserted that probe before.
- StretchBounds.StretchIsBounded: is about stretches over forward edges and one way; `StretchLimits.IntervalHoldsExactly` has both directions and `WalkBounds` the back edges.
- StretchLimits.IntervalHoldsExactly: quantifies over all placements that meet what the pass establishes; which of them the greedy loops pick is not part of the condition.
- WalkBounds.WalksAreBounded: assumes natural loops, which is what the loop analysis of the compiler provides; the exact condition for some bound to exist is that of `LoopLimits.BoundedExactlyIfTame`.
- SchedulerSafety.LostPacketsAreInvalid: one direction only; the exact condition is that of `SchedulerLosses.DequeueLosesExactly`.
- SchedulerSafety.DequeueKeeps: a lost packet stays in a history field, because the code forgets it; how many are lost is stated in `SchedulerLosses`.
- SchedulerSafety.RunningJobsAreAccounted: the 16-bit difference taken at check-in is modelled without truncation.
- The step systems for SuperVersions, the CLOCK cache and the scheduler work on values: update in place and memory ordering weaker than sequential consistency are not captured.
- ClockSafety.StepKeepsInv: `pinned_usage_` is not part of this state but of the one in `ClockPins`, which adds its steps; it is an unbounded integer there, where the code has an unsigned one that wraps. Releasing with `force_erase` is a release followed by an erase of the key that the thread reads from the handle, and the steps allow an erase of any key there.
- ClockLookups.LookupAmongOthers: is about the steps up to the check of the key; the reference to a handle of another key is then dropped by the steps of a release, without setting the usage bit, which the invariant covers.
- ClockSections.InsertAlone: and its neighbours are about calls that no other thread interrupts; what holds in every interleaving is in `ClockSafety`.
- The LRU shard names handles by number and keeps their data in a map, beside the linked nodes and the buckets, which hold the numbers; the table detaches an old entry before the new one is put in, where the code replaces it in one call.
- Sharding of the caches, printing of options, and iteration over all cache entries.
- The LAS, RAND_DISP, MSQ and return-ring variants of the server, packet headers, the network card and the coroutine library; starvation freedom is not claimed, because new jobs go to the front.
- Emission of LLVM code, loop unrolling, cloning of self-loops, recursion probes, and cost files; the costs of instructions and what is known of called functions are inputs.
- The level, FIFO and universal pickers beyond input sanitizing, options handling, the C interface and debugging wrappers.
