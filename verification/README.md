# Verified models of the DeviceFs cores

This project models the parts of DeviceFs in which a wrong branch would go unnoticed, and proves what they are for.
Every result is stated for all inputs and, where threads are involved, for every interleaving.

* **Filesystem verifier.** Two filesystems, a synthetic one and a real one, are traversed by racing workers
  (`Traversal`), joined path by path into a list of findings and a plan of reads (`MergeJoin`, `Plan`,
  `PlanProperties`), compared by racing workers (`Workers`), and every finding is counted (`Ledger`). `Verdict`,
  `JoinEvidence` and `Soundness` put the parts together: if the printed status is VERIFIED, the two filesystems agree,
  provided every file's data is connected through comparisons that count. `Completeness`, `Exactness` and
  `Counterexample` show that this proviso is exact and not idle. `Agreement` is the other direction: filesystems that
  agree are accused in no run, and can end in VERIFIED.
  `Observation` is the progress report that is copied while all of this goes on.
* **Dirty maps.** `BitmapSets` is the set of block offsets kept as 64-bit words; `AllocationChanges` scans two
  allocation bitmaps with the carry trick of `Bits`; `SveReduction` reduces a bitmap on vectors of any width; `DirtyMap`
  builds the map of changed blocks and reduces it to PBS chunks; `SnapshotScan` compares two whole snapshots with four
  workers.
* **Text measurement.** `Utf16` decodes and encodes; `Graphemes` segments text that arrives in pieces;
  `GraphemeBoundaries` says where clusters begin without following a state.
* **VSS component selection.** `ComponentSelection` runs the passes that decide which components are backed up;
  `SelectionOutcome` says what they come to in terms of the writers before the first pass.
* **Read executor.** `ReadExecutor` is the submit, run, complete and reply protocol of the Samba helper; `ReadReplies`
  says what each caller is told.

Concurrent code is a transition system: a run is a sequence of steps chosen by any scheduler, sections under a mutex
are one step, and cancellation or an exception may come between any two steps. Code that changes things in place is
imperative Dafny, proved against functions about which the laws are then proved. A mounted volume is an oracle with one
fixed answer, a value or a failure, for each path and operation. `Arithmetic` holds facts about quotients and products,
`Common` what several modules share.

## Where the code does not do what one might expect

* Of all pairs with the same two file identities only the first by path is read, and if that link lies in System Volume
  Information the read does not count. `Counterexample.VerifiedDespiteDifference` is a volume with such a file: its
  traversals, its inventories and its comparison end in VERIFIED although the file differs.
  `Exactness.TrustedIffConnected` is the exact condition: VERIFIED is right about every pair of volumes with the given
  inventories if and only if `Soundness.DataConnected` holds of the inventories. That asks of every pair outside the
  exclusion that has data that its two files are linked by a chain of reads that count. A pair whose first link lies
  outside the exclusion is linked by one such read (`Soundness.FirstLinksOutsideConnect`); `Soundness.VerifiedMeansEqual`
  is the direction a user relies on.
* Plan totals are 64-bit and wrap. `PlanProperties.WrappedTotalsHideLeftOutTasks` takes the plan of an inventory with
  streams of 2^64 bytes and one more chunk, leaves out 2^64 bytes and still finds equal totals;
  `PlanProperties.TotalsAgreeModulo` is the exact condition. A full comparison does not depend on it, and a sample does
  not below 2^64 bytes, which is what `Soundness.TotalsTell` says.
* A string view that begins below and ends at or above the address where the last cluster ended is not read from its
  beginning. `Graphemes.ReusedBufferVanishes` is the ordinary case, a second string in the buffer of the first, of which
  nothing is reported; `Graphemes.ReportCarriesOnIff` and `Graphemes.ReadStringsIff` say that the segmentation is
  carried on exactly when this does not happen. A cut through a surrogate pair changes the decoding
  (`Utf16.DecodeConcatIff`).
* The comment on `GraphemeState::width` promises a width of at most two. That holds of grapheme mode
  (`Graphemes.SegmentTilesText`). In wcswidth mode it holds exactly when the configured ambiguous width is at most two
  or the text has no ambiguous code point (`Graphemes.WcswidthIsNarrowIff`); `Graphemes.WideClusterInWcswidth` is one
  that is three wide.

## Model

| member | source | states |
|---|---|---|
| `Soundness.VerifiedMeansEqual` | src/modules/supervisor/native_backup/filesystem_verifier_impl.cpp:2001-2132 | for every interleaving of both traversals and of the comparison workers, and every outcome of the random draws, a status of VERIFIED means that every object outside System Volume Information exists on both sides with one kind and either fails alike or has the same streams, lengths and bytes, when the data of every such pair is connected through reads that count |
| `Agreement.VerifiedIffEqual` | src/modules/supervisor/native_backup/filesystem_verifier_impl.cpp:2001-2132 | with the data connected, some run of the comparison ends in VERIFIED if and only if the filesystems agree |
| `Agreement.NoFalseAlarms` | src/modules/supervisor/native_backup/filesystem_verifier_impl.cpp:1942-1999 | whatever the draws, the schedule, cancellation and failures, no moment of a comparison of agreeing filesystems counts a mismatch |
| `Agreement.StatusTellsTruth` | src/modules/supervisor/native_backup/filesystem_verifier_impl.cpp:2613-2650 | each status in every run: no mismatch for filesystems that agree, incomplete exactly when the comparison did not finish, and for a full comparison that finished VERIFIED or MISMATCH as the filesystems agree or not |
| `Exactness.TrustedIffConnected` | src/modules/supervisor/native_backup/filesystem_verifier_impl.cpp:1692-1709 | that condition is exact: VERIFIED is right about all volumes with the same inventories if and only if the data of every pair that matters is connected |
| `Exactness.ExchangeGoesUnnoticed` | src/modules/supervisor/native_backup/filesystem_verifier_impl.cpp:1942-1999 | replacing the data of any set of files that no counted read separates leaves the inventories and the VERIFIED status as they are |
| `Exactness.UnreachedPairGoesUnnoticed` | src/modules/supervisor/native_backup/filesystem_verifier_impl.cpp:1692-1709 | for a pair with data that no chain of counted reads reaches there are volumes with the same inventories that differ and still end in VERIFIED |
| `Completeness.QuietComparisonEndsVerified` | src/modules/supervisor/native_backup/filesystem_verifier_impl.cpp:1942-1999 | when neither the join nor any planned read finds a difference, there is a run of the workers that ends in VERIFIED |
| `Soundness.VerifiedIsClean` | src/modules/supervisor/native_backup/filesystem_verifier_impl.cpp:2613-2650 | VERIFIED means that every possible read was planned, carried out and accepted, that no record of any kind accuses, and that both namespaces were seen completely |
| `Soundness.CleanMeansAgreement` | src/modules/supervisor/native_backup/filesystem_verifier_impl.cpp:1577-1722 | a comparison without an accusing record means that the volumes agree, in both directions, when the data is connected |
| `Soundness.CleanPairAgrees` | src/modules/supervisor/native_backup/filesystem_verifier_impl.cpp:1663-1711 | whatever the inventories and volumes, a joined pair outside the exclusion in a comparison without an accusing record has one kind, matching failures and equal stream lists, and equal chunks where it is the pair that is read |
| `Soundness.FirstLinksOutsideConnect` | src/modules/supervisor/native_backup/filesystem_verifier_impl.cpp:1692-1709 | the data is connected when the first link of every pair that matters lies outside the exclusion |
| `Soundness.MetObjectsAgree` | src/modules/supervisor/native_backup/filesystem_verifier_impl.cpp:1663-1711 | two objects met by the join agree in kind, in failures, and in streams and data, also when the data was read through another link |
| `Soundness.SyntheticObjectIsMet` | src/modules/supervisor/native_backup/filesystem_verifier_impl.cpp:1619-1662 | without an accusing record every synthetic object outside the exclusion is matched with a real one |
| `Soundness.RealObjectIsMet` | src/modules/supervisor/native_backup/filesystem_verifier_impl.cpp:1619-1662 | and every real object with a synthetic one |
| `JoinEvidence.QuietPair` | src/modules/supervisor/native_backup/filesystem_verifier_impl.cpp:1663-1711 | a pair about which nothing accusing was recorded has one kind, matching failures and, if compared, identical stream lists |
| `Agreement.QuietPairIff` | src/modules/supervisor/native_backup/filesystem_verifier_impl.cpp:1663-1711 | nothing that counts is recorded of a matched pair exactly when it has one kind, each operation failed on neither side or alike on both, and compared stream lists are equal |
| `JoinEvidence.MissingStreamIff` | src/modules/supervisor/native_backup/filesystem_verifier_impl.cpp:1497-1543 | a stream is reported missing from a side exactly when that side lacks its name |
| `JoinEvidence.LengthReportIff` | src/modules/supervisor/native_backup/filesystem_verifier_impl.cpp:1514-1546 | two streams of one name are reported, with both lengths, exactly when the lengths differ |
| `JoinEvidence.OnlyFirstLinkIsRead` | src/modules/supervisor/native_backup/filesystem_verifier_impl.cpp:1692-1709 | of all pairs with the same two file identities, only the first eligible one is planned |
| `JoinEvidence.ReadAccountablyIff` | src/modules/supervisor/native_backup/filesystem_verifier_impl.cpp:1692-1709 | the data of a linked pair is read under a path that counts exactly when the first such pair lies outside System Volume Information and has something to read |
| `JoinEvidence.ExcludedTasksNeverAccuse` | src/modules/supervisor/native_backup/filesystem_verifier_impl.cpp:1769-1862 | a task under an excluded path is accepted and records nothing that counts, whatever the data |
| `Counterexample.VerifiedDespiteDifference` | src/modules/supervisor/native_backup/filesystem_verifier_impl.cpp:1692-1709 | a volume whose root and System Volume Information directory link one file, traversed and compared by runs of the model, ends in VERIFIED although the file differs outside the exclusion |
| `JoinEvidence.PlannedTasksFit` | src/modules/supervisor/native_backup/filesystem_verifier_impl.cpp:1547-1569 | every planned task indexes objects and streams that exist and has bytes to read |
| `Verdict.TraversalYieldsTruth` | src/modules/supervisor/native_backup/filesystem_verifier_impl.cpp:1046-1084 | the sorted inventory of any finished traversal has strictly increasing paths and holds exactly the volume's objects, failures and gaps |
| `Verdict.InventoryFailuresAreTrue` | src/modules/supervisor/native_backup/filesystem_verifier_impl.cpp:1378-1408 | the failures the join consults for an object are exactly those the volume gives for it |
| `Verdict.AcceptedChunkAgrees` | src/modules/supervisor/native_backup/filesystem_verifier_impl.cpp:1769-1862 | an accepted read that recorded nothing accusing compared equal bytes, or the same failure on both sides |
| `Agreement.AgreeingChunkIsQuiet` | src/modules/supervisor/native_backup/filesystem_verifier_impl.cpp:1769-1862 | conversely a chunk whose bytes or failures agree is accepted and nothing that counts is recorded |
| `Filesystem.ChildPathInjective` | src/modules/supervisor/native_backup/filesystem_verifier_impl.cpp:859-870 | paths built from names without a separator determine parent and name |
| `MergeJoin.JoinIsExact` | src/modules/supervisor/native_backup/filesystem_verifier_impl.cpp:1619-1662 | on strictly sorted keys the join reports an entry one-sided exactly when the other side lacks its key, and pairs entries exactly when their keys are equal |
| `MergeJoin.JoinVisitsOnce` | src/modules/supervisor/native_backup/filesystem_verifier_impl.cpp:1514-1574 | the join touches every entry of either side exactly once |
| `MergeJoin.AllPairedMeansEqual` | src/modules/supervisor/native_backup/filesystem_verifier_impl.cpp:1514-1574 | a join with no one-sided visit has equal key sequences on both sides, paired index by index |
| `Plan.FailuresForObject` | src/modules/supervisor/native_backup/filesystem_verifier_impl.cpp:1378-1408 | the cursor returns every failure of the path, passes no issue of a later path, and stops at the first one |
| `Plan.SuppressedIsExcluded` | src/modules/supervisor/native_backup/filesystem_verifier_impl.cpp:1425-1447 | with a complete surface, whatever is suppressed below an incomplete directory is excluded itself |
| `Plan.RecordInventoryOperationComparison` | src/modules/supervisor/native_backup/filesystem_verifier_impl.cpp:1410-1423 | one comparison is recorded when at least one side failed, and none otherwise; `Agreement.QuietPairIff` says when it counts |
| `Plan.AppendChunks` | src/modules/supervisor/native_backup/filesystem_verifier_impl.cpp:1547-1569 | the loop hands over exactly the chunks of the stream, in order |
| `Plan.AppendStreamTasks` | src/modules/supervisor/native_backup/filesystem_verifier_impl.cpp:1497-1575 | the stream loop records and plans exactly what the join of the two stream lists calls for |
| `Plan.PlanBuilder.AddTask` | src/modules/supervisor/native_backup/filesystem_verifier_impl.cpp:1595-1613 | whatever the draws, the totals are those of the candidates and of the selection modulo 2^64 and a fallback candidate is kept |
| `Plan.PlanBuilder.Finish` | src/modules/supervisor/native_backup/filesystem_verifier_impl.cpp:1717-1721 | the plan selects from the candidates, all of them for a full comparison, and at least one whenever there is any |
| `Plan.BuildComparisonPlan` | src/modules/supervisor/native_backup/filesystem_verifier_impl.cpp:1577-1722 | unless cancelled, the findings recorded and the tasks offered are exactly those of the reference join, visit by visit, and the result is a plan over them |
| `PlanProperties.ChunksTile` | src/modules/supervisor/native_backup/filesystem_verifier_impl.cpp:1547-1569 | every byte of a stream lies in exactly one chunk, no other position in any, and no chunk exceeds 4 MiB |
| `PlanProperties.TotalsAgreeModulo` | src/modules/supervisor/native_backup/filesystem_verifier_impl.cpp:1595-1613 | selected and available bytes agree exactly when the lengths left out add up to a multiple of 2^64 |
| `PlanProperties.EqualTotalsMeanEverythingSelected` | src/modules/supervisor/native_backup/filesystem_verifier_impl.cpp:2640-2650 | below 2^64 bytes, equal totals mean that every candidate was selected, and conversely |
| `PlanProperties.WrappedTotalsHideLeftOutTasks` | src/modules/supervisor/native_backup/filesystem_verifier_impl.cpp:1595-1613 | the plan of an inventory with four streams of 2^62 bytes and one of a chunk, in which the one chunk is selected, 2^64 bytes are left out and the totals are equal |
| `PlanProperties.MissingFromRealReportedOnce` | src/modules/supervisor/native_backup/filesystem_verifier_impl.cpp:1632-1651 | a synthetic object the real side lacks is reported exactly once, or not at all below a directory the real side could not read; a shared path is never reported missing |
| `PlanProperties.MissingFromSyntheticReportedOnce` | src/modules/supervisor/native_backup/filesystem_verifier_impl.cpp:1623-1662 | the same for real objects |
| `Traversal.WorkerLeavesOnlyWhenDone` | src/modules/supervisor/native_backup/filesystem_verifier_impl.cpp:1109-1130 | in every run a worker leaves for lack of work only when nothing is pending or active, and then nothing ever will be |
| `Traversal.ExhaustionIsFinal` | src/modules/supervisor/native_backup/filesystem_verifier_impl.cpp:1091-1138 | once nothing is pending or active, no later step of any worker changes that |
| `Traversal.StepKeepsQueueInvariant` | src/modules/supervisor/native_backup/filesystem_verifier_impl.cpp:1091-1164 | every step keeps the active count equal to the tasks in workers' hands |
| `Traversal.CachedAnswerIsDirect` | src/modules/supervisor/native_backup/filesystem_verifier_impl.cpp:1166-1202 | a cached hard-link answer is what a direct stream query would have given, when streams depend only on file identity |
| `Traversal.UndisturbedRunIsCalm` | src/modules/supervisor/native_backup/filesystem_verifier_impl.cpp:1109-1164 | without cancellation or failure every taken task is in one worker's hands or done, and what was queued, committed and reported is what the tasks called for |
| `Traversal.FinishedTasksAreDone` | src/modules/supervisor/native_backup/filesystem_verifier_impl.cpp:1046-1084 | when all workers have left undisturbed, every discovered task has been carried out to its end |
| `Traversal.FinishedRunDescribesVolume` | src/modules/supervisor/native_backup/filesystem_verifier_impl.cpp:1228-1346 | a finished run has discovered exactly the reachable objects, committed each exactly once with the record the volume determines, and reported exactly the failures and gaps there are |
| `Traversal.QueuedPathsDiffer` | src/modules/supervisor/native_backup/filesystem_verifier_impl.cpp:1290-1346 | however batches and workers interleave, no path is ever queued twice |
| `Ledger.CountersClassifyRecords` | src/modules/supervisor/native_backup/filesystem_verifier_impl.cpp:544-604 | for any order of recorders each counter equals the number of stored records of its class, and no operation record repeats |
| `Ledger.ZeroMismatchesMeansNoneReported` | src/modules/supervisor/native_backup/filesystem_verifier_impl.cpp:544-604 | the mismatch count is zero exactly when no action, in whatever order, reported a difference that counts |
| `Ledger.ContentRecordSummarizes` | src/modules/supervisor/native_backup/filesystem_verifier_impl.cpp:575-604 | a stream has a content record exactly when it was reported, with the least offset and that call's own bytes, and exact totals |
| `Ledger.VerificationState.Append` | src/modules/supervisor/native_backup/filesystem_verifier_impl.cpp:656-663 | a record is appended and counted by its path |
| `Ledger.VerificationState.RecordOperationComparison` | src/modules/supervisor/native_backup/filesystem_verifier_impl.cpp:549-573 | a comparison is stored and counted once however often it is recorded |
| `Ledger.VerificationState.RecordContentMismatch` | src/modules/supervisor/native_backup/filesystem_verifier_impl.cpp:575-604 | the stream's one record is opened or accumulated |
| `Workers.UndisturbedRunIsSound` | src/modules/supervisor/native_backup/filesystem_verifier_impl.cpp:1942-1999 | while nothing is cancelled or fails, no task is claimed twice, the completed count is the number of accepted tasks, and each accepted task has its evidence in the ledger |
| `Workers.TrueMeansEveryTaskAccepted` | src/modules/supervisor/native_backup/filesystem_verifier_impl.cpp:1942-1999 | a true result means that every task was compared to its end and accepted, however the workers raced |
| `Workers.ContentActionsTell` | src/modules/supervisor/native_backup/filesystem_verifier_impl.cpp:1828-1862 | equal bytes record nothing, and others the stream offset of the first byte that differs, both bytes there and how many differ |
| `Workers.OperationRecordsTell` | src/modules/supervisor/native_backup/filesystem_verifier_impl.cpp:1911-1926 | two operation records of a comparison are the same exactly when path, stream, operation, requested length and both failures are, and, except for opening, the offset |
| `Observation.ReportIsConsistent` | src/modules/supervisor/native_backup/filesystem_verifier_impl.cpp:311-366 | copied member by member against concurrent writers, a report with the plan flag holds the final plan sizes, one with the completion flag the final four counts, one with the failure flag its exception, and the mutex is released exactly once |
| `Observation.CompletedCountsAreFinal` | src/modules/supervisor/native_backup/filesystem_verifier_impl.cpp:1988-2131 | once the workers have been joined and the comparison declared complete, no continuation of the run changes a count |
| `Observation.EveryRunKeepsInv` | src/modules/supervisor/native_backup/filesystem_verifier_impl.cpp:505-542 | what every store, lock, copy and unlock keeps |
| `Observation.ObserveKeepsMutex` | src/modules/supervisor/native_backup/filesystem_verifier_impl.cpp:649-653 | taking, clearing and releasing the lock during a copy keep one holder and one pending release |
| `Observation.CompareExchangeYieldsSaturatedSum` | src/modules/supervisor/native_backup/filesystem_verifier_impl.cpp:666-676 | however the compare-exchange loops interleave or fail, the value ends as the saturated sum of all addends |
| `Observation.ExchangesAddUp` | src/modules/supervisor/native_backup/filesystem_verifier_impl.cpp:290-296 | at every moment the value is the saturated sum of the addends already added |
| `Bits.RunIsMaximal` | src/modules/filesystem_allocation_changes.cpp:202-219 | the lowest set bit and the limit found by carrying bound a maximal run of ones, also when the sum wraps to zero, and masking removes exactly that run |
| `Bits.RunScanShrinks` | src/modules/filesystem_allocation_changes.cpp:202-219 | each iteration removes at least one set bit |
| `Bits.RunsAreTheMaximalRuns` | src/modules/filesystem_allocation_changes.cpp:202-219 | the scan yields exactly the maximal runs of the word, lowest first |
| `AllocationChanges.LoadWordBit` | src/modules/windows_block_device.ixx:104-126 | bit i of a loaded word is bit i mod 8 of byte i div 8, and zero beyond the data |
| `AllocationChanges.RangeBlocksTouch` | src/modules/filesystem_allocation_changes.cpp:165-181 | a cluster range rounded outward holds exactly the blocks that share a byte with one of its clusters |
| `AllocationChanges.BlockCollector.AddClusterRange` | src/modules/filesystem_allocation_changes.cpp:165-181 | coalescing loses and adds nothing, and the insertion is never given a reversed range |
| `BitmapSets.BitmapSet.InsertRange` | src/modules/bitmap_set.ixx:266-318 | the masked first and last words and the filled words between them add exactly the block offsets of the range, and the count stays that of the set bits |
| `BitmapSets.MaskBits` | src/modules/bitmap_set.ixx:289-293 | the two shifted masks are the bits from the first and up to the last position, and their intersection is the range within one word |
| `BitmapSets.BitmapSet.Insert` | src/modules/bitmap_set.ixx:389-405 | adds the one offset and tells whether it was missing |
| `BitmapSets.BitmapSet.Merge` | src/modules/bitmap_set.ixx:336-376 | the destination becomes the union, the source keeps what both had, and both counts follow; merging a set with itself changes nothing |
| `BitmapSets.SizeIsMembers` | src/modules/bitmap_set.ixx:228-230 | the number of set bits is the number of members |
| `BitmapSets.StorageBit` | src/modules/bitmap_set.ixx:234-237 | seen as bytes, the storage has the same bits in the same places |
| `AllocationChanges.ScanWord` | src/modules/filesystem_allocation_changes.cpp:199-220 | after a word, the collected blocks are exactly those of the changed clusters below its end, padding bits ignored |
| `AllocationChanges.SkipEqual` | src/modules/filesystem_allocation_changes.cpp:190-198 | skipping to the next differing byte, aligned or not, passes no changed cluster |
| `AllocationChanges.ReadAllocationChangeBlocks` | src/modules/filesystem_allocation_changes.cpp:112-227 | differing sizes or geometries are refused, and otherwise the result holds exactly the starts of the blocks that overlap a cluster below the count whose bit differs |
| `SveReduction.LoadSveRegion` | src/modules/byte_comparison_sve.cpp:28-43 | the tree of loads leaves a lane nonzero exactly when a byte of the region that falls on it is, and reads nothing outside the input |
| `SveReduction.ReduceRegions` | src/modules/byte_comparison_sve.cpp:111-151 | the expanded loads and the loop gather the same lanes, with every active lane inside the input |
| `SveReduction.PackedBits` | src/modules/byte_comparison_sve.cpp:48-76 | packing sets a bit of a lane exactly when an accumulator has a nonzero byte there and the lane belongs to that bit's region |
| `SveReduction.CrossedCountsRegions` | src/modules/byte_comparison_sve.cpp:99-110 | the boundaries counted in byte arithmetic are the regions before a lane, for region sizes that are not powers of two too |
| `SveReduction.ReduceBatch` | src/modules/byte_comparison_sve.cpp:161-176 | four complete regions become four bits, for one, two or four regions an accumulator |
| `SveReduction.RegionHasByte` | src/modules/byte_comparison_sve.cpp:177-185 | a left-over region, clipped at the end of the input, has a nonzero byte exactly when a lane has |
| `SveReduction.ReduceBitmapUsingSve` | src/modules/byte_comparison_sve.cpp:79-186 | for every vector width up to 256 bytes and every region size, output bit i is set exactly when region i has a nonzero byte, the rest of the last byte stays clear and no other byte changes |
| `DirtyMap.BuildDirtyBlockMap` | src/modules/supervisor/native_backup/incremental.cpp:56-123 | the map is refused when the volume sizes differ and otherwise is exactly the union of the blocks named by descriptors inside the volume, the allocation changes and the SVI blocks, with the size each contribution had before the union |
| `DirtyMap.DescriptorBlocks` | src/modules/supervisor/native_backup/incremental.cpp:93-111 | exactly the blocks of the original, store and, for forwarders, relative offsets below the volume size |
| `DirtyMap.MakeDirtyBitmap` | src/modules/supervisor/native_backup/production_incremental.cpp:35-47 | the bitmap reduced from the words of the set has a bit for every chunk of the volume, a final partial one included, and a bit is set exactly when a dirty block lies in the chunk |
| `DirtyMap.PrepareDirtyBitmap` | src/modules/supervisor/native_backup/production_incremental.cpp:49-83 | end to end, from two allocation snapshots, descriptors and SVI blocks: a bitmap is written exactly when the snapshots fit and something is dirty, and the bit of a chunk is set exactly when a descriptor names an offset of the volume in it, a reallocated cluster reaches into it, or an SVI block lies in it |
| `DirtyMap.ClusterTouchesChunkIff` | src/modules/filesystem_allocation_changes.cpp:165-181 | a cluster shares a byte with a chunk exactly when it shares one with a block of the chunk |
| `SnapshotScan.AppendDifferingClusters` | src/modules/supervisor/native_backup/incremental_diagnostics.cpp:788-817 | appends exactly the clusters with a differing byte inside the block |
| `SnapshotScan.CompareVerificationChunk` | src/modules/supervisor/native_backup/incremental_diagnostics.cpp:830-886 | the skipping comparison finds what a byte-by-byte scan of the chunk's blocks finds: counts, the first uncovered difference and its clusters |
| `SnapshotScan.VerificationState.Record` | src/modules/supervisor/native_backup/incremental_diagnostics.cpp:606-623 | adds the counts and keeps the earlier first difference |
| `SnapshotScan.MergeDescribes` | src/modules/supervisor/native_backup/incremental_diagnostics.cpp:606-623 | merged observations of disjoint blocks are the naive observation of all of them |
| `SnapshotScan.RangesPartition` | src/modules/supervisor/native_backup/incremental_diagnostics.cpp:958-975 | the four ranges follow each other from the first byte to the last without gap or overlap, on chunk boundaries |
| `SnapshotScan.WorkerReadsChunks` | src/modules/supervisor/native_backup/incremental_diagnostics.cpp:914-947 | every chunk a worker reads is aligned and ends at a block boundary or the end of the volume |
| `SnapshotScan.EveryScheduleIsFaithful` | src/modules/supervisor/native_backup/incremental_diagnostics.cpp:914-947 | in every interleaving, with cancellation and failures, what is recorded is the naive observation of what has been read, each byte once |
| `SnapshotScan.CompleteEqualsNaiveScan` | src/modules/supervisor/native_backup/incremental_diagnostics.cpp:1473-1474 | a complete comparison equals one byte-by-byte scan of the whole volume |
| `SnapshotScan.OutcomeIff` | src/modules/supervisor/native_backup/incremental_diagnostics.cpp:1363-1386 | for every schedule, with or without a map: a coverage failure exactly when a byte that was read differs outside the map, verified exactly when no worker failed, every byte was read and the dirty blocks laid over the baseline give the payload, and neither otherwise |
| `SnapshotScan.CompleteIff` | src/modules/supervisor/native_backup/incremental_diagnostics.cpp:1473-1474 | the byte count makes a comparison complete exactly when no worker failed and every byte of the volume was read |
| `Utf16.NextReadsEncoding` | src/terminal/dependencies/terminal/src/types/CodepointWidthDetector.cpp:695-723 | where the encoding of a code point stands, a step forward reads it and moves past it; elsewhere it yields U+FFFD and moves one unit |
| `Utf16.PrevReadsEncoding` | src/terminal/dependencies/terminal/src/types/CodepointWidthDetector.cpp:728-756 | the same backwards: the code point whose encoding ends there, or U+FFFD and one unit |
| `Utf16.MasksAreRanges` | src/terminal/dependencies/terminal/src/types/CodepointWidthDetector.cpp:703-716 | the masks used are the surrogate ranges of section 3.9 of the Unicode Standard |
| `Utf16.PrevUndoesNext` | src/terminal/dependencies/terminal/src/types/CodepointWidthDetector.cpp:695-756 | from a boundary, a step back undoes a step forward, code point and position |
| `Utf16.BackwardReversesForward` | src/terminal/dependencies/terminal/src/types/CodepointWidthDetector.cpp:695-756 | for every text, well formed or not, both directions visit the same positions and code points |
| `Utf16.EncodeThenDecode` | src/terminal/dependencies/terminal/src/types/CodepointWidthDetector.cpp:1235-1248 | decoding an encoded code point gives it back, from either end, exactly when it is not a surrogate |
| `Utf16.DecodeThenEncode` | src/terminal/dependencies/terminal/src/types/CodepointWidthDetector.cpp:1238-1248 | encoding what a surrogate pair decodes to gives the pair back |
| `Utf16.PairIsStandard` | src/terminal/dependencies/terminal/src/types/CodepointWidthDetector.cpp:1238-1248 | encoding and combining use the surrogate pair of table 3-5 of section 3.9 of the Unicode Standard |
| `Utf16.DecodeConcatIff` | src/terminal/dependencies/terminal/src/types/CodepointWidthDetector.cpp:695-723 | a text decodes as its two parts exactly when the cut does not go through a pair |
| `Graphemes.JoinsIff` | src/terminal/dependencies/terminal/src/types/CodepointWidthDetector.cpp:630-680 | the table is the rules: for all classes and both states two code points stay together exactly by the rules GB4 to GB13 of UAX #29 as two neighbours can show them, and the state becomes 1 exactly when a regional indicator finds its partner |
| `GraphemeBoundaries.SegmentIff` | src/terminal/dependencies/terminal/src/types/CodepointWidthDetector.cpp:809-901 | of every text in both modes, clusters begin at exactly the code points where the rules put a boundary, regional indicators being paired from the start of their run, and each is as wide as its code points together, in grapheme mode at most two |
| `Graphemes.SegmentTilesText` | src/terminal/dependencies/terminal/src/types/CodepointWidthDetector.cpp:809-901 | the clusters of any text tile it, and in grapheme mode none is wider than two |
| `Graphemes.GraphemeNext` | src/terminal/dependencies/terminal/src/types/CodepointWidthDetector.cpp:809-901 | one call finds the reach of the next or the carried cluster, its clamped width, and saves a state from which the rest can be continued; at the end of the string nothing changes |
| `Graphemes.GraphemeNextWcswidth` | src/terminal/dependencies/terminal/src/types/CodepointWidthDetector.cpp:1004-1064 | the same for wcswidth mode |
| `Graphemes.ReportCarriesOnIff` | src/terminal/dependencies/terminal/src/types/CodepointWidthDetector.cpp:759-772 | what is reported for a nonempty view carries the segmentation on by the text of the view if and only if the last cluster did not end inside it or at its end |
| `Graphemes.ReusedBufferVanishes` | src/terminal/dependencies/terminal/src/types/CodepointWidthDetector.cpp:759-772 | of a second string as long as the first and in its buffer, nothing is reported |
| `Graphemes.ReadStringsIff` | src/terminal/dependencies/terminal/src/types/CodepointWidthDetector.cpp:759-792 | strings that cut no surrogate pair yield the clusters of the whole text if and only if each nonempty one restarts after the last nonempty one before it |
| `Graphemes.WcswidthIsNarrowIff` | src/terminal/dependencies/terminal/src/types/CodepointWidthDetector.cpp:1004-1064 | in wcswidth mode no cluster is wider than two if and only if the ambiguous width is at most two or the text has no ambiguous code point |
| `Graphemes.WideClusterInWcswidth` | src/terminal/dependencies/terminal/src/types/CodepointWidthDetector.cpp:1004-1064 | a text whose one cluster is three wide |
| `Graphemes.PiecesFold` | src/terminal/dependencies/terminal/src/types/CodepointWidthDetector.cpp:809-901 | the calls on one string carry the left fold over code points on from wherever it stood |
| `Graphemes.CutsDoNotMatter` | src/terminal/dependencies/terminal/src/types/CodepointWidthDetector.cpp:809-901 | a text cut in two yields the same boundaries and widths as the whole, in both modes |
| `Graphemes.SegmentStrings` | src/terminal/dependencies/terminal/src/types/CodepointWidthDetector.cpp:781-792 | for any views, the calls report what the resumed strings hold, and where no pair is cut that is the clusters of the whole text if and only if every view is read from its beginning |
| `ComponentSelection.AncestryIsTransitive` | dependencies/vshadow/writer.cpp:746-759 | the case-insensitive, backslash-padded ancestor test is transitive |
| `ComponentSelection.AncestryIsIrreflexive` | dependencies/vshadow/writer.cpp:746-759 | it never relates a path to itself, nor both ways |
| `ComponentSelection.DiscoverTopLevel` | dependencies/vshadow/writer.cpp:419-425 | the loops mark exactly the components without an ancestor |
| `ComponentSelection.CloseExclusions` | dependencies/vshadow/select.cpp:307-323 | one in-place pass, in any component order, is the simultaneous pass |
| `ComponentSelection.ExcludedIff` | dependencies/vshadow/select.cpp:288-325 | a component ends up excluded exactly when it, or something below it, was excluded, named or outside the shadow set |
| `ComponentSelection.SelectionTheorem` | dependencies/vshadow/select.cpp:49-89 | in a writer not excluded, an explicit component and all below it is not excluded and touches only shadowed volumes, no explicit component is below another, and whatever is includable is explicit or below an explicit one |
| `SelectionOutcome.WriterIsDroppedIff` | dependencies/vshadow/select.cpp:331-383 | a writer is dropped exactly when it was excluded or is named, all its components were excluded or are named, nothing that may be added by itself is free of exclusions at or below it, or a top-level component that cannot be selected is not |
| `SelectionOutcome.AddedIff` | dependencies/vshadow/select.cpp:49-89 | after all passes a component is added exactly when its writer is not dropped, it may be added by itself, nothing at or below it is excluded, and no component above it qualifies too |
| `SelectionOutcome.CleanIsCovered` | dependencies/vshadow/select.cpp:390-426 | a component that may be added and has nothing excluded at or below it is added or lies below one that is |
| `ComponentSelection.NothingExcludedAboveMeansCovered` | dependencies/vshadow/select.cpp:390-426 | with top-level components discovered, a component with nothing excluded at or above it is backed up |
| `ComponentSelection.VssClient.DiscoverDirectlyExcludedComponents` | dependencies/vshadow/select.cpp:125-193 | excludes named writers, named components, and writers left without a component |
| `ComponentSelection.VssClient.DiscoverNonShadowedExcludedComponents` | dependencies/vshadow/select.cpp:222-282 | excludes the components that touch a volume outside the shadow set |
| `ComponentSelection.VssClient.DiscoverAllExcludedComponents` | dependencies/vshadow/select.cpp:288-325 | the closure in every writer that is not excluded |
| `ComponentSelection.VssClient.DiscoverExcludedWriters` | dependencies/vshadow/select.cpp:331-383 | applies the pass over writers to every writer; `SelectionOutcome.WriterIsDroppedIff` says whom it drops |
| `ComponentSelection.VssClient.DiscoverExplicitelyIncludedComponents` | dependencies/vshadow/select.cpp:390-426 | marks the includable components without an includable ancestor |
| `ComponentSelection.VerifyExplicitelyIncludedComponent` | dependencies/vshadow/select.cpp:430-510 | accepts a requested component exactly when the first of that name is explicit or below an explicit one |
| `ComponentSelection.VerifyExplicitelyIncludedWriter` | dependencies/vshadow/select.cpp:519-574 | accepts a requested writer exactly when the first of that name has no excluded component |
| `ComponentSelection.VssClient.SelectExplicitelyIncludedComponents` | dependencies/vshadow/select.cpp:580-614 | adds the explicit components of the writers that are not excluded, in order |
| `ComponentSelection.VssClient.SelectComponentsForBackup` | dependencies/vshadow/select.cpp:49-89 | runs the pipeline on every writer, adds nothing unless every request is honoured, and leaves marks from which the notification reaches exactly what was added |
| `ComponentSelection.VssClient.SetBackupSucceeded` | dependencies/vshadow/create.cpp:329-357 | tells the marked components of all writers |
| `ComponentSelection.NotifiedAreAdded` | dependencies/vshadow/create.cpp:329-357 | when excluded writers carry no mark, the notified components are the added ones |
| `ReadExecutor.EveryCallIsAnsweredOnce` | src/unix/samba_rpc/helper.cpp:381-530 | in every run no submission finds its key taken and no completion finds it missing, and each call is answered at once, or active in exactly one place, or replied to once with the result its own worker computed |
| `ReadReplies.EveryReplyIsTheReadersAnswer` | src/unix/samba_rpc/helper.cpp:399-407 | in every run a reply is Ok with the count its own reader returned when that fits 32 bits and a device error without bytes otherwise, and a call is answered without a read exactly when it is synchronous, empty, or short of memory, with the status for each |
| `ReadExecutor.NobodyHoldsADeadObject` | src/unix/samba_rpc/helper.cpp:362-463 | an operation exists exactly while a worker, the queue, the active map or the event loop owns it, although addresses are reused |
| `ReadExecutor.StepKeepsInv` | src/unix/samba_rpc/helper.cpp:445-530 | every step of submitters, workers and the event loop keeps ownership, place, results and fates in order |
| `ReadExecutor.RunningIsActive` | src/unix/samba_rpc/helper.cpp:481-498 | the operation a worker runs is active, alive, and nowhere else |
| `ReadExecutor.CallKeepsInv` | src/unix/samba_rpc/helper.cpp:690-715 | each branch of the read call either answers at once or submits one operation |

## Left out

- Windows, COM, WinRT, LSA, WinFsp and Samba calls, handles, privileges and process launch: plumbing over interfaces that cannot be seen; what they answer is a parameter.
- C++ weak-memory effects and the allocator: interleavings are sequentially consistent.
- Printing, progress, estimated times, percentages and the layout-entry estimate: reporting only.
- The Unicode property tables: `ucdLookup` is any function to a byte; only the join rules are concrete.
- Graphemes.JoinsIff: speaks of the classes of the join table, because which code points get them, CR, LF and spacing marks among them, is part of the property tables.
- Console mode of the width detector and backward segmentation: the code does not aim for agreement with forward segmentation.
- A negative ambiguous width, which `SetAmbiguousWidth` would accept, and overflow of `int` lengths and widths.
- The x64 and NEON forms of the bitmap reduction, erasing from a `BitmapSet`, its iteration and allocation limits, and reading the SVI extents.
- How free clusters are synthesized: the snapshot comparison starts from the two synthesized views.
- The restore half of component selection and the other parts of the VSS requester.
- Traversal.UndisturbedRunIsCalm: says nothing of runs that are cancelled or fail, because those runs produce no inventory.
- Soundness.VerifiedMeansEqual: paths are strings of characters rather than UTF-16 units, and the volume does not change while it is compared.
- AllocationChanges.ReadAllocationChangeBlocks: byte offsets are unbounded, because a volume's last byte has a 64-bit offset.
- ComponentSelection.AncestryIsTransitive: case folding works character by character, and a path holds no embedded terminator.
- ReadExecutor.EveryCallIsAnsweredOnce: the destruction of the executor is not a step; calls active at that point stay unanswered.
