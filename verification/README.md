# Verification model of choix

choix is a photo culling tool: it scans a folder of photos and videos, runs every file through a staged
pipeline, groups similar shots into clusters, and copies the shots the user picks into a picks directory.
This project models the four parts of it that carry state, loops and claims over unboundedly many inputs,
and proves what they promise.

**The clustering engine** (`Visual`, `BucketGroups`, `Timeline`, `Defs`, `PerDevice*`, `Skew*`,
`CrossDevice*`, `Keyless`, `Pairs`, `CrossPairs`, `ClusterStore`, `Rebuild`, `ClusterStage`, `Orders`, `EmitOrder`).
Each fast algorithm is an imperative method proved equal to a
specification function: the path-compressing union-find to the connected components of the similarity graph,
the gap-walk to the one-dimensional proximity components, the sliding window to the nested loop, the
median to a rank statistic. The theorems about those functions compose into one statement each about the
two rebuild modes: which files share a cluster. On top sits the library navigation, whose query is right
only because of the order in which a rebuild emits clusters. `SkewMedian`, `Pairs` and `CrossPairs` say what the
similarity, the median and the thresholds come to in plain arithmetic; `Orders` and `EmitOrder` spell out every order a
listing or a rebuild promises.

**The pipeline** (`Pool`, `PoolErrors`, `Stages`, `StageAborts`, `Resuming`, `Reporting`, `FullRun`). The worker pool
is a step relation over a producer and any number of workers; theorems about it hold of every schedule and every
cancellation point, and say which item errors some schedule returns. A stage run is a loop of pool runs; what the pool
guarantees is what makes the stage's no-progress guard a termination argument. `Resuming` says exactly which files a
stage leaves behind, and that stopping and resuming ends where one uninterrupted run would, even when Process behaves
differently in every attempt.
The progress reporter is both a sequential class and a protocol of many senders. `FullRun` composes discovery, the
stages and the cluster rebuild over one library.

**Picks** (`Paths`, `Picks`, `PickEffects`, `PicksTheorems`, `PicksForeign`). A database table and a disk, changed by the
four operations, with reading the original, creating the directory, writing, renaming and removing an export able to
fail. The name search terminates by a pigeonhole argument over injective names. `PickEffects` says
of each operation what becomes of the file it is called on and that every other one is left alone. Runs of any length
keep table and directory in agreement.

**Rescan** (`FilesTable`, `Scanner`, `Visited`, `Rescans`, `ScannerTheorems`, `WalkTwice`). A walk over a directory
tree reconciled with the files table, including SQL LIKE semantics. `Visited` says on name paths through the tree which
files a walk visits and when it gets through.

`Seqs`, `Reach` and `Strings` hold shared definitions: sorting as "a sorted permutation" (so nothing proved
depends on how ties are broken), reachability, and the byte order of strings.

Similarities are real numbers; `int` is unbounded; embeddings are sequences of reals. The median's division is
written out as division that truncates towards zero.

## What the proofs found

Each entry names the lemmas that prove it: the exact condition, and an input where one is needed.

- `NextAfter`'s clause for clusters without a time is the successor exactly when no timed cluster of the same device
  has a larger id (`ClusterStore.NullSuccessorIff`). Every rebuild establishes that (`Rebuild.RebuildNavigable`); a
  table where the NULL cluster got the smaller id makes navigation go in a circle (`Rebuild.NullFirstLoops`).
- A second walk over an unchanged tree changes nothing, whatever the table was, exactly when no visited file that the
  eviction query matches comes before one that it does not (`WalkTwice.IdempotentIff`; per table
  `WalkTwice.WalkTwiceIff`). Without `%` and `_` in the picks directory it matches none (`ScannerTheorems.WalkIdempotent`).
  With them it can delete rows of files the walk itself accepts, and each walk discovers those files anew:
  `ScannerTheorems.WildcardBreaks` shows a table. For a table that is in step with the disk and through the pipeline,
  `ScannerTheorems.SettledWalkIff` gives the condition for one walk.
- A walk keeps the status of a visited file, whose row the eviction query does not match, exactly when size, mtime and
  hash are the recorded ones or the file was waiting already (`FilesTable.StatusPreservedIff`, for whole walks
  `ScannerTheorems.VisitedRowIff`). The comment on `UpsertOnRescan` promises it for an equal hash alone; a file that was
  only touched is discovered anew (`FilesTable.TouchedFile`).
- For the same reason such a file that was missing and is back keeps the status missing exactly when nothing about it
  changed (`ScannerTheorems.VisitedRowIff`).
- With a picks directory that starts empty, agreement of picks and disk needs no assumption about hashes: no
  two files ever compete for a name (`PicksTheorems.PicksAgree`). With foreign files in it, two files of
  equal content can share one export, and unpicking one deletes the other's (`PicksForeign.SharedExport`, with an
  input in `PicksForeign.SharedExportInput`); `PicksForeign.UnpickSafeIff` gives the condition. Pick followed by Unpick
  is not always an undo: an adopted file is deleted (`PicksForeign.PickUnpickIff`).
- The rollback of a failed Pick restores the table exactly when the file had no row (`PicksTheorems.FailedPickIff`): a
  rejected file loses its rejection (`PicksTheorems.RejectionLost`).
- A stage gives up although later files would move. It leaves such a file behind exactly when a whole batch of
  files that stay is ahead of it (`Resuming.LeftBehindIff`), so where it ends depends on the table and the files'
  fates alone (`Resuming.StageEnds`); `Resuming.BlockedInput` is a table of two files.
- The comment in `runStage` says that the pool's error can only be a cancellation. Without a cancellation the pool
  returns an error exactly when an item failed (`Pool.ItemErrorIff`), and it can be that of any item with fewer failing
  items ahead of it than there are workers (`PoolErrors.ReturnsIff`). So an item error that wraps a context error can
  stop the stage as if it had been cancelled: for some schedule exactly when `StageAborts.MayAbortIff` says, for every
  schedule exactly when `StageAborts.MustAbortIff` says, for example with one such file
  (`StageAborts.InterruptedInput`). Such a file stays where it is in that attempt and may advance in the next; the
  resume theorem covers it (`Resuming.RunWithStops`).
- In cross-device mode the members of a fallback cluster are listed in ascending order exactly when their times follow
  their ids (`CrossDeviceEdges.FallbackAscendingIff`), unlike in every other cluster
  (`CrossDeviceLabels.CrossDeviceLabel`); `CrossDeviceEdges.FallbackDescends` is a library where they descend.
- `EstimateSkew` skips files without a device key while the rebuild files them under "Unknown". In
  cross-device mode such a file with an embedding is moved exactly when a device really called "Unknown" takes part in the estimate and is off; one without
  an embedding never is (`Keyless.KeylessMovedIff`). `Keyless.KeylessInput` is a library where a file is handed over
  at another camera's offset.
- The comment on `isUnder` says that a path is never under itself; a path is under another exactly when it
  lies below it or is the same path (`Paths.IsUnderIff`).

## Model

| member | source | states |
|---|---|---|
| Visual.Cosine | internal/group/visual.go:66-75 | the loop computes the dot product, and 0 for vectors of different length |
| Visual.DotSymmetric | internal/group/visual.go:66-75 | similarity does not depend on the order of the pair |
| Visual.DotConcat | internal/group/visual.go:70-74 | the products of all components add up: vectors in two parts score the sum of the scores of the parts |
| Visual.DotPair | internal/group/visual.go:66-75 | two components: the sum of the two products |
| Visual.UnionFind.Find | internal/group/visual.go:25-32 | find terminates on every parent map reached, returns the root of the id's class, compresses the path, and changes no class |
| Visual.UnionFind.Union | internal/group/visual.go:33-38 | union merges exactly the two classes and keeps the parent map acyclic |
| Visual.CompressKeeps | internal/group/visual.go:29-30 | hanging an id below its root keeps the forest acyclic and every representative |
| Visual.MergeKeeps | internal/group/visual.go:34-37 | hanging one root below another keeps the forest acyclic and merges exactly their classes |
| Visual.RootsAreComponents | internal/group/visual.go:40-53 | after the pair scan two ids have one root iff they are connected in the graph similarity > threshold |
| Visual.GroupsCanonical | internal/group/visual.go:49-61 | the specification lists every id once, members ascending, groups by first member, two ids together iff connected |
| Visual.CanonicalUnique | internal/group/visual.go:55-61 | a partition has one such listing, so map iteration order cannot show in the output |
| Visual.Cluster | internal/group/visual.go:13-62 | the union-find algorithm returns that listing of the connected components |
| BucketGroups.ClusterIDs | internal/group/group.go:427-447 | embedded ids by connected components inside the bucket, ids without embedding together in one group, in canonical order |
| BucketGroups.BucketLinks | internal/group/group.go:431-440 | clustering the bucket's own embeddings sees the same components as the whole table restricted to the bucket |
| BucketGroups.GroupsRefine | internal/group/visual.go:40-53 | raising the threshold only refines: each group at the higher one lies inside a group at the lower one |
| Pairs.PairGroups | internal/group/group.go:427-447 | two ids form one group iff neither has an embedding, or both have and score above the threshold; otherwise two, in order |
| Pairs.PairOfFrames | internal/group/visual.go:13-62 | two frames of two components are grouped iff the sum of the products exceeds the threshold |
| Pairs.MirroredFrames | internal/group/visual.go:66-75 | two unit vectors that score 0.8432 are two groups at 0.92 |
| Timeline.SortRunFiles | internal/group/group.go:451-462 | the sort yields the one arrangement by time, untimed last, ties by id |
| Orders.TimelineOrder | internal/group/group.go:451-462 | of two files in a timeline the earlier position has a time and the other none, or the smaller time, or at equal times the smaller id |
| Timeline.TimedPrefix | internal/group/group.go:212-218 | in a sorted timeline all timed files come before all untimed ones |
| Timeline.GapBucketsFlatten | internal/group/group.go:212-236 | the buckets of a timeline, one after the other, are the timeline |
| Timeline.BucketsAreComponents | internal/group/group.go:95-112 | two shots share a bucket iff reachable by hops of at most the gap |
| Timeline.BucketIsComponent | internal/group/group.go:226-234 | a bucket is the set of all shots reachable from any of its members |
| Timeline.BucketStartIsMinimum | internal/group/group.go:109-112 | the first shot of a bucket carries its smallest time |
| Timeline.ShiftedBuckets | internal/group/group.go:226-234 | adding a constant to a timeline changes no bucket's membership |
| Defs.EmitGroups | internal/group/group.go:181-189 | emitting a bucket yields one definition per visual group, with the device and the bucket start |
| Defs.EmitPartition | internal/group/group.go:181-189 | the definitions of a bucket partition its ids by visual sameness |
| Defs.PartitionConcat | internal/group/group.go:180-237 | definitions of separate id sets, concatenated, partition the union |
| Defs.WalkPartition | internal/group/group.go:191-237 | partitions of the gap buckets make a partition of the whole timeline |
| PerDevice.DeviceWalk.Flush | internal/group/group.go:204-210 | flush emits the open bucket, nothing when none is open |
| PerDevice.DeviceWalk.VisitTimed | internal/group/group.go:219-234 | one timed shot opens, extends or closes a bucket so that the walk stays in step with the specification |
| PerDevice.DeviceWalk.VisitNull | internal/group/group.go:213-218 | an untimed file first flushes, then becomes a singleton |
| PerDevice.WalkDevice | internal/group/group.go:198-236 | the gap-walk emits the visual groups of every proximity bucket, then the untimed singletons |
| PerDevice.SplitByDevice | internal/group/group.go:167-178 | files are split by normalised device, devices in first-seen order |
| Orders.DevicesFirstSeen | internal/group/group.go:167-178 | one device is listed before another iff its first file comes before the other's |
| PerDevice.RebuildPerDevice | internal/group/group.go:166-240 | the per-device rebuild computes the specified definitions, and hands over nothing iff a context check fails first |
| PerDeviceTheorems.PerDevicePartition | internal/group/group.go:166-240 | every analyzed file is in exactly one definition |
| PerDeviceTheorems.ShareClusterIff | internal/group/group.go:95-112 | two files share a cluster iff same normalised device, both timed, same proximity bucket, and joined by a chain of similar shots inside it or both without embedding |
| Pairs.TwoFilesShareIff | internal/group/group.go:95-112 | in a library of two files: iff both keys are equal or both are missing, empty or "Unknown", both have a time, the times differ by at most the gap, and the frames are alike |
| PerDeviceShape.PerDeviceLabels | internal/group/group.go:183-187 | each definition carries its members' device and the smallest time of their bucket, members ascending |
| PerDeviceShape.ThresholdRefines | internal/group/group.go:180-189 | raising the threshold refines the definitions of the whole rebuild |
| PerDeviceShape.PerDeviceNullsLast | internal/group/group.go:191-239 | on one device no timed definition follows an untimed one |
| PerDeviceShape.ClockShift | internal/group/group.go:191-237 | adding a constant to one device's times changes no membership and shifts only that device's bucket starts |
| EmitOrder.PerDeviceOrder | internal/group/group.go:191-240 | definitions come device by device in the order of the first files, on one device by time with untimed ones last, and those of one start by first member |
| Skew.WindowRow | internal/group/skew.go:107-126 | for one reference shot the window finds exactly the qualifying partners, in order, and never needs to move back |
| Skew.PairDeltas | internal/group/skew.go:104-128 | for sorted inputs the forward-only window yields exactly the deltas of the nested loop, in the same order |
| SkewMedian.DeltaIff | internal/group/skew.go:104-128 | there is a delta x iff a pair with that difference is at most 3600 s apart and its frames score at least 0.95 |
| Skew.MedianInt64 | internal/group/skew.go:132-139 | the result is the middle of the sorted values, even counts halving towards zero |
| Skew.MedianMajority | internal/group/skew.go:132-139 | when more than half of the values agree the median is that value |
| Skew.MedianInRange | internal/group/skew.go:132-139 | the median lies within any bounds of the values |
| Skew.MedianPermuted | internal/group/skew.go:132-139 | the median does not depend on the order of the values |
| SkewMedian.MedianOdd | internal/group/skew.go:135-137 | of an odd number of values v is the median iff at most half of the others are below and at most half above it |
| SkewMedian.MedianEven | internal/group/skew.go:138 | of an even number it is half the sum of the two middle values, without its fraction towards zero |
| SkewMedian.MedianNegated | internal/group/skew.go:132-139 | the median of the negated values is the negated median |
| SkewMedian.MedianSymmetric | internal/group/skew.go:132-139 | values whose multiset is symmetric about c have median c |
| SkewEstimate.SplitEntries | internal/group/skew.go:50-63 | each device with usable files is listed with exactly those, in order |
| SkewEstimate.PickReference | internal/group/skew.go:72-82 | the reference is the alphabetically first device of maximal size |
| SkewEstimate.ReferenceUnique | internal/group/skew.go:72-82 | there is one such device |
| Orders.ReferenceIff | internal/group/skew.go:72-82 | a device is the reference iff every other one has fewer usable files, or as many and the larger key in byte order |
| Strings.StrLeIff | internal/group/skew.go:76 | one text is not after another iff it is a prefix of it, or at the first position where they differ its character is smaller |
| SkewEstimate.EstimateSkew | internal/group/skew.go:49-97 | whatever the ties in the unstable sorts and the map order, the offsets are the specified function of files and embeddings |
| SkewEstimate.SkewOrderIndependent | internal/group/skew.go:49-97 | permuting the files changes no offset |
| SkewEstimate.SkewBounds | internal/group/skew.go:19-22 | every offset lies in [-3600, 3600] and the reference's is 0 |
| SkewEstimate.SkewMajority | internal/group/skew.go:24-27 | if more than half of at least three qualifying deltas equal D the offset is D |
| SkewMedian.SkewSymmetric | internal/group/skew.go:89-94 | if at least three qualifying deltas are symmetric about c the offset is c |
| SkewMedian.TooFewDeltas | internal/group/skew.go:90-92 | with fewer than three qualifying deltas the offset is 0 |
| SkewMedian.EvenOffset | internal/group/skew.go:132-139 | two cameras with four matching shots each, deltas 10, 20, 30 and 40: the offset is 25 |
| CrossDevice.TagGroup | internal/group/group.go:306-315 | a group keeps its single device's key, and gets the merged key otherwise |
| CrossDevice.FileAll | internal/group/group.go:252-287 | each file goes to the aligned timeline, its device's fallback list, or its device's untimed list |
| CrossDevice.WalkMerged | internal/group/group.go:327-358 | the walk over the aligned timeline emits the tagged groups of its proximity buckets |
| CrossDevice.WalkLoose | internal/group/group.go:369-404 | the fallback walk emits one definition per proximity bucket of a device's files without embedding |
| CrossDevice.RebuildCrossDevice | internal/group/group.go:249-422 | the cross-device rebuild computes the specified definitions, and hands over nothing iff the context is cancelled |
| CrossDeviceTheorems.CrossDevicePartition | internal/group/group.go:249-422 | the three passes together place every analyzed file in exactly one definition |
| CrossDeviceTheorems.CrossShareClusterIff | internal/group/group.go:102-107 | when two files share a cluster, from files, embeddings and offsets alone |
| CrossPairs.TwoFilesMergeIff | internal/group/group.go:102-107 | in a library of two files: iff both have a time, the times differ by at most the gap, and either both have embeddings that score above the threshold or neither has one and the keys agree |
| CrossPairs.MergedPair | internal/group/group.go:305-322 | two similar shots of two cameras within the gap are handed over as one cluster with the key "*merged*" and the earlier time |
| CrossDeviceShape.MergedTag | internal/group/group.go:305-322 | every member of a merged definition has an embedding and a time and lies in one bucket of the aligned timeline |
| CrossDeviceShape.MergedKeyIff | internal/group/group.go:310-315 | if no device is called like the merged key, a definition carries it iff its members come from at least two devices |
| CrossDeviceShape.CrossDeviceNullsLast | internal/group/group.go:340-419 | on one device key no timed definition follows an untimed one |
| EmitOrder.CrossDeviceOrder | internal/group/group.go:327-419 | first the clusters of embedded files by corrected time, whatever their devices, then those of files without embedding and then the untimed ones, both by device and time |
| CrossDeviceShape.SingleDeviceAgrees | internal/group/group.go:249-422 | with one device and an embedding for every timed file both modes hand over the same definitions |
| CrossDeviceLabels.CrossDeviceLabel | internal/group/group.go:109-112 | every cluster with an embedding carries the smallest corrected time of its bucket, every fallback cluster the smallest time on its device's own clock, NULL exactly the untimed ones; only fallback members can be out of ascending order |
| CrossDeviceLabels.CrossThresholdRefines | internal/group/group.go:300-322 | raising the threshold only splits clusters here too: each lies inside one of the lower threshold with the same bucket, and the same key unless that one spans devices |
| CrossDeviceEdges.FallbackAscendingIff | internal/group/group.go:363-404 | a fallback cluster lists its members in ascending order iff no member with a smaller id was taken later |
| CrossDeviceEdges.FallbackDescends | internal/group/group.go:363-404 | three files, one of them with an embedding, for which a rebuild in cross-device mode hands over a cluster with descending members |
| Keyless.KeylessMovedIff | internal/group/group.go:260-287 | a timed file without a device key takes no part in the estimate; the rebuild walks over it at another time than its own iff it has an embedding and a device called "Unknown" is off: usable files, not the reference, at least three deltas, median not 0 |
| Keyless.KeylessInput | internal/group/skew.go:52-54 | a library for which a rebuild hands over a file without a key at its time minus the minute that another camera's clock was off |
| Keyless.OffIff | internal/group/skew.go:49-97 | a device has an offset iff it has usable files, is not the reference, and has at least three deltas whose median is not 0 |
| Keyless.AloneHandedOver | internal/group/group.go:327-358 | a shot with no other within the gap on the aligned timeline becomes a cluster of its own, with its device's key and its corrected time |
| ClusterStore.ClustersTable.WriteClusters | internal/store/clusters_write.go:89-134 | the tables are replaced as a whole, ids counting up in definition order, or left as they were when an insert or the commit fails |
| ClusterStore.AllOrderedFacts | internal/store/clusters_web.go:25-42 | the library view lists every cluster once in (device, untimed last, time, id) order |
| Orders.LibraryOrder | internal/store/clusters_web.go:25-42 | of two rows of the view the first has the smaller device key in byte order, or with equal keys a time and the other none, or the smaller time, or the smaller id |
| Orders.NextInOrder | internal/store/clusters_web.go:76-103 | of a cluster of Canon and one of Nikon the query leads from the first to the second, and from there nowhere |
| ClusterStore.TimedSuccessor | internal/store/clusters_web.go:79-87 | for a timed cluster the query returns the next one of the library view, in every table |
| ClusterStore.NullSuccessorIff | internal/store/clusters_web.go:88-94 | for an untimed cluster it does so iff no timed cluster of its device has a larger id |
| Rebuild.RebuildAll | internal/group/group.go:119-163 | empty library, mode choice, rebuild and write: the new table is that of the specified definitions, or nothing changed; it succeeds iff the context checks of the mode and every insert and the commit do |
| Rebuild.PerDeviceMode | internal/group/group.go:143-153 | without an embedding, or with the mode switched off, a rebuild hands over the per-device definitions |
| Rebuild.NavigableIff | internal/store/clusters_web.go:76-103 | a table can be walked by the query iff no untimed cluster has a timed one of its device beyond it |
| Rebuild.RebuildNavigable | internal/group/group.go:119-163 | after every rebuild in either mode the query is the library neighbour for every cluster |
| Rebuild.TrailVisitsAll | internal/store/clusters_web.go:74-76 | following the query from the first cluster of a rebuilt table visits every cluster exactly once |
| Rebuild.NullFirstLoops | internal/store/clusters_web.go:88-94 | a two-row table on which the query goes in a circle |
| ClusterStage.ListAllAnalyzed | internal/store/files.go:379-405 | the analyzed files in the order of the query, whatever ties and map order do |
| Orders.AnalyzedOrder | internal/store/files.go:379-405 | the listing is by device column in byte order, a missing one counting as "Unknown", then by time with NULL last, then by id |
| ClusterStage.Cluster | internal/pipeline/pipeline.go:130-139 | it succeeds iff the rebuild's context checks, inserts and commit do; then the tables are those of one rebuild over the analyzed files and can be walked, otherwise they are unchanged |
| ClusterStage.ClusteredOnce | internal/group/group.go:119-163 | every analyzed file is in exactly one cluster of the written table, no other file in any, and two share one iff they belong together in the mode that ran |
| Pool.StepInv | internal/pipeline/pool.go:43-95 | every action of any goroutine keeps the protocol's invariant |
| Pool.NeverStuck | internal/pipeline/pool.go:43-95 | in no reachable state before Wait returns is every goroutine blocked |
| Pool.RunBounded | internal/pipeline/pool.go:43-95 | every run is bounded by the work left |
| Pool.CanFinish | internal/pipeline/pool.go:97 | every schedule can be completed |
| Pool.FinalAccounted | internal/pipeline/pool.go:97-99 | at Wait fn has run once on each id of a prefix, ok and fail add up to it, and each call made one callback with its own delta |
| Pool.FinalExplained | internal/pipeline/pool.go:101-109 | a context error means the parent was cancelled; otherwise every id was processed, the error is nil iff no item failed, and else that of an id with fewer failing ids ahead of it than there are workers |
| Pool.PoolCorrect | internal/pipeline/pool.go:29-110 | all of this for every schedule and every cancellation point; without cancellation every id is processed |
| Pool.ItemErrorIff | internal/pipeline/pipeline.go:226-236 | without cancellation the pool returns an error iff an item failed |
| PoolErrors.ReturnsIff | internal/pipeline/pool.go:56-95 | without cancellation some schedule returns an item's error iff fewer items fail ahead of it than there are workers |
| PoolErrors.OneWorker | internal/pipeline/pool.go:56-95 | with one worker that is the first failing item |
| Pool.RunPool | internal/pipeline/pool.go:29-110 | the pool as a whole: the empty input, and as many workers as asked for but at least one |
| Reporting.Reporter.Update | internal/pipeline/progress.go:31-48 | the event becomes the newest pending one and only the oldest is dropped, only when full; a nil channel ignores it |
| Reporting.Reporter.UpdateAll | internal/pipeline/progress.go:31-48 | with no consumer the channel holds exactly the newest events in order |
| Reporting.NewestIs | internal/pipeline/progress.go:35-47 | the newest n events are the end of the list, all of it or exactly n |
| Reporting.OldestDropped | internal/pipeline/progress.go:40-46 | with room for two the oldest of three events goes |
| Reporting.StepInv | internal/pipeline/progress.go:35-47 | every step of any sender or the consumer keeps send order and the newest event |
| Reporting.ReporterCorrect | internal/pipeline/progress.go:19-48 | received and buffered events are a subsequence of the sent ones; with no Update in progress the last sent is received or buffered |
| Reporting.NeverBlocks | internal/pipeline/progress.go:29-30 | from any state a caller inside Update completes with at most three moves of its own, and its event is the newest one buffered |
| Reporting.SomeoneCompletes | internal/pipeline/progress.go:35-47 | retries are bounded: some Update completes within capacity plus two steps a sender |
| Stages.ListByStatus | internal/store/files.go:196-214 | the batch is the head of the queue in id order |
| Stages.BatchLength | internal/pipeline/pipeline.go:77-82 | a batch takes the whole queue or the configured number, a hundred where none is configured |
| Stages.StageWorkers | internal/pipeline/pipeline.go:70-75 | the pool of a stage has its own positive number of workers, else one a processor, and at least one |
| Stages.StageNames | internal/pipeline/pipeline.go:57-68 | the three names a stage run knows, the status each takes, and that each feeds the next |
| Stages.AppliedMoves | internal/pipeline/stage.go:8-11 | a batch moves only files of the input status, and shrinks the queue by those that moved |
| Stages.BatchFacts | internal/pipeline/pipeline.go:217-250 | a batch that was not cut short and did not shrink the queue moved nothing |
| StageAborts.MayAbortIff | internal/pipeline/pipeline.go:225-236 | without cancellation some schedule of a batch aborts the stage iff a file whose error wraps a context error has fewer failing files ahead of it than there are workers |
| StageAborts.MustAbortIff | internal/pipeline/pipeline.go:225-236 | every schedule does iff there are failing files and all those with so few failing ahead are interrupted |
| StageAborts.InterruptedInput | internal/pipeline/pipeline.go:226-229 | one interrupted file, nobody cancels: every schedule aborts the stage |
| StageAborts.WorkersDecide | internal/pipeline/pipeline.go:226-229 | behind a file that fails plainly, an interrupted one never aborts with one worker and may with two |
| Stages.Pipeline.RunBatch | internal/pipeline/pipeline.go:224 | one pool run: Process ran on exactly the ids handed out |
| Stages.Pipeline.RunStage | internal/pipeline/pipeline.go:148-261 | the loop terminates; nil means the input status is empty, a no-progress error that the last batch moved nothing, an interruption that a batch had an interrupted file that could abort it; undisturbed nothing else is returned, and a first batch that must abort does; a cancellation or a failing query is returned only if there was one, and one before the first batch ends the stage with nothing changed; a file only moves with fewer than a batch of staying files ahead of it; two events are reported, Total in both the size of the queue at the start, the last one saying how the stage ended (only the first when a later query fails, none for an unknown stage or when the first count fails); when no Process call leaves its file in place Done + Failed in the last event is the number of files that left the queue, and Failed the number of those for which Process returns an error where it answers alike in every batch |
| Resuming.DrainedIff | internal/pipeline/pipeline.go:200-251 | where every file has one fate, a stage that runs its course returns nil iff no file in its queue stays |
| Resuming.LeftBehindIff | internal/pipeline/pipeline.go:242-250 | a stage that runs its course leaves a file that would move in its queue iff at least a batch of staying files is ahead of it |
| Resuming.StageEnds | internal/pipeline/pipeline.go:200-251 | however the stage is scheduled, the table it ends in is a function of the table it started from and the fates |
| Resuming.BlockedInput | internal/pipeline/pipeline.go:242-250 | two files and a batch size of one: the stage can give up, and never reaches the second file, which would advance |
| Resuming.FinKept | internal/pipeline/pipeline.go:110-115 | a stage run, however it ends, does not change where files will end up, even if it left some in place that would have moved |
| Resuming.AnalyzedIff | internal/pipeline/pipeline.go:57-68 | a file ends analyzed iff metadata, thumb and analyze, as far as they are ahead of it, all advance it |
| Resuming.FailedIff | internal/pipeline/pipeline.go:57-68 | it ends failed iff the first of them that does not advance it fails on it |
| Resuming.Confluent | internal/pipeline/pipeline.go:84-87 | any two histories of status changes that leave nothing to do end in the same table |
| Resuming.RunStagesAndCluster | internal/pipeline/pipeline.go:123-141 | nil leaves no file discovered, metadata or thumbed and the tables of a rebuild over the analyzed files; otherwise the cluster tables are unchanged; without disturbance nil is reached; a run that gets to the clustering reports the start and the end of metadata, thumb, analyze and cluster in this order |
| Resuming.Resume | internal/pipeline/pipeline.go:116-121 | the same after a context check; a done context changes nothing |
| Resuming.RunWithStops | internal/pipeline/pipeline.go:84-121 | stopping and resuming any number of times, with a Process of its own for each attempt that leaves files in place or does what their fate says, finishes in the table one uninterrupted run leaves and clusters its analyzed files; a run that gives up ends in one table as well |
| FullRun.Run | internal/pipeline/pipeline.go:88-108 | a done context changes nothing and reports nothing; discovery fails iff there is no root, the tree does not let the walk through or the context ends first, leaves a prefix of the upserts, and runs no stage; otherwise the rows are those of a complete walk with the statuses of the stage run, and nil leaves the navigable cluster tables of the analyzed files; undisturbed stages give nil iff discovery succeeds; a nil run reports the start and the end of discover, metadata, thumb, analyze and cluster |
| FullRun.FinishedFiles | internal/pipeline/pipeline.go:84-108 | after a nil run every visited file has an up-to-date row that no stage has work for, and every other row is missing |
| FullRun.FinishedClusters | internal/pipeline/pipeline.go:84-108 | after a nil run exactly the analyzed rows are in a cluster, each in one |
| FullRun.FinishedRow | internal/pipeline/pipeline.go:84-108 | each row is what the walk made of it, moved to where its fate takes it |
| Paths.SuffixedPathForm | internal/picks/export.go:113-118 | the number goes in between the stem and the extension of the last element |
| Paths.DecimalReads | internal/picks/export.go:117 | decimal notation can be read back, so different numbers are written differently |
| Paths.DecimalCanonical | internal/picks/export.go:117 | it consists of digits, and only 0 starts with a zero |
| Paths.SecondName | internal/picks/export.go:112 | the second name for "a/b.jpg" is "a/b_2.jpg" |
| Paths.CandidatesDistinct | internal/picks/export.go:93-96 | the base name and all suffixed names are pairwise distinct |
| Paths.CandidateTmp | internal/picks/export.go:64 | a suffix neither adds nor removes the ending of a temporary name |
| Paths.IsUnderIff | internal/picks/export.go:148-153 | a path is under another iff it lies below it or is the same path |
| Picks.TakenBound | internal/picks/export.go:92-108 | at most as many names are taken as the disk has entries |
| Picks.ResolveTarget | internal/picks/export.go:90-110 | the unbounded search stops, at the smallest n whose name is free, holds the file's hash, or cannot be read |
| PickEffects.TargetNoIff | internal/picks/export.go:92-108 | n is the number settled on iff its name is free, holds a readable file of the hash, or cannot be read, and every smaller one holds a readable file of another hash |
| Picks.Service.CopyTo | internal/picks/export.go:61-82 | the copy appears under the target only when complete; a fault leaves no temporary file |
| Picks.Service.ExportFile | internal/picks/export.go:33-83 | the new disk and the exported path, in every case of source, target and fault |
| PickEffects.ExportEffect | internal/picks/export.go:33-83 | it succeeds iff the original can be read and its target holds the content already or is free and nothing about the copy fails; then the target holds the content, and a failed export at most removes what was under the temporary name |
| Picks.Service.Pick | internal/picks/picks.go:51-73 | the new table and disk; a failed export deletes the row |
| Picks.Service.Unexport | internal/picks/export.go:124-145 | the recorded file is removed and the column cleared, or nothing changes when the remove fails |
| Picks.Service.Unpick | internal/picks/picks.go:76-94 | the new table and disk; only a picked row is touched |
| Picks.Service.Reject | internal/picks/picks.go:98-112 | the new table and disk; a picked file is unexported first |
| Picks.Service.Unreject | internal/picks/picks.go:115-127 | the new table; only a rejected row is touched |
| PickEffects.OthersUntouched | internal/picks/picks.go:51-127 | an operation changes no row but its own file's |
| PickEffects.UnknownFile | internal/picks/picks.go:52-55 | for an unknown file every operation changes nothing and reports an error |
| PickEffects.PickEffect | internal/picks/picks.go:56-72 | picking an unpicked file succeeds iff its export does, and leaves it picked with the exported path, or else without a row |
| PickEffects.PickAgain | internal/picks/picks.go:57-59 | picking a picked file changes nothing |
| PickEffects.UnpickEffect | internal/picks/picks.go:87-93 | unpicking a picked file leaves it without a row and without its export, or changes nothing when the remove fails |
| PickEffects.UnpickKeeps | internal/picks/picks.go:80-86 | unpicking leaves a rejection, and a file without a row, as they are |
| PickEffects.RejectEffect | internal/picks/picks.go:98-112 | rejecting leaves the file rejected without its export, or changes nothing when the remove fails |
| PickEffects.UnrejectEffect | internal/picks/picks.go:126 | unrejecting a rejected file leaves it without a row and the disk alone |
| PickEffects.UnrejectKeeps | internal/picks/picks.go:119-125 | unrejecting leaves a pick, and a file without a row, as they are |
| PickEffects.RejectUnrejectIff | internal/picks/picks.go:96-127 | rejecting and then unrejecting a file that is not picked restores everything iff it had no row |
| PicksTheorems.Perform | internal/picks/picks.go:51-127 | a sequence of operations ends in the specified state |
| PicksTheorems.ApplyAgrees | internal/picks/picks.go:51-127 | each operation, failing or not, keeps table and disk in agreement |
| PicksTheorems.PicksAgree | internal/picks/picks.go:51-127 | over every run from an empty directory each picked row's export holds the original's content, exports are distinct, rejected rows have none, the directory holds nothing else |
| PicksTheorems.FailedPickIff | internal/picks/picks.go:63-68 | a failed Pick leaves the table as it was iff the file had no row |
| PicksTheorems.RejectionLost | internal/picks/picks.go:63-68 | a rejected file whose original is gone: Pick fails and the rejection is deleted |
| PicksForeign.ExportFrame | internal/picks/export.go:33-83 | an export changes no existing file but the target's temporary, and adds nothing but the target |
| PicksForeign.ExportHolds | internal/picks/export.go:84-110 | after a successful export the target holds the file's content hash |
| PicksForeign.PicksCoexist | internal/picks/picks.go:51-127 | over every run in a directory with foreign files, for distinct hashes: exports held and distinct, nothing new left behind, unrelated foreign files unchanged |
| PicksForeign.UnpickSafeIff | internal/picks/export.go:136-143 | unpicking leaves the other picks intact iff no other picked row records the same path |
| PicksForeign.PickUnpickIff | internal/picks/picks.go:51-94 | pick then unpick restores everything iff the target name and its temporary were free |
| PicksForeign.SharedExport | internal/picks/export.go:104-106 | two files of equal content can share an export, and unpicking one deletes what the other records |
| PicksForeign.SharedExportInput | internal/picks/export.go:104-106 | two files and a foreign one for which that happens |
| FilesTable.LikePrefix | internal/store/files.go:277-281 | without wildcards the LIKE pattern matches exactly the paths below the directory |
| Rescans.LikeUnder | internal/store/files.go:277-281 | for any directory the pattern matches the paths with a separator after a part that the directory, read as a pattern, matches |
| Rescans.LikeAny | internal/store/files.go:280 | a percent sign stands for any text |
| Rescans.LikeOne | internal/store/files.go:280 | an underscore stands for any one character |
| Rescans.EvictedIff | internal/store/files.go:273-281 | which rows an eviction deletes, whatever the directory is called |
| Rescans.PlainEvictedIff | internal/store/files.go:265-281 | without wildcards: the directory itself and what lies below it, up to case |
| FilesTable.FilesRepo.Insert | internal/store/files.go:58-81 | a path present in any casing is left alone and its id returned |
| FilesTable.FilesRepo.UpsertOnRescan | internal/store/files.go:302-322 | unknown path inserts, same size, mtime and hash changes nothing, anything else resets the row to discovered and keeps its id |
| FilesTable.FilesRepo.MarkMissingExcept | internal/store/files.go:327-356 | exactly the rows of unseen paths, up to case, become missing; with nothing seen all do |
| Rescans.MarkedRow | internal/store/files.go:337-350 | a row becomes missing iff no seen path equals its own up to case, and nothing else of it changes |
| FilesTable.UpsertUnique | internal/store/files.go:296-298 | an upsert never makes two rows of one path up to case |
| FilesTable.UpsertNothingNew | internal/store/files.go:314-316 | an upsert of what the table already says changes nothing |
| Rescans.UpsertUnchangedIff | internal/store/files.go:311-313 | an upsert changes nothing iff a row has the path up to case and the same size, mtime and hash |
| Rescans.UpsertNew | internal/store/files.go:307-310 | a path without a row gets one at the end, discovered, with the id after the largest |
| Rescans.UpsertModified | internal/store/files.go:314-321 | otherwise its row keeps id, casing and metadata, takes the new data, and is discovered without an error; the other rows stay |
| FilesTable.StatusPreservedIff | internal/store/files.go:289-322 | an upsert preserves the status of the file's row iff size, mtime and hash are equal or the row was discovered |
| FilesTable.TouchedFile | internal/store/files.go:311-321 | a row of a file with equal size and hash and a later mtime that an upsert resets |
| Scanner.Walker.Visit | internal/scanner/scanner.go:89-161 | one entry: skip rules, media filter, unreadable files and context checks; the table holds the upserts of what was visited so far |
| Scanner.Walker.Walk | internal/scanner/scanner.go:66-183 | success means evict, upsert all, mark the rest missing; failure means a prefix of the upserts and nothing marked; it succeeds iff the root can be listed, everything the walk gets to and needs opens, and the context outlasts the entries it looks at |
| Visited.VisitedIff | internal/scanner/scanner.go:102-135 | a record is visited iff it describes a file with a recognised extension outside the picks directory none of whose folders has a name starting with a dot or equal to node_modules, or is the picks directory up to case |
| Visited.ReadableIff | internal/scanner/scanner.go:89-146 | the tree lets the walk through iff every folder it goes into can be listed and every file it wants has a hash |
| Visited.MediaIff | internal/scanner/format.go:17-42 | which names are recognised and with which kind and format: the twelve extensions, in any case |
| Scanner.Walker.SetPicksDir | internal/scanner/scanner.go:51-57 | the picks directory is the trimmed one, or "picks" where nothing is left of it |
| Visited.VisitsInOrder | internal/scanner/scanner.go:167 | entries are visited in the order of the listing, what is in a folder in its place |
| Visited.LeafOnce | internal/scanner/scanner.go:102-165 | a file is visited at most once |
| Rescans.TrimIs | internal/scanner/scanner.go:51-57 | setting the picks directory takes separators off both ends and nothing else |
| ScannerTheorems.WalkSyncs | internal/scanner/scanner.go:65 | after any successful walk each visited path has exactly one row with the disk's size, mtime and hash, and every other row is missing |
| ScannerTheorems.VisitsAllOutside | internal/scanner/scanner.go:130-135 | no visited path lies in the picks directory |
| ScannerTheorems.WalkIdempotent | internal/scanner/scanner.go:65-66 | without wildcards in the picks directory a second walk over an unchanged tree changes no row |
| ScannerTheorems.SettledWalkIff | internal/store/files.go:277-281 | whatever the directory is called, a walk over a table in step with the disk and done with the pipeline changes nothing iff the pattern matches no row |
| ScannerTheorems.WildcardBreaks | internal/scanner/scanner.go:80-84 | a tree, a picks directory and a table in step with the disk and through the pipeline that a walk changes |
| ScannerTheorems.UnchangedRowKept | internal/store/files.go:311-313 | a row of an unchanged file survives a walk untouched, including one that was missing |
| ScannerTheorems.VisitedRowIff | internal/scanner/scanner.go:66-183 | what a walk makes of the row of a visited file: same id, same status iff nothing changed or it was discovered; a missing row leaves that status iff size, mtime or hash differ |
| WalkTwice.WalkTwiceIff | internal/scanner/scanner.go:65-66 | for any table, a second walk over an unchanged tree changes nothing iff no visited file matched by the eviction pattern comes before an unmatched one that is new |
| WalkTwice.IdempotentIff | internal/scanner/scanner.go:65-66 | walking twice is walking once on every table iff no visited file the pattern matches comes before one it does not match |

## Left out

- SQL engine: tables are sequences and maps with the stated WHERE and ORDER BY meaning, and transactions are atomic; drivers, locking, the bound on statement parameters and foreign-key cascades (what deleting a file row does to picks and clusters) are not modelled.
- Database errors: modelled only where they change the outcome of a loop (queries of a stage run, inserts of WriteClusters); the picks table and the rescan are assumed to write successfully.
- Floating-point rounding: similarities are real numbers, so ties at a threshold that rounding could move are not covered.
- Non-ASCII paths: LOWER and EqualFold are modelled on ASCII, where Go and SQLite agree.
- ContentHash over windows: the hash is a function of the content; that large files are hashed by their ends only is not modelled, so the picks theorems that need it assume that the table's hash is the hash the export computes.
- Directories on the export path: creating them either succeeds or fails; empty ones left behind are not tracked. Removing the temporary file after a fault is assumed to work.
- Crash in the middle of an operation, and calls of the picks service from several goroutines at once.
- Path-containment guards: where isUnder is called, export roots and symbolic links.
- Process of the stages: an outcome per file and call; the tools behind it, and their writing "failed" when cancellation kills them (internal/thumb/builder.go:45), are not modelled.
- Stages.Pipeline.RunStage: the running progress events between the first and the last, and log lines, are not recorded.
- Metadata and embeddings: what a rebuild reads of them is a parameter of each attempt, not a result of its stages.
- RebuildBucket and WriteBucket: not on the path of a whole rebuild.
- Members, AddMember, InsertCluster and the other single-row helpers of the store.
- HTTP handlers, configuration, metadata extraction, thumbnails, embedding inference, the pipeline start and stop adapter.
