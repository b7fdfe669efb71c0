# Checkpoint archive, analytics indexer and metrics: a Dafny model

This project models parts of the Sui repository and proves what they promise.

- **Checkpoint archive** (`ArchiveTypes`, `ArchiveWriter`, `ArchiveProtocol`, `ArchiveInvariant`, `ArchiveTheorems`,
  `ArchiveSizes`, `ArchiveLengths`, `ArchiveProgress`, `ManifestCheck`, `ArchiveRead`, `ArchiveReadTheorems`, `ArchiveReplay`, `ArchiveWatermarks`,
  `ArchiveRestore`, `HonestHistory`, with the byte level in `BlobFormat`, `ArchiveFormat` and `FileNames`). A writer tails a history of
  checkpoints into pairs of content and summary files, records each finished pair in a manifest and queues it. A second
  loop uploads summary, content and manifest of each pair in order. The archive is a transition system whose steps are
  write, fetch, the three uploads, crash, start and cache refresh; one inductive invariant, over every run, carries the
  theorems. The reader checks the manifest, selects files by binary search, and replays them into a store that trusts
  nothing it has not verified. `CheckpointWriting` and `CheckpointReplaying` are the writer and the store as they run:
  objects whose fields change in place, proved equal to the functions the theorems are about.
- **Analytics indexer** (`AnalyticsIndexer`, `AnalyticsTheorems`, `AnalyticsProgress`, `AnalyticsRepeats`). Rows are buffered, cut into files
  named by their checkpoint range, uploaded in order, and the resume point is read off the file names after a crash.
- **Metered channel** (`MeteredChannel`). A bounded queue and its gauge under every interleaving of the steps of senders,
  permit holders and the receiver.
- **Sorting histogram** (`Histogram`, `HistogramReporting`). Collector and reporter as loops and an object, and the meaning
  of the metrics after any number of windows.
- **Heap measurement** (`MallocSize`). The constant-size shortcut against a reference size over all nested types.
- **Committee thresholds** (`ConsensusCommittee`) and the **dependency worklist** of the execution layer's encapsulation
  test (`PackageGraph`, `PackageOrders`).

Hash functions, signatures, BCS and zstd are function-valued parameters with stated laws; time is an `elapsed` flag;
object stores are maps; the failures of a store are parameters. Machine integers are unbounded except where the code's
width shows: sequence numbers and epochs overflow to an error, stake sums, percentile indexes and metric sums wrap as in a
release build (the release profile has no overflow checks and aborts on panic, `Cargo.toml:196-204`).

## Where the code and its promises part

Each of these is proved; where a property fails, the exact condition under which it holds is given with it.

- An archive that crashed after its first upload and before its first manifest can never be started again: `start` finds
  files, expects a manifest and panics. It starts exactly when nothing was uploaded or a manifest was published
  (`RestartExactly`, `WedgedForever`, `CrashBeforeFirstManifestWedges`).
- With the store that keeps a single checkpoint, a failure between storing a summary and moving the synced watermark makes
  every later attempt panic; the retries around it cannot help (`OneShotRetryLost`, `AttemptOutcome`; a case in every
  genuine history of two checkpoints in `OneShotLosesRetry`).
- An archive that leaves checkpoints out can make a full store skip contents (`GapExactly`; a case in every genuine
  history of three checkpoints in `GapOpens`).
- The offset compared with `commit_file_size` is not the length of the content file. It is short of it by six bytes in the
  pair of files opened by a start, and by two in every pair opened by a later cut or reset; a start whose first write
  resets at once commits only pairs of the second kind. So a file of two checkpoints or more can be longer than the limit,
  by those six or two bytes and no more, and one six bytes longer is published (`PublishedLengths`, `LongerThanLimit`,
  and the `Valid` predicate of `CheckpointWriter`).
- Analytics rows are delivered exactly once when the resume point is read off the store (`ExactlyOnce`). A checkpoint can
  end up in two files exactly when there is a remote path prefix or a configured start, the interval is two or more, and
  past the start there are two neighbouring checkpoints of one epoch, one of them with rows, that are not the last of the
  history (`RepeatsExactly`).
- A dropped permit lowers the gauge before its slot is free again, a quick receiver takes the gauge to -1, a quick sender
  takes that of any channel past its capacity, and items discarded with the receiver stay in the gauge for ever (`GaugeInFlight`,
  `GaugeCanBeNegative`, `GaugeCanExceedCapacity`, `DroppedReceiverLeaks`).
- The percentile index is documented to be below the length. The report panics exactly when the product of the number of
  points and a percentile, wrapped at 64 bits, is 1000 times that number or more (`PanicsExactly`); where nothing wraps,
  that is every percentile from 1000 on (`PanicsFromThousand`).
- An index map measured entry by entry counts its own storage twice (`SizeOfIsDeep`, `IndexMapExactly`).
- The committee thresholds complement each other exactly when twice the sum of the stakes handed in fits in 64 bits;
  otherwise two single authorities can both be quorums, whether the doubling overflows or the sum itself
  (`ThresholdsExactly`, `OverflowSplitsQuorum`, `WrappedSumSplitsQuorum`).
- The encapsulation test reports only genuine bypasses, but can miss one, because its worklist keeps a spanning tree. It
  finds every bypass, in whatever order packages list their dependencies, exactly when there is none or no simple chain
  of dependencies to the crate goes through a removed package (`CompleteExactly`); `MissedBypass` is a concrete miss.
- The layout comment in `crates/sui-archival/src/lib.rs` shows a serialized manifest between magic and digest; the code
  writes a length-prefixed blob there, and the model follows the code.

## Model

| member | source | states |
|---|---|---|
| ArchiveWriter.WriteTakesExactly | crates/sui-archival/src/writer.rs:132-185 | a checkpoint is written if and only if it is the next number, of this or the next epoch, with the digest of its contents, and no counter overflows; overflow alone is an error, the rest panics |
| ArchiveWriter.WriteConserves | crates/sui-archival/src/writer.rs:132-237 | a write puts the checkpoint last in the open pair and queues at most one finished pair, which is the whole of the pair open before, and loses no pending checkpoint |
| ArchiveWriter.WriteCutsExactly | crates/sui-archival/src/writer.rs:142-172 | a write queues a pair if and only if one is open and the checkpoint is of the next epoch, does not fit, or the time is up; exactly then the checkpoint is alone in the open pair |
| CheckpointWriting.CheckpointWriter.constructor | crates/sui-archival/src/writer.rs:73-120 | a new writer resumes at the manifest's next checkpoint and epoch, with the local directory of that epoch cleared |
| CheckpointWriting.CheckpointWriter.Finalize | crates/sui-archival/src/writer.rs:186-221 | the finished file holds the pending checkpoints in the archive format, and the metadata its range, epoch and digest |
| CheckpointWriting.CheckpointWriter.CutFiles | crates/sui-archival/src/writer.rs:222-237 | both files, the manifest entry and the queued update are those of the pending checkpoints; nothing happens on an empty range |
| CheckpointWriting.CheckpointWriter.ResetFiles | crates/sui-archival/src/writer.rs:269-302 | new files are opened at the end of the range and the offset restarts at the magic |
| CheckpointWriting.CheckpointWriter.AppendBlobs | crates/sui-archival/src/writer.rs:174-184 | both buffers grow by the checkpoint's blobs, and the offset by exactly the announced blob size |
| CheckpointWriting.CheckpointWriter.MoveToEpoch | crates/sui-archival/src/writer.rs:142-155 | a checkpoint of the next epoch closes the open pair and clears that epoch's local directory |
| CheckpointWriting.CheckpointWriter.CutIfFull | crates/sui-archival/src/writer.rs:164-172 | the pair is closed when the blob does not fit or the time is up |
| CheckpointWriting.CheckpointWriter.Write | crates/sui-archival/src/writer.rs:132-185 | the whole write, with its errors and panics, is the specification on the bytes written so far; buffers always hold exactly the pending checkpoints |
| ArchiveInvariant.WriteKeepsInv | crates/sui-archival/src/writer.rs:399-435 | in every reachable state the write of the next checkpoint succeeds and keeps the invariant, whatever cuts it makes |
| ArchiveInvariant.UploadSummaryKeepsInv | crates/sui-archival/src/writer.rs:437-499 | uploading the summary never fails and touches no file of an earlier pair |
| ArchiveInvariant.UploadContentKeepsInv | crates/sui-archival/src/writer.rs:437-499 | uploading the content never fails and touches no file of an earlier pair |
| ArchiveInvariant.PublishKeepsInv | crates/sui-archival/src/writer.rs:437-487 | publishing a manifest lists exactly one more pair, whose files are already remote |
| ArchiveInvariant.AbortKeepsInv | crates/sui-archival/src/writer.rs:347-397 | a crash at any point loses only pairs that no published manifest lists |
| ArchiveInvariant.RecoveredIsLastPublished | crates/sui-archival/src/writer.rs:347-366 | a start resumes from the last published manifest, from genesis on an empty store, and panics otherwise |
| ArchiveInvariant.StepKeepsInv | crates/sui-archival/src/writer.rs:132-499 | every step keeps the invariant tying history, cuts, local files, channel, remote files and manifests |
| ArchiveInvariant.RunKeepsInv | crates/sui-archival/src/writer.rs:132-499 | the invariant holds after every run, with any crashes and restarts |
| ArchiveTheorems.WriterManifestVerifies | crates/sui-archival/src/reader.rs:172-214 | every manifest the writer can make passes the reader's check and is paired as it was cut |
| ArchiveTheorems.PublishedManifestsTile | crates/sui-archival/src/writer.rs:347-487 | every manifest ever published verifies, with pairs of equal non-empty single-epoch ranges tiling 0 to its next checkpoint |
| ArchiveTheorems.ListedPresent | crates/sui-archival/src/writer.rs:437-499 | every file a published manifest lists is in the remote store with the recorded digest |
| ArchiveTheorems.ListedFilesNeverChange | crates/sui-archival/src/writer.rs:437-499 | a listed file keeps its bytes through every later run, re-cuts after crashes included |
| ArchiveTheorems.PublishedManifestsExtend | crates/sui-archival/src/lib.rs:191-208 | each published manifest properly extends the entries of every earlier one, ends later and in no earlier epoch |
| ArchiveTheorems.NoStepAborts | crates/sui-archival/src/writer.rs:399-499 | no assertion fails and no local file is missing in any run: nothing but a crash stops a running archive |
| ArchiveTheorems.RestartExactly | crates/sui-archival/src/writer.rs:347-397 | a stopped archive starts again if and only if nothing was uploaded or a manifest was published, and then at that manifest's next checkpoint |
| ArchiveTheorems.WedgedForever | crates/sui-archival/src/writer.rs:352-366 | an archive with files but no manifest never uploads or publishes again |
| ArchiveTheorems.CrashBeforeFirstManifestWedges | crates/sui-archival/src/writer.rs:352-366 | a run that crashes between the first upload and the first manifest ends there, for every history of two checkpoints or more |
| ArchiveProgress.RefreshIsCurrent | crates/sui-archival/src/reader.rs:504-512 | in every reachable state a refresh makes the last published manifest the cached one and changes nothing else |
| ArchiveProgress.CacheNeverFalls | crates/sui-archival/src/reader.rs:617-637 | the end of the cached manifest never falls along a run |
| ArchiveProgress.RunningWriteCuts | crates/sui-archival/src/writer.rs:166-172 | in every running archive the next write cuts if and only if a pair is open and due |
| ArchiveProgress.TimeoutWriteAlone | crates/sui-archival/src/writer.rs:166-172 | in every running archive a write after the timeout leaves exactly its checkpoint pending |
| ArchiveProgress.WriteHasRoom | crates/sui-archival/src/writer.rs:222-237 | a write waits for nothing but room for one update in the channel |
| ArchiveProgress.QueueBounded | crates/sui-archival/src/writer.rs:347-397 | the channel never holds more than a hundred updates |
| ArchiveProgress.EpochDirsAreFresh | crates/sui-archival/src/writer.rs:142-155 | whatever crashes left behind, every finished file in the current epoch's local directory is waiting to be uploaded |
| ArchiveProgress.EverythingCanBePublished | crates/sui-archival/src/writer.rs:399-487 | from every state of a running archive some run publishes the whole history but its last checkpoint |
| ArchiveProgress.CanGoOn | crates/sui-archival/src/writer.rs:347-397 | an archive that can be started loses nothing published by it |
| ArchiveSizes.OpenPairFits | crates/sui-archival/src/writer.rs:164-184 | in every reachable state the tracked offset is the bytes of the blobs, four more in a reopened pair, and within the commit size once there are two checkpoints |
| ArchiveSizes.PublishedFilesFit | crates/sui-archival/src/writer.rs:164-184 | every published file was the open pair of a reachable state, with its offset there and its blobs within the commit size unless it holds one checkpoint |
| ArchiveLengths.PublishedLengths | crates/sui-archival/src/writer.rs:249-290 | every published content file is, uncompressed, its tracked offset plus six bytes, or plus two if reopened; with two checkpoints or more it exceeds the commit size by no more than that |
| ArchiveLengths.LongerThanLimit | crates/sui-archival/src/writer.rs:73-120 | a run that publishes a file of two checkpoints six bytes longer than the commit size, for every history whose first two checkpoints fill it |
| BlobFormat.VarRoundTrip | crates/sui-storage/src/blob.rs:42-68 | the length prefix is read back from any following bytes |
| BlobFormat.WriteHasSize | crates/sui-storage/src/blob.rs:56-74 | the announced size is the number of bytes written, and the prefix fits its buffer |
| BlobFormat.BlobRoundTrip | crates/sui-storage/src/blob.rs:42-68 | a blob is read back whatever follows it, if and only if it is not empty |
| BlobFormat.EncodeVarMeans | crates/sui-storage/src/blob.rs:56-68 | the length prefix is seven bits a byte, least significant first, high bit on all but the last |
| BlobFormat.AcceptedBlob | crates/sui-storage/src/blob.rs:42-55 | any blob that is read is a prefix of at most ten bytes giving its length, the encoding byte 1, and non-empty data |
| BlobFormat.BlobsRoundTrip | crates/sui-storage/src/blob.rs:88-112 | iterating a file of blobs yields the values written, in order |
| ArchiveFormat.OpenFinished | crates/sui-storage/src/lib.rs:116-162 | a finished file opens with its magic and yields its body, compressed or not |
| ArchiveFormat.OpenedHeader | crates/sui-storage/src/lib.rs:132-152 | only a file with the expected magic, the blob format and a known compression is opened |
| ArchiveFormat.MagicBytes | crates/sui-archival/src/writer.rs:249-268 | the first bytes of content, summary and manifest files, literally |
| ArchiveFormat.FilesRoundTrip | crates/sui-archival/src/writer.rs:238-268 | content and summary files of any checkpoints are not empty and read back as those checkpoints |
| ArchiveFormat.ManifestRoundTrip | crates/sui-archival/src/lib.rs:264-312 | reading inverts writing for every manifest |
| ArchiveFormat.AcceptedManifest | crates/sui-archival/src/lib.rs:264-293 | every accepted byte string has the magic and ends with the digest of all before it |
| ArchiveFormat.MakeCodecLawful | crates/sui-archival/src/lib.rs:61-97 | the byte format meets every law the protocol theorems assume of a codec |
| FileNames.PathsDiffer | crates/sui-archival/src/lib.rs:116-130 | no two files of an archive have the same path text |
| FileNames.EpochDirRoundTrip | crates/sui-storage/src/object_store/util.rs:199-218 | the epoch parsed from a directory name is the one written |
| FileNames.RangeNameRoundTrip | crates/sui-storage/src/object_store/util.rs:265-289 | the range parsed from an analytics file name is the one the file was cut for |
| ManifestCheck.VerifyManifestIff | crates/sui-archival/src/reader.rs:172-214 | for non-empty ranges the check accepts if and only if the entries can be arranged into pairs tiling the history, in any listing order, and returns that arrangement |
| ManifestCheck.VerifyManifestFails | crates/sui-archival/src/reader.rs:172-214 | an empty manifest is an error, and one whose files cannot be so arranged panics, and nothing else does |
| ManifestCheck.TilesMeans | crates/sui-archival/src/reader.rs:172-214 | tiling spelled out: equal ranges in a pair, each pair from the end of the one before, the first from zero |
| ManifestCheck.BinarySearchByStart | crates/sui-archival/src/reader.rs:393-405 | the search finds the pair starting at the key, or the place where it would be |
| ManifestCheck.SelectionComplete | crates/sui-archival/src/reader.rs:393-405 | the start index never underflows, and every file holding a checkpoint of the range is selected |
| ManifestCheck.SelectionStartsAtRange | crates/sui-archival/src/reader.rs:600-612 | the first selected file holds the start of the range if and only if the archive does |
| ManifestCheck.SelectionExact | crates/sui-archival/src/reader.rs:393-405 | exactly the files that share a checkpoint with the range are selected |
| ArchiveRead.ReadFaithfulPairs | crates/sui-archival/src/reader.rs:407-443 | contiguous files read in order give the history between their ends, cut to the range |
| ArchiveRead.ReadFailsExactly | crates/sui-archival/src/reader.rs:407-443 | for any archive the delivery fails if and only if some file of a pair is missing or cannot be opened, after delivering exactly the pairs before the first such |
| ArchiveReadTheorems.ReadRoundTrip | crates/sui-archival/src/reader.rs:365-476 | in every reachable state, reading any range through any published manifest, however stale, delivers exactly the history in that range below the manifest's end, or an error past it |
| ArchiveReadTheorems.AfterEpochCounts | crates/sui-archival/src/lib.rs:169-190 | the next checkpoint after an epoch is the number of archived checkpoints up to that epoch when a later one is archived, else the maximum |
| ArchiveReadTheorems.WatermarkBelowEach | crates/sui-archival/src/reader.rs:76-93 | the watermark is archived according to every cached manifest used for pruning |
| ArchiveReadTheorems.WatermarkAttained | crates/sui-archival/src/reader.rs:76-93 | the watermark is the latest checkpoint of one of those manifests, so it is the least of them |
| ArchiveReadTheorems.WatermarkExactly | crates/sui-archival/src/reader.rs:76-93 | there is no watermark if and only if no reader is used for pruning, and an error if and only if one that is has no checkpoint |
| ArchiveReadTheorems.BelowNextArchived | crates/sui-archival/src/reader.rs:479-485 | every checkpoint below a published manifest's end sits in listed, present files |
| ArchiveReadTheorems.PruningSafe | crates/sui-archival/src/reader.rs:76-93 | every checkpoint up to the watermark is archived now and in every later state of every archive used for pruning |
| ArchiveReplay.CommitteeProvenance | crates/sui-types/src/storage/shared_in_memory_store.rs:310-327 | every committee used for verification is the genesis one or was named by a stored checkpoint of the epoch before |
| ArchiveReplay.NamedCommitteeKnown | crates/sui-types/src/storage/shared_in_memory_store.rs:310-327 | every committee a stored checkpoint names is known from then on |
| ArchiveReplay.PanicsWithoutCommittee | crates/sui-storage/src/lib.rs:222-242 | a next checkpoint panics the reader if and only if nothing put a committee in charge of its epoch; a refused one changes nothing |
| ArchiveReplay.ChainMeans | crates/sui-storage/src/lib.rs:164-242 | in a verified chain each checkpoint names its predecessor's digest, follows it by one number and at most one epoch, and is signed by a committee the genesis or an earlier checkpoint put in charge |
| ArchiveReplay.GetOrInsertKeepsStoreOk | crates/sui-archival/src/reader.rs:529-573 | whatever summary is offered, the stored checkpoints remain a chain each verified against its predecessor |
| ArchiveReplay.ReplayOneKeepsStoreOk | crates/sui-archival/src/reader.rs:444-471 | one untrusted pair keeps the chain and the match of contents to digests, whichever store operation fails |
| ArchiveReplay.ReplayKeepsStoreOk | crates/sui-archival/src/reader.rs:423-476 | so does any stream of arbitrary archive data, at its end and at every failure |
| ArchiveReplay.StoredContentsMatch | crates/sui-types/src/messages_checkpoint.rs:554-573 | stored contents have the digest their checkpoint names, and consistent effects |
| ArchiveReplay.ReplayStoresMatching | crates/sui-archival/src/reader.rs:423-476 | so it is after replaying arbitrary data, at the end and at every failure |
| ArchiveReplay.HeldContentsExactly | crates/sui-archival/src/reader.rs:444-471 | contents for a held checkpoint are stored if and only if they match it, and leave no trace otherwise |
| ArchiveReplay.ReplayHoldsOne | crates/sui-types/src/storage/shared_in_memory_store.rs:516-558 | a one-checkpoint store never holds more than one checkpoint or the contents of more than one |
| ArchiveReplay.UnverifiedIsStored | crates/sui-archival/src/reader.rs:559-570 | with verification off a new checkpoint is stored as it is, beside those held |
| CheckpointReplaying.CheckpointStore.constructor | crates/sui-types/src/storage/shared_in_memory_store.rs:212-245 | the store after the genesis checkpoint was inserted |
| CheckpointReplaying.CheckpointStore.Insert | crates/sui-types/src/storage/shared_in_memory_store.rs:298-327 | inserting stores the checkpoint, the next committee if unknown, and raises the verified watermark; a one-checkpoint store forgets the others |
| CheckpointReplaying.CheckpointStore.GetOrInsertVerified | crates/sui-archival/src/reader.rs:529-573 | a known checkpoint is returned as stored; an unknown one is stored only after verification against its predecessor |
| CheckpointReplaying.CheckpointStore.ReplayEntry | crates/sui-archival/src/reader.rs:444-471 | contents are stored only when they match the stored checkpoint, and only then does the synced watermark move |
| CheckpointReplaying.CheckpointStore.ReplayAll | crates/sui-archival/src/reader.rs:423-476 | the loop stops at the first failure with the chain of trust intact and no watermark lowered |
| ArchiveWatermarks.ReplayWatermarks | crates/sui-archival/src/reader.rs:444-471 | from one past the synced watermark, at every exit the watermark counts the checkpoints read, at most one more is verified, and no contents below are missing |
| ArchiveWatermarks.GapExactly | crates/sui-archival/src/reader.rs:444-471 | an accepted item leaves contents complete if and only if it is not past the first unsynced checkpoint, or that one's contents are already there |
| ArchiveWatermarks.GapOpens | crates/sui-archival/src/reader.rs:444-471 | in every genuine history of three checkpoints, a failed insert of contents followed by the next checkpoint is accepted and leaves a gap |
| ArchiveWatermarks.RetriesTrack | crates/sui-archival/src/lib.rs:413-479 | over any attempts with any failures, the store mirrors a prefix of the archived history and the synced watermark never falls |
| ArchiveWatermarks.AttemptOutcome | crates/sui-archival/src/lib.rs:413-479 | an attempt in which the store itself does not panic panics if and only if a one-checkpoint store holds a checkpoint verified but not synced; without faults it syncs all that is archived, or errs when there is nothing new |
| ArchiveWatermarks.OneShotRetryLost | crates/sui-types/src/storage/shared_in_memory_store.rs:516-558 | a failed item makes every later attempt panic if and only if its summary was stored before its contents or a watermark failed |
| ArchiveWatermarks.OneShotLosesRetry | crates/sui-types/src/storage/shared_in_memory_store.rs:516-558 | in every genuine history of two checkpoints, contents that do not match make every later attempt panic |
| ArchiveWatermarks.GenesisTracks | crates/sui-archival/src/lib.rs:314-360 | a store holding genesis is a good starting point for every genuine history |
| ArchiveRestore.ArchiveRestores | crates/sui-archival/src/lib.rs:413-479 | writer, upload, any crashes, read and verified replay together: the store ends with exactly the history up to the manifest's end |
| HonestHistory.HonestIsGenuine | crates/sui-storage/src/lib.rs:164-242 | every history of linked, numbered, properly signed checkpoints, each epoch signed by the committee the one before named, is accepted by the reader |
| HonestHistory.HonestArchiveRestores | crates/sui-archival/src/lib.rs:314-360 | from genesis and across any number of epochs, an archive of an honest history restores exactly up to the manifest's end |
| ArchiveRestore.ByteArchiveSound | crates/sui-archival/src/writer.rs:249-302 | all of the above holds of archives made of real bytes, as long as every blob is addressable |
| AnalyticsIndexer.LastEpoch | crates/sui-analytics-indexer/src/lib.rs:350-374 | the greatest epoch directory, or zero |
| AnalyticsIndexer.LastEnd | crates/sui-analytics-indexer/src/lib.rs:350-374 | the greatest end among the files of an epoch, or zero |
| AnalyticsIndexer.AnalyticsProcessor.constructor | crates/sui-analytics-indexer/src/analytics_processor.rs:92-132 | a new processor starts at the resume point in epoch zero |
| AnalyticsIndexer.AnalyticsProcessor.Flush | crates/sui-analytics-indexer/src/writers/parquet_writer.rs:101-123 | a Parquet writer with no rows finishes no file, a CSV writer always does |
| AnalyticsIndexer.AnalyticsProcessor.CutFile | crates/sui-analytics-indexer/src/analytics_processor.rs:138-152 | the finished file holds the buffered rows under the epoch and range the queue is told |
| AnalyticsIndexer.AnalyticsProcessor.ResetFile | crates/sui-analytics-indexer/src/analytics_processor.rs:176-191 | the file writer is reopened at the processor's epoch and range |
| AnalyticsIndexer.AnalyticsProcessor.Process | crates/sui-analytics-indexer/src/analytics_processor.rs:48-88 | processing one checkpoint, with its panics and overflow, is the specification |
| AnalyticsIndexer.ProcessTakesExactly | crates/sui-analytics-indexer/src/analytics_processor.rs:48-88 | a checkpoint is taken if and only if it is the next one, of this epoch or a later one; only overflow is an error |
| AnalyticsIndexer.ProcessCutsExactly | crates/sui-analytics-indexer/src/analytics_processor.rs:56-73 | a checkpoint starts its own file if and only if its epoch is later, the interval is full or the time is up; the closed file is queued with all its rows unless it is Parquet without any |
| AnalyticsIndexer.EpochDirCleared | crates/sui-analytics-indexer/src/analytics_processor.rs:167-174 | a later epoch starts with an empty directory and leaves the others alone |
| AnalyticsTheorems.ResumesAtLastEnd | crates/sui-analytics-indexer/src/lib.rs:350-374 | the greatest end of the greatest epoch is the end of the last upload, however the store lists its files |
| AnalyticsTheorems.StepKeepsInv | crates/sui-analytics-indexer/src/analytics_processor.rs:48-245 | every step keeps the invariant over files, queue, rows and epochs |
| AnalyticsTheorems.ExactlyOnce | crates/sui-analytics-indexer/src/analytics_processor.rs:138-245 | over every run, the uploaded files have increasing disjoint single-epoch ranges and their rows are, in order, the rows of all checkpoints below the resume point |
| AnalyticsTheorems.NoStepAborts | crates/sui-analytics-indexer/src/analytics_processor.rs:48-88 | nothing but a crash stops a running indexer |
| AnalyticsTheorems.UploadedFilesNeverChange | crates/sui-analytics-indexer/src/analytics_processor.rs:193-245 | an uploaded file stays with the rows it had |
| AnalyticsProgress.UploadMoves | crates/sui-analytics-indexer/src/analytics_processor.rs:230-244 | an upload puts exactly the rows of the oldest queued range in the remote store, if there are any, and takes the file off the disk |
| AnalyticsProgress.AllRowsCanArrive | crates/sui-analytics-indexer/src/analytics_processor.rs:48-245 | from every reachable state, running or stopped, some run uploads the rows of all checkpoints but at most the last, in order |
| AnalyticsProgress.ProcessHasRoom | crates/sui-analytics-indexer/src/analytics_processor.rs:138-152 | processing waits for nothing but room for one file in the channel |
| AnalyticsProgress.QueueBounded | crates/sui-analytics-indexer/src/analytics_processor.rs:92-132 | the channel never holds more than a hundred files |
| AnalyticsRepeats.NeverRepeats | crates/sui-analytics-indexer/src/lib.rs:552-562 | with the resume point read off the store, no checkpoint is ever in two files |
| AnalyticsRepeats.FixedStartRepeats | crates/sui-analytics-indexer/src/analytics_processor.rs:230-244 | with a path prefix or a fixed start and an interval of two or more, for every two neighbours that can share a file with rows a run with one crash puts one of them in two files |
| AnalyticsRepeats.RepeatsExactly | crates/sui-analytics-indexer/src/lib.rs:552-562 | some run puts a checkpoint in two files if and only if starts are fixed, the interval is two or more, and past the start two neighbours of one epoch, one with rows, are followed by another checkpoint |
| MeteredChannel.StepKeepsInv | crates/mysten-metrics/src/metered_channel.rs:46-192 | every step of every sender, permit and receiver keeps the accounting of slots, gauge and items |
| MeteredChannel.Accounting | crates/mysten-metrics/src/metered_channel.rs:46-192 | under every interleaving the gauge is queued items and permits, less uncounted sends and reserves and permits being released, plus the receipt not yet discounted and lost items; slots are never oversold; items leave in order; the total is the items received and counted |
| MeteredChannel.GaugeAtRest | crates/mysten-metrics/src/metered_channel.rs:130-192 | with no update outstanding the gauge is queued items and held permits, between zero and the capacity |
| MeteredChannel.GaugeInFlight | crates/mysten-metrics/src/metered_channel.rs:46-192 | in flight it is short by at most the uncounted sends and over the capacity by at most one receipt |
| MeteredChannel.GaugeCanBeNegative | crates/mysten-metrics/src/metered_channel.rs:130-138 | for every channel, a run in which the gauge reads -1 |
| MeteredChannel.GaugeCanExceedCapacity | crates/mysten-metrics/src/metered_channel.rs:46-61 | for every channel, a run in which the gauge reads one more than the capacity |
| MeteredChannel.DroppedReceiverLeaks | crates/mysten-metrics/src/metered_channel.rs:278-313 | after the receiver is dropped the gauge at rest is exactly what was queued then, what was sent on permits since, and the permits held |
| MeteredChannel.CloseGivesNoSlots | crates/mysten-metrics/src/metered_channel.rs:77-80 | after a close no waiting send or reserve, and none called later, ever gets a slot |
| MeteredChannel.CanSettle | crates/mysten-metrics/src/metered_channel.rs:46-192 | from every state some run brings the channel to rest with the same items queued |
| MeteredChannel.EverythingCanBeReceived | crates/mysten-metrics/src/metered_channel.rs:46-61 | while the receiver lives everything sent can be received, in order |
| Histogram.Cycle | crates/mysten-metrics/src/histogram.rs:220-259 | a window holds exactly the values of each label among the first 500000 events, in order, and ends early if and only if a disconnection is among them |
| Histogram.SortPermutes | crates/mysten-metrics/src/histogram.rs:270-270 | sorting keeps every point |
| Histogram.PctIndexInRange | crates/mysten-metrics/src/histogram.rs:304-307 | the index is in range for percentiles below 1000, and never from 1000 on unless the product wraps |
| Histogram.PercentileRank | crates/mysten-metrics/src/histogram.rs:263-307 | the reported value is a point with at most len*p/1000 points below it and more than that at or below it |
| HistogramReporting.Reporter.constructor | crates/mysten-metrics/src/histogram.rs:118-132 | a new reporter knows no label and has no metrics |
| HistogramReporting.Reporter.ComputeGauges | crates/mysten-metrics/src/histogram.rs:269-278 | each gauge of a label reads its percentile, less 2^64 from 2^63 on, unless one finds no point |
| HistogramReporting.Reporter.AddUp | crates/mysten-metrics/src/histogram.rs:279-283 | the sum of the points, wrapped at 64 bits |
| HistogramReporting.Reporter.ReportLabel | crates/mysten-metrics/src/histogram.rs:266-287 | one label's gauges, sum and count are updated and no other label changes |
| HistogramReporting.Reporter.Report | crates/mysten-metrics/src/histogram.rs:263-297 | in whatever order labels are visited, labels of the window get their data, known labels outside it are zeroed, others are untouched; it panics if and only if some label is not reportable |
| HistogramReporting.Reporter.ResetAll | crates/mysten-metrics/src/histogram.rs:289-296 | the gauges of exactly the given labels are zeroed |
| HistogramReporting.PanicsExactly | crates/mysten-metrics/src/histogram.rs:263-307 | a collected window panics the reporter if and only if for some label and percentile the product of its points and the percentile, wrapped at 64 bits, is 1000 times its points or more |
| HistogramReporting.PanicsFromThousand | crates/mysten-metrics/src/histogram.rs:263-307 | where no product wraps, that is data together with a percentile of 1000 or more |
| HistogramReporting.Collect | crates/mysten-metrics/src/histogram.rs:205-307 | after any windows, dropped ones included, each label's counters are the totals of all accepted points, and its gauges read zero or values ranking as their percentile in its last window |
| MallocSize.ConstantSizeSound | crates/mysten-util-mem/src/malloc_size.rs:226-335 | a promised constant is the true heap size of every value of the type, by induction over nested types |
| MallocSize.ConstantSizeMeasured | crates/mysten-util-mem/src/malloc_size.rs:226-335 | and it is what the measurement returns |
| MallocSize.ConstantExactly | crates/mysten-util-mem/src/malloc_size.rs:226-335 | apart from locks, slices and borrowed-or-owned values, a type promises a constant if and only if all its values have the same size |
| MallocSize.ListIsDeep | crates/mysten-util-mem/src/malloc_size.rs:313-405 | the multiplication shortcut of slices, vectors, deques and sets agrees with visiting the elements |
| MallocSize.MapIsDeep | crates/mysten-util-mem/src/malloc_size.rs:429-474 | the same for maps |
| MallocSize.SizeOfIsDeep | crates/mysten-util-mem/src/malloc_size.rs:226-504 | for every value of every nested type the measured size is the true size plus the storage of index maps visited entry by entry |
| MallocSize.IndexMapExactly | crates/mysten-util-mem/src/external_impls.rs:80-103 | an index map is measured truly if and only if its entries are of constant size or it owns no storage, and no index map inside its entries is counted twice |
| ConsensusCommittee.FormsExactly | consensus/config/src/committee.rs:36-54 | stakes whose double fits in 64 bits form a committee if and only if there are not too many and one is positive; all authorities are then a quorum and none of them reaches no threshold |
| ConsensusCommittee.ThresholdsExactly | consensus/config/src/committee.rs:43-46 | quorum and validity add up to the stake handed in plus one if and only if twice that stake fits in 64 bits |
| ConsensusCommittee.QuorumComplement | consensus/config/src/committee.rs:36-54 | a set is a quorum if and only if the rest is below validity |
| ConsensusCommittee.QuorumsOverlap | consensus/config/src/committee.rs:36-54 | any two quorums share at least the validity threshold |
| ConsensusCommittee.ValidityMeetsQuorum | consensus/config/src/committee.rs:36-54 | every set reaching validity shares an authority with stake with every quorum |
| ConsensusCommittee.FaultTolerance | consensus/config/src/committee.rs:27-29 | without a faulty set the rest is a quorum if and only if the faulty stake is below a third of the total |
| ConsensusCommittee.OverflowSplitsQuorum | consensus/config/src/committee.rs:45-46 | a committee with an overflowing double in which two authorities are each a quorum |
| ConsensusCommittee.WrappedSumSplitsQuorum | consensus/config/src/committee.rs:43-46 | a committee with a wrapped sum, consistent with its own total, in which two authorities are each a quorum |
| PackageGraph.EdgesOf | sui-execution/src/tests.rs:122-135 | exactly the normal, untargeted dependencies |
| PackageGraph.Collect | sui-execution/src/tests.rs:104-117 | the loop terminates on every package map and collects the specified graph |
| PackageGraph.CollectedGood | sui-execution/src/tests.rs:104-117 | collected edges are real, reached from the root, and at most one leads into each package |
| PackageGraph.CollectedNodes | sui-execution/src/tests.rs:104-117 | the nodes are exactly the packages reachable from the root, and the root when it depends on anything |
| PackageGraph.ReportedIsBypass | sui-execution/src/tests.rs:43-59 | every reported path is a chain of real dependencies past the removed packages |
| PackageGraph.MissedBypass | sui-execution/src/tests.rs:43-59 | package maps with a bypass for which nothing is reported |
| PackageOrders.CollectedSpans | sui-execution/src/tests.rs:104-117 | the collected graph is a spanning tree: a simple path of collected edges to every package, and at most one edge into each |
| PackageOrders.CompleteWithoutPass | sui-execution/src/tests.rs:43-59 | if no simple chain to the crate passes a removed package, a path is reported if and only if the crate is reached at all |
| PackageOrders.Hides | sui-execution/src/tests.rs:104-117 | a simple chain through a removed package can be listed so that nothing is reported |
| PackageOrders.CompleteExactly | sui-execution/src/tests.rs:43-59 | every bypass is found in every order of listing if and only if there is none or no simple chain to the crate passes a removed package |

## Left out

- ArchiveReadTheorems.ReadRoundTrip: downloads that fail are not part of it; a failed download ends the stream, and what was replayed before it is covered by the chain-of-trust and watermark results.
- ArchiveRestore.ArchiveRestores: assumes a history that verifies against itself; every honest history does, and `HonestArchiveRestores` is stated for those.
- MallocSize.SizeOfIsDeep: sizes are unbounded integers; `usize` overflow is not modelled.
- MeteredChannel.Accounting: the channel itself is modelled by its slots and queue; wake-up order of waiting senders is left open, and cancelling a waiting send is the same step as refusing it.
- HistogramReporting.Collect: labels are compared by value; the code compares 64-bit hashes, so colliding labels are not modelled.
- `read_summaries`, `verify_file_consistency` and `verify_archive_with_checksums`: they repeat the checks of `read` and `verify_manifest` on fewer data.
- `pick_one_random`, progress bars, log lines and Prometheus registration.
- In-process shutdown through kill channels, and two writers on one archive.
- Object-store and file-system errors other than a missing file: uploads retry until they succeed or the process ends, which the model treats as a crash.
- Committees are keyed by epoch; the in-memory store's vector, which an unverified replay can fill out of order, is not modelled.
- The remote store's listing of epoch directories is modelled as the set of stored paths.
- `Processor::last_committed_checkpoint` and the indexer framework that reads it, and the analytics row handlers: rows are a function of the checkpoint.
- `Arc`, once-cells, small vectors and LRU caches in the heap measurement: they repeat the cases modelled.
- Block and DAG types of consensus, network keys and addresses of authorities.
