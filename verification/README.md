# LightKV in Dafny

LightKV is an LSM-tree key-value engine with group commit, a MANIFEST log, a Raft layer and a RESP server. This project models its storage engine, its concurrency and durability protocols, its file formats and a few structures that stand on their own, and proves what they promise.

How the parts fit together:

- `Bytes`, `Versions`, `History`: byte order, versions `(key, seqno, kind, value)`, and the specification: the history of writes, one entry per sequence number, replayed operation by operation.
- `MemTable`, `Compaction`, `Levels`, `Bloom`, `VersionSet`, `Engine`, `Batches`, `Database`, `Scan`, `Recovery`, `Crash`: the engine. `Database.DB` keeps two memtables, seven levels and the tombstone list; its invariant ties the set of versions in all of them to the history. `Get`, full scans and whole runs are proved against that history; `Recovery` is about what a reopened store reads, and `Crash.Store` adds the logs and the MANIFEST to the store and proves a read after a run, a crash and a reopening.
- `Codec`, `InternalKeys`, `Blocks`, `SSTables`: the table format, from varints to a lookup on the bytes of a file. `SSTables.SSTable.Get` returns what `Database` assumes of a table.
- `Wal`, `Manifest`: the two logs, on bytes.
- `GroupCommit`, `Handoff`, `WriteLock`: protocols as state machines; every result is about all reachable states.
- `Raft`, `SnapshotTransfer`, `Resp`, `ZSets`, `Backlog`: the replicated log, chunked snapshots, the wire protocol, the sorted-set index and the replication ring.

What is outside the model becomes a parameter: whether an append, an fsync, a rename or a memory mapping succeeds, where a compaction sees its size limit, what the oldest snapshot is at each query, how arrivals are split, which thread moves next. Ghost fields and ghost parameters only record what happened; no operation depends on them.

Some promises of the code or its comments do not hold as stated. In each case the model follows the code, one member gives an input, and another gives the exact condition:

- A batch that puts a key and then deletes a range over it keeps the key (`History.EffectIsSequential`). A batch that names a key twice may be read differently before and after a flush (`Batches.DuplicateKeyFlips`); it is not exactly when every put on the key is the last operation on it (`Batches.RepeatedKey`).
- Compaction outputs may share a key at a size cut (`Compaction.CutInsideKey`), exactly when the inputs and the size limits put a cut inside a key (`Compaction.OutputsDisjoint`). The overlap warning of `InsertIntoLevel` is raised exactly then (`Engine.MergeLevels`). Latest reads survive the warning (`Database.DB.RunThenGet`). Snapshot reads need not (`Engine.SnapshotMisses`): on a sorted level every key and snapshot finds its version exactly when the files are disjoint (`Levels.SnapshotsExactly`).
- The store never registers a snapshot, so every compaction sees the largest number as the oldest one. A snapshot between two merged versions of a key then finds nothing (`Compaction.SnapshotLost`); such a merge leaves all its lookups alone exactly when no key has versions on both sides of it (`Compaction.SparedExactly`), and a run keeps a snapshot readable when its merges spare it (`Database.DB.RunThenGetAt`).
- An output that starts with the same key as a file that belongs in front of it is installed on the wrong side, and a read can then return an older version (`Engine.StaleRead`, `Levels.TieReadsStale`) or miss another key (`Levels.TieHidesKeys`). Without such a tie, and only then, a level stays sorted (`Levels.InstallOutputs`).
- Detaching by key range after a level-0 merge agrees with what was merged unless the oldest input is empty (`Levels.MergedIsDetached`).
- A failed fsync is never reported. A writer can be told OK although its record is not on disk, after a round (`GroupCommit.FailedRoundReachable`) or a rotation (`GroupCommit.FailedRotationReachable`) whose fsync failed; `GroupCommit.DurableExactly` says from which states that can still happen when no further fsync fails.
- Logs are replayed in the order of their names, so the tenth comes before the ninth (`Recovery.TenBeforeNine`, `Recovery.ConsecutiveLogs`) and an older write can answer (`Recovery.OlderLogWins`); the version found is the newest exactly when the records on the key were replayed in order (`Recovery.FindsNewest`). A merge may keep only the newer of two range deletions with one begin key (`Recovery.MarkerDropped`), which loses nothing exactly when it reaches as far (`Recovery.ShorterDeletionStays`, and for any list `Recovery.DropExactly`).
- Logs are unlinked on open before the replayed memtable is flushed, so a second crash can lose them (`Handoff.SecondCrash`).
- A log file that could not grow is left unmapped, and a record of more than twice its size runs over its end (`Wal.AfterFailedGrowth`, `Wal.OversizedRecord`); `Wal.WalWriter.Append` says when a record gets in.
- A MANIFEST frame lists removals before additions, so a file added and withdrawn in one window comes back (`Manifests.FrameIsWindow`); a failed update forces a snapshot, which is what keeps the engine clear of it (`Manifests.Manifest.UpdateManifest`).
- A Raft follower bounds its commit index by its own last entry (`Raft.StaleEntryCommitted`, `Raft.CommitAgreesExactly`), a configuration that lists a node twice counts it twice (`Raft.VotersAreNodes`), and log compaction drops the entries above the snapshot (`Raft.Node.CompactLog`).

## Model

| member | source | states |
|---|---|---|
| `Bytes.Compare` | include/lightkv/slice.h:43-50 | the comparison loop decides the byte-wise order exactly, ties included |
| `Versions.FirstVisibleIsNewest` | src/memtable.cpp:20-58 | in table order the first entry at or below the snapshot is the newest visible version, and there is none exactly when none is visible |
| `History.EffectIsSequential` | src/db_impl.cpp:431-487 | a batch with one sequence number acts like its operations in order for every key and state if and only if no put is followed by a range deletion over it |
| `History.OutcomeIsReplay` | src/db_impl.cpp:314-488 | the sequence-number reading of a history equals replaying it when no batch has a put before a covering range deletion |
| `History.ReadRule` | src/db_impl.cpp:685-780 | last touching write plus later covering range deletions determine the outcome of a history for a key |
| `MemTables.FindHiding` | src/memtable.cpp:61-71 | the tombstone loop finds a hiding tombstone exactly when one is newer than the version, visible to the snapshot and covers the key |
| `MemTables.MemTable.Insert` | src/memtable.cpp:10-18 | links the version in front of equal keys whatever their sequence numbers, adds exactly it, keeps keys in order, and keeps newest first when it is newer than those of its key |
| `MemTables.MemTable.InsertRangeDeletion` | src/memtable.cpp:73-77 | appends the tombstone and changes nothing else |
| `MemTables.MemTable.Find` | src/memtable.cpp:20-59 | on any list in key order, the first version at or below the snapshot, a deletion or a hidden version reported as deleted, and absence only when nothing is visible |
| `VersionSet.WriteStep` | src/db_impl.cpp:314-488 | a write keeps every version traceable to the history, every complete snapshot complete, and the latest state |
| `VersionSet.NewestIsLastTouch` | src/db_impl.cpp:685-780 | at a complete snapshot the newest visible version is the last write of the history to the key, and nothing visible means never written |
| `VersionSet.AnswerIsOutcome` | src/db_impl.cpp:685-780 | the answer computed from the newest visible version and the tombstones is the outcome of the history up to the snapshot |
| `VersionSet.CompactionStep` | src/compaction.cpp:157-235 | replacing inputs by what a merge kept leaves the latest state complete, and every snapshot that can see all inputs an observed oldest one can see |
| `Compaction.DoCompaction` | src/compaction.cpp:44-253 | the heap merge returns what it keeps of the inputs, cut behind every entry that fills an output; it fails exactly when an append or an output fails, nothing is kept, or a cut falls behind the last entry |
| `Compaction.FailsExactly` | src/compaction.cpp:44-253 | a merge of something fails if and only if an entry cannot be appended, an output cannot be finished or the last entry fills an output |
| `Compaction.KeptMerges` | src/compaction.cpp:157-235 | what is kept of any inputs is in strict order, is part of them, and lacks a version only below a kept newer one that an observed oldest snapshot already sees |
| `Compaction.LookupPreserved` | src/compaction.cpp:186-235 | for every key and every snapshot at or above the observed ones, lookups before and after agree, both for hits and for misses |
| `Compaction.OnePerKey` | src/compaction.cpp:157-235 | a merge without cuts that observes no snapshot below its versions keeps one version of every key |
| `Compaction.SparedExactly` | src/compaction.cpp:157-235 | such a merge leaves every lookup at a snapshot as it was if and only if no key of its inputs has versions on both sides of it |
| `Compaction.SnapshotLost` | src/db_impl.cpp:909-913 | merging two versions of a key while the observed oldest snapshot is above both leaves nothing for a snapshot between them |
| `Compaction.OutputsDisjoint` | src/compaction.cpp:157-168 | the outputs have disjoint key ranges if and only if, wherever an output is full, the next entry has another key |
| `Compaction.CutInsideKey` | src/compaction.cpp:157-168 | merging two files with a version each of one key, with an output full after one entry, returns two outputs with that key |
| `Levels.FileFor` | src/db_impl.cpp:753-765 | on any list the file where the binary search ends, behind its range guard; on a sorted level a file with the newest version of the key, on a disjoint one a file with all its versions |
| `Levels.InsertIntoLevel` | src/db_impl.cpp:1458-1505 | a disjoint level stays so if and only if no overlap warning is raised; a sorted one stays sorted if and only if no file that belongs in front starts with the same key |
| `Levels.TieReadsStale` | src/db_impl.cpp:1458-1505 | after any such tie on a key no earlier file ends with, a read of the key consults a file without its newest version |
| `Levels.TieHidesKeys` | src/db_impl.cpp:753-765 | of two files that start with one key, installed with the later one in front, no other key of that file is found |
| `Levels.SnapshotsExactly` | src/db_impl.cpp:753-765 | on a sorted level the consulted file gives the newest visible version for every key and snapshot if and only if the files are disjoint |
| `Levels.InstallOutputs` | src/db_impl.cpp:1655-1669 | without a warning the level stays disjoint, outputs that fit raise none, the level stays sorted if and only if there is no tie, and exactly the outputs are added |
| `Levels.MergeComparable` | src/db_impl.cpp:1588-1669 | on a sorted level a table of merged versions lies wholly before or behind every file that stayed |
| `Levels.Split` | src/db_impl.cpp:1588-1640 | the files are partitioned into those that overlap the range and the rest, in order |
| `Levels.OverlapsIsShared` | src/db_impl.cpp:1588-1640 | a file is selected exactly when some key lies both in its range and in the range of the merge |
| `Levels.HullApart` | src/db_impl.cpp:1588-1669 | a table whose keys lie in the hull of the merged files is disjoint from every file that stayed |
| `Levels.Level0Range` | src/db_impl.cpp:1588-1602 | over tables with entries, the least and the greatest key of the batch: a bound of every file, and attained |
| `Levels.MergedIsDetached` | src/db_impl.cpp:1603-1645 | the level-1 files that were merged are the ones detached if and only if the oldest level-0 table has entries or level 1 starts above the batch |
| `Levels.Reload` | src/db_impl.cpp:255-265 | loading the files of a sorted level in any order gives the level back when no two start with the same key |
| `Bloom.BloomFilter.Add` | src/bloom_filter.cpp:28-37 | sets exactly the probed bits and loses no key added before |
| `Bloom.BloomFilter.MayMatch` | src/bloom_filter.cpp:39-51 | is true exactly when every probed bit is set |
| `Bloom.FilterExactly` | src/bloom_filter.cpp:28-37 | the filter of a table has exactly the bits at the probes of its keys set, probe j at hash plus j deltas modulo 2^32 |
| `Bloom.ProbedExactly` | src/bloom_filter.cpp:39-51 | a lookup passes exactly when the bits at those positions are set |
| `Bloom.HashValues` | include/lightkv/slice.h:67-74 | the hash of the empty key and of "a" are the published FNV-1a values |
| `Bloom.ReloadRoundTrip` | src/bloom_filter.cpp:20-26 | the filter read back from its bytes has the same bits |
| `Bloom.NoFalseNegatives` | src/bloom_filter.cpp:20-51 | every key of a table passes the reloaded filter |
| `Engine.SortEntries` | src/db_impl.cpp:1268-1340 | the flushed entries in strict table order, none lost, none added |
| `Batches.AppliedFirst` | src/db_impl.cpp:452-487 | after any batch the memtable answers with the last operation on the key |
| `Batches.RepeatedKey` | src/db_impl.cpp:1268-1340 | the memtable of a batch and every table its flush can leave answer alike for a key if and only if every put on the key is the last operation on it |
| `Batches.DuplicateKeyFlips` | src/db_impl.cpp:431-487 | a put and a deletion of one key in a batch are read differently from the memtable and from a flushed table |
| `Engine.FlushedTable` | src/db_impl.cpp:1268-1355 | the flushed table is well formed and holds only sequence numbers of its memtable |
| `Engine.PushLevel0` | src/db_impl.cpp:1356-1359 | publishing a table keeps levels sorted, every version in one place and ids unique, keeps strict levels strict, and adds exactly its entries |
| `Engine.ReplacedStacked` | src/db_impl.cpp:1642-1669 | moving files down keeps newer versions of a key above older ones |
| `Engine.ReplacedUnshared` | src/db_impl.cpp:1642-1669 | moving files down puts no version into two levels |
| `Engine.OutputsFit` | src/db_impl.cpp:1588-1669 | outputs cut between keys are disjoint from each other and from what stayed in the lower level |
| `Engine.OutputsArranged` | src/db_impl.cpp:1588-1669 | wherever they were cut, outputs are in order and lie wholly before or behind what stayed in the lower level |
| `Engine.OrderedOutputs` | src/db_impl.cpp:1655-1669 | a level in order that took all outputs was cut between keys |
| `Engine.MergeLevels` | src/db_impl.cpp:1588-1669 | one merge installs the outputs the inputs and the environment determine; sorted levels stay sorted if and only if there is no tie, strict ones stay strict without a warning, and the warning is raised if and only if a cut fell inside a key |
| `Engine.StaleRead` | src/db_impl.cpp:1458-1505 | a merge cut inside a key, installed: a read consults the file with the older version |
| `Engine.SnapshotMisses` | src/db_impl.cpp:1655-1669 | a merge cut between two versions of a key behind another key, installed: the level is sorted and a snapshot between them finds none |
| `Engine.IdentityIsRange` | src/db_impl.cpp:1765-1789 | detaching by file id, as the lower levels do, equals detaching by key range |
| `Engine.Consider` | src/db_impl.cpp:712-752 | asking one more well-formed table behind its filter keeps the best answer the newest visible version of all tables asked |
| `Engine.RemoveId` | src/db_impl.cpp:1385-1394 | removal by id keeps all other files in order |
| `Database.DB.constructor` | src/db_impl.cpp:91-215 | an empty store satisfies the invariant with an empty history and strict levels |
| `Database.DB.Commit` | src/db_impl.cpp:320-364 | a write extends the history by itself, or by an empty write when the log append failed, and keeps the invariant |
| `Database.DB.Put` | src/db_impl.cpp:314-364 | the history grows by one put |
| `Database.DB.Delete` | src/db_impl.cpp:366-381 | the history grows by one deletion |
| `Database.DB.DeleteRange` | src/db_impl.cpp:383-424 | an empty or inverted range is refused without a sequence number, any other one enters the history |
| `Database.DB.BatchWrite` | src/db_impl.cpp:426-488 | the whole batch enters the history under one sequence number, an empty one not at all |
| `Database.DB.TriggerFlush` | src/db_impl.cpp:1077-1098 | a waiting memtable stops the rotation; otherwise the memtable becomes the immutable one behind a new empty one, and no version is lost |
| `Database.DB.BuildTable` | src/db_impl.cpp:1268-1355 | the new table holds exactly the entries and tombstone markers of the memtable |
| `Database.DB.Publish` | src/db_impl.cpp:1356-1413 | a named table joins level 0 in place of the memtable, and the history reads the same |
| `Database.DB.FlushMemTable` | src/db_impl.cpp:1145-1187 | a flush adds one table with the entries and markers of the memtable and keeps strict levels strict; one whose MANIFEST write failed leaves levels and memtable as they were |
| `Database.DB.MergeDown` | src/db_impl.cpp:1588-1705 | a failed merge changes nothing; otherwise the taken files leave their level and exactly the outputs that could be opened, under fresh numbers, join the rest of the next one, also when the MANIFEST write then fails and is reported; the merge is sound, and the invariant holds behind it, if and only if every output could be opened and none starts with the key of a file that belongs in front of it; on strict levels the overlap warning comes exactly when a cut falls inside a key; no key loses its newest version, and every snapshot the merge spares stays complete |
| `Database.DB.DoLevel0Compaction` | src/db_impl.cpp:1556-1706 | the oldest files, all or at least half, are merged down that way with what their hull overlaps |
| `Database.DB.DoLevelCompaction` | src/db_impl.cpp:1709-1822 | the first file of a lower level is merged down the same way; the last level is never moved |
| `Database.BatchSize` | src/db_impl.cpp:1576-1586 | all level-0 files within the limit, set or four times the trigger and never below four; above it at least the limit and at least half, and no more than the larger of the two |
| `Database.SearchLevel0` | src/db_impl.cpp:712-752 | the newest visible version among all level-0 files |
| `Database.SearchLevel` | src/db_impl.cpp:753-765 | asking the one consulted file is asking the whole level, always on a disjoint level and for the latest state on a sorted one |
| `Database.SearchLevels` | src/db_impl.cpp:712-765 | the newest visible version among all levels: at every snapshot on strict levels, for the latest state on sorted ones |
| `Database.DB.GetFromTables` | src/db_impl.cpp:712-780 | when no memtable has a visible version and the snapshot is complete, the tables and tombstones give the outcome of the history |
| `Database.DB.GetAt` | src/db_impl.cpp:685-780 | a memtable hit decides, a miss falls through, and where the snapshot is complete the answer is the outcome of the history up to it |
| `Database.DB.Get` | src/db_impl.cpp:644-780 | at the latest state, or on strict levels at any complete snapshot, exactly what the history gives for the key, and the replay of it when batches are sequential |
| `Database.DB.Sources` | src/iterator.cpp:315-345 | the iterator's sources together hold exactly the versions of the store |
| `Database.DB.ScanAll` | src/iterator.cpp:315-378 | a full scan returns client keys in order, and at a complete snapshot exactly the keys a point read finds there, with the same values |
| `Database.DB.Step` | src/db_impl.cpp:314-488 | a step is sound if and only if it is no compaction or one that opens its outputs and ties none of them; then the invariant holds, the history grows by what the step logs, strict levels stay strict without a warning and every snapshot its merge spares stays complete; a rotation swaps the memtables exactly when there is content and none waits, a flush replaces the waiting memtable by a table of its entries and markers exactly when the MANIFEST can be written, a compaction replaces the files it takes, and nothing else moves |
| `Database.DB.Run` | src/db_impl.cpp:314-488 | any sequence of writes, rotations, flushes and compactions keeps the invariant up to the first compaction that is not sound, and stops there; a run without compactions never stops, and on strict levels neither does one whose compactions open their outputs and cut them between keys, which raises no warning; a snapshot that every merge spares stays complete |
| `Database.DB.RunThenGet` | src/db_impl.cpp:644-780 | after any run a read equals replaying the whole operation history, unless a compaction of the run was not sound; runs without compactions and runs of clean compactions on strict levels always answer |
| `Database.DB.RunThenGetAt` | src/transaction.cpp:47-51 | a snapshot that every merge of a sound run without a warning spares reads afterwards what it read before; all do when the tables hold nothing newer and the run flushes nothing, whatever they observe, and when every merge observes only snapshots at or below it; the run is sound without compactions, and without a warning when they are clean |
| `Recovery.NameOrder` | src/db_impl.cpp:148 | of any two logs the earlier one is replayed first if and only if its number is at most the leading digits of the later number |
| `Recovery.ConsecutiveLogs` | src/db_impl.cpp:148 | two logs in a row are replayed in order if and only if the second number is not a power of ten |
| `Recovery.TenBeforeNine` | src/db_impl.cpp:148 | the tenth log is replayed before the ninth |
| `Recovery.BootFirst` | src/db_impl.cpp:150-196 | the replayed memtable answers with the last record replayed on the key |
| `Recovery.FindsNewest` | src/db_impl.cpp:150-196 | the version a reopened store finds is the newest of the key if and only if no record or table version is newer than the last record replayed on it |
| `Recovery.ReopenedGet` | src/db_impl.cpp:130-290 | a reopened store answers from the history when the records on the key were replayed in order and each tombstone has a rebuilt one from the same key that is not older and reaches as far |
| `Recovery.OlderLogWins` | src/db_impl.cpp:148-196 | two logs in the wrong order: the older write answers |
| `Recovery.MarkersBack` | src/db_impl.cpp:604-630 | the markers of a flushed table give back its tombstones |
| `Recovery.ShorterDeletionStays` | src/db_impl.cpp:604-630 | without the older of two deletions with one begin key the same is hidden from every later reader if and only if the newer one reaches as far |
| `Recovery.DropExactly` | src/db_impl.cpp:604-630 | any list of tombstones hides the same from the latest state without one of them if and only if every key it covers is covered by another that is not older |
| `Recovery.MarkerDropped` | src/compaction.cpp:186-235 | a merge of two such markers keeps the newer one only |
| `Crash.Store.Write` | src/db_impl.cpp:314-488 | a client call leaves its record in the log exactly when its append succeeded, and changes nothing else on disk |
| `Crash.Store.Rotate` | src/db_impl.cpp:1077-1138 | a memtable with content becomes the immutable one unless another waits; it keeps the old log and the next one opens empty behind it, or both share the old one when the next cannot be opened |
| `Crash.Store.Flush` | src/db_impl.cpp:1145-1210 | a waiting memtable whose table the MANIFEST can name is replaced by a table of its entries and markers in level 0, the MANIFEST names the new levels and the last number, and the memtable's log is given up; otherwise nothing changes |
| `Crash.Store.CompactLevel0` | src/db_impl.cpp:1556-1706 | the logs stay, the levels move as the compaction says, and a sound one that moved them names them in the MANIFEST exactly if that can be written; the named tables stay complete also when it cannot |
| `Crash.Store.CompactLevel` | src/db_impl.cpp:1709-1822 | the same for a lower level |
| `Crash.Store.Step` | src/db_impl.cpp:314-488 | each step does to memory, logs and MANIFEST what its operation says, and is sound if and only if it is no compaction or a sound one |
| `Crash.Store.Run` | src/db_impl.cpp:314-488 | every run keeps on disk what a reopening needs, up to the first compaction that is not sound; a run without compactions has none |
| `Crash.ReplayLogs` | src/db_impl.cpp:150-212 | the replay builds the memtable and tombstones of the records and a counter behind all of them |
| `Crash.CollectTombs` | src/db_impl.cpp:604-630 | the tombstones of the logs and of the markers in all tables, and no others |
| `Crash.Store.CrashThenGet` | src/db_impl.cpp:91-300 | after a crash between any two operations, the read of a reopened store is the outcome of the whole history if the log names are in order, no two files of a level start alike and later range deletions from a key reach as far as earlier ones |
| `Crash.Store.RunCrashGet` | src/db_impl.cpp:91-300 | behind any run whose compactions are sound, a crash and a reopening, the read equals replaying all operations; a run without compactions is one |
| `Scan.FindMinimum` | src/iterator.cpp:180-206 | the chosen source has a least head by key, version and recency |
| `Scan.SeekAll` | src/iterator.cpp:128-134 | every source stands at its first entry not below the target |
| `Scan.SkipKey` | src/iterator.cpp:224-231 | all versions of the key and nothing else are passed |
| `Scan.MarkersLast` | src/iterator.cpp:171-175 | synthetic tombstone entries sort behind every client key, so registering one late cannot change what was emitted |
| `Scan.MergingIterator.SkipUnreadable` | src/iterator.cpp:247-283 | stops at the least readable key that was asked for, or at the end when there is none |
| `Scan.MergingIterator.Seek` | src/iterator.cpp:120-134 | positions at the least readable key from the target on |
| `Scan.MergingIterator.Next` | src/iterator.cpp:136-150 | positions at the least readable key past the current one and consumes input |
| `Scan.MergingIterator.Collect` | src/iterator.cpp:120-150 | emits every readable key once, in order, and nothing else |
| `Scan.ScanIsGet` | src/iterator.cpp:247-283 | a key is readable by a scan if and only if the history has a value for it, which is the one read |
| `Codec.LeRoundTrip` | include/lightkv/encoding.h:120-146 | fixed-width integers decode to what was encoded |
| `Codec.LeByte` | include/lightkv/encoding.h:120-146 | byte i counts the powers of 256 from the low end |
| `Codec.Varint32Back` | include/lightkv/encoding.h:148-186 | a 32-bit varint is read back with exactly its bytes consumed |
| `Codec.VarintLengthIs` | include/lightkv/encoding.h:156-160 | the computed length is the encoded length |
| `Codec.CrcValues` | include/lightkv/encoding.h:225-306 | the checksums of no bytes and of "a" are the published CRC-32C values |
| `InternalKeys.Parts` | include/lightkv/encoding.h:40-92 | user key, sequence number and type are recovered from an internal key |
| `InternalKeys.CompareIs` | include/lightkv/encoding.h:106-118 | encoded keys order by user key, then newer first, then type descending, and are equal only when all three are |
| `InternalKeys.SeekStops` | include/lightkv/encoding.h:94-96 | the seek key of a user key is below all its versions and above all smaller keys |
| `InternalKeys.KeyBytes` | include/lightkv/encoding.h:40-92 | the bytes of the internal keys of a first put and a first deletion |
| `InternalKeys.NoUserPart` | include/lightkv/encoding.h:106-118 | keys without a user part compare equal and below all others, also keys shorter than a trailer |
| `Blocks.BlockBuilder.Add` | src/block_builder.cpp:13-39 | appends the entry with the longest shared prefix, or as a restart point after every interval, and keeps the block layout |
| `Blocks.BlockBuilder.Finish` | src/block_builder.cpp:41-53 | the bytes are a block of exactly the added entries |
| `Blocks.BlockIterator.ParseEntry` | src/block.cpp:207-219 | rebuilds the full key of an entry from the previous key |
| `Blocks.BlockIterator.SeekToFirst` | src/block.cpp:73-82 | stands on the first entry, or at the end of an empty block |
| `Blocks.BlockIterator.Next` | src/block.cpp:172-187 | moves from one entry to the next and ends after the last |
| `Blocks.BlockIterator.Seek` | src/block.cpp:114-170 | binary search and scan stop at the first entry not below the target |
| `Blocks.BlockIterator.Value` | src/block.cpp:225-230 | the value of the entry it stands on |
| `SSTables.HandleBack` | src/block_handle.cpp:6-30 | a block handle decodes to offset and size |
| `SSTables.TableBuilder.FlushDataBlock` | src/table_builder.cpp:123-171 | the open block becomes one block of the file, and the index gets one entry with its last key and handle |
| `SSTables.TableBuilder.Add` | src/table_builder.cpp:80-121 | the version joins the current block and the filter, no block of full size stays open, and the index grows only with a full block |
| `SSTables.TableBuilder.Finish` | src/table_builder.cpp:173-212 | the bytes are a table file of exactly the added versions |
| `SSTables.SSTable.constructor` | src/sstable.cpp:79-130 | opening finds filter, index and every block handle |
| `SSTables.SSTable.Seek` | src/sstable.cpp:270-336 | the index and the block search stop at the first entry of the table not below the target |
| `SSTables.SSTable.Next` | src/sstable.cpp:338-356 | moves to the next entry across block boundaries |
| `SSTables.FilteredOut` | src/sstable.cpp:175-179 | when the reloaded filter says no, no version has the key |
| `SSTables.SSTable.Get` | src/sstable.cpp:175-204 | on the bytes of a built file, the newest version of the key at or below the snapshot, and none exactly when there is none |
| `SSTables.BuildTable` | src/table_builder.cpp:80-212 | any versions in table order, with any block size and restart interval, become a table file of exactly them as long as a block, an index of one key per block and the file fit their 32- and 64-bit fields |
| `SSTables.LargeTables` | src/compaction.cpp:96-103 | with 4 KiB blocks that includes every table of up to eight gigabytes with keys of up to 1 KiB |
| `SSTables.BuildThenGet` | src/sstable.cpp:175-204 | building a file and looking a key up in its bytes equals the lookup in the versions, for every key and snapshot |
| `Wal.RecordLengthIs` | src/wal.cpp:64-175 | the reserved record length equals the bytes written, for point, range and batch records |
| `Wal.PayloadBytes` | src/wal.cpp:64-130 | the bytes of the records of a put and of a range deletion |
| `Wal.WrittenIsRead` | src/wal.cpp:299-386 | whatever bytes follow, records written whole are read back first and in order |
| `Wal.ZerosEnd` | src/wal.cpp:299-330 | the zero fill of the file ends the log |
| `Wal.CorruptEnds` | src/wal.cpp:299-330 | a frame whose checksum does not fit its payload ends the log behind the records in front of it, whatever follows |
| `Wal.ReadAll` | src/wal.cpp:299-386 | the read loop returns the records up to the first frame that does not check out |
| `Wal.WalWriter.GrowFile` | src/wal.cpp:45-62 | doubles what is mapped, or leaves nothing mapped; what was written stays |
| `Wal.WalWriter.Append` | src/wal.cpp:64-98 | a record gets in if and only if it ends within twice the size and the file is mapped when it is written; a failed growth appends nothing and loses the mapping; an empty batch writes nothing |
| `Wal.OversizedRecord` | src/wal.cpp:73-78 | a record of twice the initial size runs over the end of the grown file |
| `Wal.AfterFailedGrowth` | src/wal.cpp:45-78 | after a failed growth a small record is written where nothing is mapped, and one that grows the file gets in |
| `Wal.WalWriter.Recover` | src/wal.cpp:276-386 | reading the file returns exactly the records appended |
| `Manifests.RecCut` | src/manifest.cpp:503-566 | a record cut short is refused |
| `Manifests.ReplayLog` | src/manifest.cpp:503-567 | the replay loop computes the replay of the log |
| `Manifests.ReplayWritten` | src/manifest.cpp:284-351 | a log written whole replays to every file list in order and the counters |
| `Manifests.ReplayTruncated` | src/manifest.cpp:503-567 | a truncated log is refused unless the cut is between two records, and then gives the state of the records before it |
| `Manifests.FrameIsWindow` | src/manifest.cpp:284-305 | the framed edits have the effect of the edits as made if and only if none is an addition that was removed again |
| `Manifests.WithdrawnComesBack` | src/manifest.cpp:287-305 | an added and withdrawn file is replayed as present |
| `Manifests.Manifest.AddFile` | src/manifest.cpp:110-144 | adds the file to a valid level, stages it, and ignores any other level |
| `Manifests.Manifest.RemoveFile` | src/manifest.cpp:124-148 | removes the id from a valid level and stages that |
| `Manifests.Manifest.WriteToFile` | src/manifest.cpp:324-405 | a written snapshot replays to the live state; a failed one leaves file and staging alone |
| `Manifests.Manifest.AppendChanges` | src/manifest.cpp:245-322 | it folds or appends, and succeeds exactly when that write does; then the file replays to the live state if and only if it folded or the window has no withdrawn addition; a failed append leaves part of its frame behind the old file |
| `Manifests.Manifest.UpdateManifest` | src/db_impl.cpp:1924-1965 | it succeeds if and only if the append or fold does or else the snapshot behind it; then the same holds for the file; after a failed one the next success is a snapshot and replays to the live state |
| `GroupCommit.DurableExactly` | src/db_impl.cpp:490-560 | from every reachable state, all writers told OK in continuations whose fsyncs work have durable records if and only if no record is exposed now |
| `GroupCommit.DoomedIsMisled` | src/db_impl.cpp:502-560 | every exposed writer, waiting, leading or in a round, and whoever else leads, is told OK without a durable record in some such continuation |
| `GroupCommit.WriterReturns` | src/db_impl.cpp:502-560 | from every reachable state a writer whose record was appended can be told OK by a continuation in which no fsync fails, whoever leads |
| `GroupCommit.RotationReturns` | src/db_impl.cpp:1100-1206 | behind a rotation the next one waits, and from every reachable state the flushed log can be closed and the log rotated again |
| `GroupCommit.AcknowledgedIsDurable` | src/db_impl.cpp:490-560 | in every interleaving a synced write that was told OK is durable, as long as no round and no rotation ignored a failed fsync |
| `GroupCommit.SyncTargetOpen` | src/db_impl.cpp:1189-1206 | in every interleaving no fsync targets a closed log |
| `GroupCommit.FailedRoundReachable` | src/wal.cpp:204-210 | a synced write leads a round whose fsync fails, is told OK and is not durable |
| `GroupCommit.FailedRotationReachable` | src/db_impl.cpp:1114-1133 | one synced write and one rotation whose fsync fails leave the record exposed |
| `Handoff.StepKeepsInv` | src/db_impl.cpp:1077-1210 | every step of rotation, flush, compaction, cleanup and reading keeps the handoff invariant |
| `Handoff.CrashSafe` | src/db_impl.cpp:1145-1255 | after any step of any run, every named table exists and the newest record of every key is in a named table or a log on disk |
| `Handoff.ReaderMissesNothing` | src/db_impl.cpp:685-708 | in every interleaving a read consults a container of every version the store held when it began |
| `Handoff.ReaderIsDue` | src/db_impl.cpp:685-708 | that is the newest record of every key, and every record ever written as long as no merge took place |
| `Handoff.FlushCompletes` | src/db_impl.cpp:1145-1255 | from every reachable state, whatever is under way, the store can settle without another write; then the named tables alone hold the newest record of every key, and only live files are left unless a MANIFEST write failed behind a merge |
| `Handoff.NoOrphans` | src/db_impl.cpp:1698-1705 | in every run every table file on disk is live, waiting to be unlinked or in work, as long as no MANIFEST write failed behind a merge |
| `Handoff.SecondCrash` | src/db_impl.cpp:199-206 | a reopened store survives another crash if and only if what the logs held was already in named tables |
| `Handoff.SecondCrashLoses` | src/db_impl.cpp:199-206 | one write, a crash, a restart and another crash lose the write |
| `WriteLock.Safety` | include/lightkv/db_impl.h:305-329 | in every interleaving one owner at a time, and a parked thread always has an owner or somebody about to notify or re-test |
| `WriteLock.NeverStuck` | include/lightkv/db_impl.h:305-329 | while any thread is inside, some thread can move without a spurious wakeup |
| `Raft.Redelivery` | src/raft.cpp:577-600 | merging the same entries again changes nothing |
| `Raft.MatchingKept` | src/raft.cpp:548-600 | after a successful request the follower agrees with the leader up to its last entry, and log matching still holds |
| `Raft.CommitAgreesExactly` | src/raft.cpp:602-608 | what a follower commits agrees with every leader log the request can come from if and only if the bound stays within the request or the last entry it vouches for is of the leader's term |
| `Raft.CommitAgreesWithinTerm` | src/raft.cpp:602-608 | with the follower's entries of that term known to be the leader's, if and only if the bound stays within the request or the follower's last entry is of that term |
| `Raft.StaleEntryCommitted` | src/raft.cpp:602-608 | a heartbeat can commit a stale entry |
| `Raft.CountReplicas` | src/raft.cpp:1004-1012 | one more than the number of other voting entries that match the index |
| `Raft.CountVoters` | src/raft.cpp:1023-1033 | the majority of the voting entries, with the local node added when none of them names it |
| `Raft.VotersAreNodes` | src/raft.cpp:1023-1033 | that is a majority of the voting nodes and the local one if and only if no node is listed as a voter twice |
| `Raft.Node.TakeEntries` | src/raft.cpp:577-600 | consecutive entries become the merge of old log and entries; any entries are taken one after the other until one would leave a gap, and the result says whether one did |
| `Raft.RefusedIsGap` | src/raft.cpp:577-600 | an entry is refused exactly when its index is neither in the log nor the next one |
| `Raft.Node.HandleAppendEntries` | src/raft.cpp:523-613 | a consecutive request succeeds if and only if its term is not old, it does not reach behind the snapshot and the log holds its previous entry with its term; a success merges the entries behind it and moves the commit index by the rule; a refusal changes no log and names the index the leader has to go back to: behind the snapshot, behind the end, or the first of the run of the conflicting term, which it names too |
| `Raft.Node.AdvanceCommitIndex` | src/raft.cpp:985-1043 | the commit index becomes the largest index of the current term on a majority |
| `Raft.Node.CompactLog` | src/raft.cpp:1421-1436 | the log becomes its entry at the snapshot, and entries above it survive if and only if there are none |
| `Raft.Node.CommitInstalledSnapshot` | src/raft.cpp:727-756 | the log becomes one base entry at the cut and all indices move there |
| `Raft.StateBack` | src/raft.cpp:1214-1330 | term, vote, log and base are restored from the state file, compacted or not |
| `Raft.RebasedIs` | src/raft.cpp:1290-1330 | whatever log the file held, the node starts with an entry at its base: the log as it was if it is one piece, a fresh one otherwise |
| `SnapshotTransfer.HandleGenuine` | src/raft.cpp:758-865 | a chunk of a leader image leaves a prefix of that image staged, and completes only with the whole image |
| `SnapshotTransfer.HandleExactly` | src/raft.cpp:758-865 | a chunk of an image that leaves no gap to what is staged is taken with exactly its bytes and acknowledged up to its end, the last one completes the image if it can be applied; a gap or a failed apply is refused and drops what is staged |
| `SnapshotTransfer.HandleRefuses` | src/raft.cpp:758-865 | an empty chunk, an image that is empty or over the limit and a chunk beyond its image are refused and leave what is staged alone |
| `SnapshotTransfer.TransferIsExact` | src/raft.cpp:1515-1594 | under loss, duplication, reordering and restarts the staged bytes are a prefix of one image, only whole images are installed, and the leader counts only installed ones |
| `SnapshotTransfer.TransferCompletes` | src/raft.cpp:1515-1594 | from every reachable state, sending the chunks of an image in order with nothing lost ends with it installed at the follower and counted by the leader |
| `Resp.CommandBack` | src/server.cpp:757-789 | a built command parses to its arguments and leaves what follows |
| `Resp.CommandCut` | src/server.cpp:757-812 | an incomplete command is not taken |
| `Resp.SetCommand` | src/server.cpp:757-789 | the bytes of SET with a short key and value |
| `Resp.Connection.Receive` | src/server.cpp:793-815 | after any arrival exactly the complete commands so far are dispatched and the rest is kept |
| `Resp.Stream` | src/server.cpp:793-815 | however a command stream is split into arrivals, exactly its commands are dispatched, in order |
| `Resp.FrameBack` | src/client.cpp:129-189 | a whole nested reply is measured exactly if and only if it is nested at most sixteen deep |
| `Resp.FrameCut` | src/client.cpp:129-189 | a proper prefix of a reply measures zero |
| `ZSets.OneOrder` | src/server.cpp:3200-3273 | the ordered list of a set is unique, so answers from it are those of sorting the set |
| `ZSets.ZSetIndex.MaybeCompact` | src/zset_index.cpp:30-54 | rebuilding from the live entries, as soon as more than 64 nodes and more than the live ones were unlinked, changes neither map nor list |
| `ZSets.ZSetIndex.Upsert` | src/zset_index.cpp:56-77 | the set with the member at its new score, map and list in agreement, and a moved entry counted as unlinked |
| `ZSets.ZSetIndex.Remove` | src/zset_index.cpp:79-88 | the set without the member, whether it was there, and then one more node unlinked |
| `ZSets.ZSetIndex.RebuildFrom` | src/zset_index.cpp:208-225 | the set of the entries, each member once, with its first score |
| `ZSets.ZSetIndex.Rank` | src/zset_index.cpp:98-107 | the number of entries below the member's, or -1 |
| `ZSets.ZSetIndex.RangeByIndex` | src/zset_index.cpp:159-184 | exactly the entries whose rank lies between start and stop, counted from the end when negative, in order |
| `ZSets.ZSetIndex.RevRangeByIndex` | src/zset_index.cpp:186-206 | exactly those of the list read backwards |
| `ZSets.ZSetIndex.RangeByScore` | src/zset_index.cpp:121-150 | exactly the entries within the bounds, in order; with LIMIT those behind the offset, at most count of them |
| `Backlog.ReplMaster.Feed` | src/repl_master.cpp:37-55 | the stream grows by the command and the ring still holds its tail |
| `Backlog.ReplMaster.GetBacklogFrom` | src/repl_master.cpp:128-148 | exactly the stream from an offset at most the size of the ring behind its end, nothing otherwise |
| `Backlog.ReplMaster.Psync` | src/repl_master.cpp:57-126 | continues exactly when the id is the master's and the offset lies in the last ring of the stream, and places the slave there or at the end |
| `Backlog.ReplMaster.FlushSlave` | src/server.cpp:4748-4815 | what was queued since the last PSYNC stays the stream from the resume to the pending offset, and a slave the ring no longer reaches is dropped |

## Left out

- Database.DB.BatchWrite: takes batches with distinct keys and distinct range begins, because memtable and flushed table need not agree on a repeated one (`Batches.RepeatedKey`).
- Database.DB.Put: one writer at a time, because sequence numbers are claimed before the write lock; client keys are non-empty and outside the space of the tombstone markers; values are stored inline; backpressure and the outcome of the sync are left out.
- Database.DB.Run: stops where an output could not be opened again or a tie put a file on the wrong side; behind that the level order Get relies on is gone.
- Database.DB.constructor: an empty store; opening an existing one is in `Crash.Store.CrashThenGet`.
- Crash.Store.CrashThenGet: a crash falls between two operations and keeps what was appended to the logs; `Handoff` is about crashes inside them, `GroupCommit` about a lost page cache, and the log and table modules about bytes. A run behind the reopening is not modelled.
- Batches.RepeatedKey: with paranoid checks on, the table builder aborts on two entries with the same internal key, so a flush of such a batch leaves no table.
- Engine.SortEntries: an insertion sort stands for the library sort of the flush.
- MemTables.MemTable.Insert: the skip list is the sequence of its lowest chain; its towers and its lock-free reads are not modelled.
- SSTables.TableBuilder.Add: sizes stay within the 32-bit fields of the format, and the abort on out-of-order keys is a precondition of the file's reader.
- SSTables.SSTable.constructor: files written by the builder; the error returns for damaged files, LZ4 blocks and the smallest and largest key found on open are left out.
- Wal.WalWriter.Append: a record with its header is shorter than four gigabytes, the range of the 32-bit total; nothing is said after a write outside the mapping.
- GroupCommit.AcknowledgedIsDurable: an fsync that works is one step that makes at least the captured records durable.
- Scan.MergingIterator.Collect: no two sources hold different versions under one key and sequence number, which the store guarantees; the recency rule for such a pair is in `Scan.FindMinimum` only.
- Handoff.CrashSafe: a MANIFEST write that reports failure left the previous one in place; one background thread flushes and compacts.
- SnapshotTransfer.TransferIsExact: the identity of a snapshot fixes its bytes, and snapshots small enough for a single message are not modelled.
- ZSets.ZSetIndex.RangeByScore: scores are reals; NaN, signed zero and the skip-list spans behind ranks are left out.
- Backlog.ReplMaster.FlushSlave: feeds, PSYNCs and flushes run on one event loop; socket writes and the dump sent on a full resync are left out.
- Clear, Backup, Close and the destructor of the store.
- Value-log files, memory mapping and file-system details.
- Raft elections, voting, membership changes and cluster-wide safety.
- The slave side of replication, the event loops, the thread pool and the HTTP endpoint.
- Hash, list, set, stream, geo and HyperLogLog commands, TTL, transactions, cluster slots, migration and the C and Go interfaces: thin wrappers beside the engine.
- The version stamps of the sorted-set index hub.
