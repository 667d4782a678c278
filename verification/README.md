# Models of leveldb, libuv and nanopb as checked in under POMPOM/Pods

The Swift app in this repository is thin; its hard code is the C and C++ of three libraries. This
project models that code in Dafny and proves what it is for. `dafny verify dfyconfig.toml` checks
everything. Nothing was executed.

**leveldb.** The store is a machine of memtable, immutable memtable, level 0 and levels 1 to 6 with
snapshots. Whatever flushes, moves and harmless compactions do to it, reads equal a lookup in the plain list
of writes (`Lsm`, `LsmReads`, `LsmSteps`, `LsmLevels`, `LsmSafety`, `LsmUnheld`). `Database.DBImpl` is the same
store as a class whose methods take those steps, over the methods that search versions (`Versions`),
choose compaction inputs (`Inputs`), merge, drop and cut entries (`SortedRuns`, `Compactions`, `CompactionCuts`) and install
edits (`Edits`, `Builders`). `Manifests` writes and recovers versions as bytes, and `ManifestRuns` joins
that to the runs of the store. Below it: the skip list under concurrent readers (`SkipLists`,
`SkipListRuns`), the group-commit queue (`WriteQueue`, `WriteQueueSafety`), batches (`WriteBatches`),
the merging, two-level and user-key iterators (`Cursors`, `Merging`, `TwoLevels`, `UserIterators`),
blocks (`BlockFormat`, `BlockBuilding`, `BlockEntries`, `BlockReading`), table files with filters
(`FilterBlocks`, `Tables`, `TableFormat`, `TableBuilding`, `TableReading`), the write-ahead log (`LogFormat`, `LogWriting`,
`LogReading`) and the manifest records (`VersionEdits`).

**libuv.** The pointer-linked heap (`HeapNodes`, `HeapOrder`, `Heaps`), the timers on it (`Timers`),
the thread pool (`ThreadPool`, `ThreadPoolSteps`, `ThreadPoolSafety`, `ThreadPoolOrder`) and the Punycode
encoder (`Punycode`, `Idna`, `IdnaLabels`).

**nanopb.** Encoding, sizing and decoding of messages described by field lists (`PbFormat`,
`PbIteration`, `PbEncoding`, `PbReading`, `PbScalars`, `PbRecords`, `PbProgress`, `PbDecoding`), what any
bytes mean to a receiver (`PbMeaning`), and the laws of that (`PbLaws`).

`KnownBytes` holds encodings that are known from the formats, so that a writer and a reader that only agree
with each other are not enough.

Conventions:

- Where the machine and the iterators only compare user keys, a user key is a real number: every
  countable total order embeds in the reals, so the results hold for every comparator. Where bytes
  matter (blocks, batches, manifest), keys are byte strings.
- Checksums, the user comparator's shortening functions and the filter policy are parameters that
  keep the promises their interfaces document. One promise is read strictly: the interface says what
  FindShortestSeparator does to a start below its limit, and the model takes it to leave any other
  start alone.
- Where keys become bytes, the encoding is a parameter that need only work for the keys in use.
- A pointer structure is specified by a ghost sequence of its nodes: the heap's breadth-first order,
  the skip list's levels. A method's contract says what becomes of that sequence.
- A decoder takes the message it might be reading as a ghost argument. What it promises for that
  message it promises for every message, since the argument can be any.
- Compaction of a key whose versions cross a file boundary at the output level can bring a deleted
  value back (`Resurrection.DeletedValueReturns`); the code extends inputs over such boundaries at
  the input level only. `LsmSafety.CompactionExact` says exactly when a compaction is harmless, and
  `RunsReadHistory` is about runs whose compactions are; they always are when no snapshot is held while
  they run (`LsmUnheld.FreeRunsReadHistory`).

## Model

| member | source | states |
|---|---|---|
| LsmSafety.RunsReadHistory | POMPOM/Pods/leveldb-library/db/db_impl.cc:1100-1145 | in every run of writes, memtable switches, flushes, trivial moves, compactions that expose nothing, and snapshots taken and released, a read at LastSequence or at a live snapshot returns what the plain list of writes holds at that point |
| LsmUnheld.FreeRunsReadHistory | POMPOM/Pods/leveldb-library/db/db_impl.cc:1100-1145 | the same without any condition on the compactions, in every run in which no snapshot is held while a compaction rewrites files |
| LsmUnheld.FreeStepKeeps | POMPOM/Pods/leveldb-library/db/db_impl.cc:878-1036 | in such a run no step ever cuts the versions of a user key apart below level 0 |
| LsmUnheld.UncutIsHarmless | POMPOM/Pods/leveldb-library/db/version_set.cc:1403-1462 | and while no key is cut, every compaction of inputs chosen as the code chooses them exposes nothing |
| LsmSafety.NextKeeps | POMPOM/Pods/leveldb-library/db/db_impl.cc:688-767 | every single step keeps the invariant: per user key, sequence numbers only fall from the memtable to the immutable memtable, level 0 by file number and the deeper levels; sorted levels are disjoint; every readable snapshot reads as the history |
| LsmSafety.RunKeepsInv | POMPOM/Pods/leveldb-library/db/db_impl.cc:535-566 | hence the invariant holds in every state of every run |
| LsmSafety.SnapshotsAreStable | POMPOM/Pods/leveldb-library/db/db_impl.cc:1166-1174 | a snapshot that is still readable gives the same answer for every key at any two moments of a run |
| LsmSafety.CompactionExact | POMPOM/Pods/leveldb-library/db/version_set.cc:1403-1462 | with inputs chosen as the code chooses them, every read from the smallest snapshot on stays right if and only if no discarded tombstone is the newest version of a key whose older value stays at the output level |
| LsmSafety.ClosedNeverExposes | POMPOM/Pods/leveldb-library/db/version_set.cc:1378-1401 | the condition is met whenever no file left at the output level starts with the last user key of an input file and continues it: a check on file ranges alone |
| Resurrection.DeletedValueReturns | POMPOM/Pods/leveldb-library/db/version_set.cc:1403-1462 | a run from the empty store, and a compaction of inputs chosen as the code chooses them in its last state, after which a deleted value is read again, because boundary files are looked for at the input level only |
| LsmReads.RewriteKeepsRead | POMPOM/Pods/leveldb-library/db/db_impl.cc:937-963 | the two drop rules change no read at any snapshot at or above the smallest one, for every key, if nothing is exposed |
| LsmReads.ExposedValueIsRead | POMPOM/Pods/leveldb-library/db/db_impl.cc:946-959 | conversely, an exposed value is what the oldest reader then sees, which is wrong |
| LsmSafety.FlushKeeps | POMPOM/Pods/leveldb-library/db/db_impl.cc:491-533 | putting the immutable memtable at the level picked for it keeps the invariant |
| LsmSafety.MoveKeeps | POMPOM/Pods/leveldb-library/db/db_impl.cc:718-733 | a trivial move keeps the invariant |
| Lsm.GetMatchesHistory | POMPOM/Pods/leveldb-library/db/db_impl.cc:1123-1134 | under the invariant, looking in the memtable, then the immutable memtable, then the files gives the answer of the history |
| Lsm.HistoryGetMeans | POMPOM/Pods/leveldb-library/db/db_impl.cc:1100-1145 | what the plain list of writes says at a point: the value if the last write to the key before it is a Put, nothing if that is a Delete or there is none |
| Database.DBImpl.Get | POMPOM/Pods/leveldb-library/db/db_impl.cc:1100-1145 | the method returns what the last write to the key says that the snapshot, or LastSequence, admits: its value if it is a Put, nothing if it is a Delete or there is none |
| Database.DBImpl.WriteBatch | POMPOM/Pods/leveldb-library/db/db_impl.cc:1185-1256 | a batch gets consecutive sequence numbers, is appended to the history, and becomes visible as a whole; the invariant holds after it |
| Database.DBImpl.GetSnapshot | POMPOM/Pods/leveldb-library/db/db_impl.cc:1166-1169 | the snapshot is LastSequence at that moment and is held from then on |
| Database.DBImpl.ReleaseSnapshot | POMPOM/Pods/leveldb-library/db/db_impl.cc:1171-1174 | exactly that snapshot is given up |
| Database.DBImpl.MakeRoomForWrite | POMPOM/Pods/leveldb-library/db/db_impl.cc:1310-1370 | when the memtable is switched, and that a switch makes it the immutable one and starts an empty one; otherwise nothing changes |
| Database.DBImpl.CompactMemTable | POMPOM/Pods/leveldb-library/db/db_impl.cc:491-566 | after a flush the immutable memtable is gone and the live entries are exactly the same; the version has one file more, with the next file number, the entries of that memtable and the size of the table built; it lies at level 2 or above, past no file that meets its keys, and no deeper only because level 0 or the next level meets them or too many bytes two levels down do |
| Database.DBImpl.Choose | POMPOM/Pods/leveldb-library/db/db_impl.cc:697-714 | a manual range, a level that is too large or a file sought too often each leads to inputs that contain what was asked for; there are none exactly if no file meets a manual range |
| Database.DBImpl.BackgroundCompaction | POMPOM/Pods/leveldb-library/db/db_impl.cc:688-767 | the compaction pointer of the level becomes the largest chosen key; a single file moves down exactly when the job is automatic, nothing lies under it and not too much two levels down; otherwise the merged inputs are rewritten by the drop rules; the store stays valid if nothing is exposed |
| Database.DBImpl.MergeAndDrop | POMPOM/Pods/leveldb-library/db/db_impl.cc:878-1036 | the tables written hold, in order and under new numbers, exactly the entries that the drop rules keep: of one user key at most one entry as old as the smallest snapshot, and no tombstone that old unless a deeper file may hold its key; no table was full before its last entry, and none spans more than the allowed bytes of the files two levels down |
| InternalKeys.LookupKeySplits | POMPOM/Pods/leveldb-library/db/dbformat.cc:51-67 | a lookup key sorts after exactly the entries of smaller user keys and those of its own that are too new to see |
| InternalKeys.SourceGetAnswers | POMPOM/Pods/leveldb-library/db/memtable.cc:100-134 | in a sorted source the entry on which a seek to the lookup key lands decides the lookup: the newest visible version, its tombstone, or nothing |
| InternalKeys.AnswersUnion | POMPOM/Pods/leveldb-library/db/db_impl.cc:1125-1134 | asking a newer source first and an older one only on a miss is a lookup in their union |
| Versions.FindFile | POMPOM/Pods/leveldb-library/db/version_set.cc:88-106 | the binary search returns the first file whose largest key is not before the key |
| Versions.LevelProbe | POMPOM/Pods/leveldb-library/db/version_set.cc:298-321 | in a disjoint level only the file FindFile picks can decide a lookup |
| Versions.Get | POMPOM/Pods/leveldb-library/db/version_set.cc:326-421 | searching level 0 newest file first and the deeper levels in order, and stopping at the first version found, returns the newest visible version among all files |
| Inputs.GetOverlappingInputs | POMPOM/Pods/leveldb-library/db/version_set.cc:519-559 | below level 0, exactly the overlapping files; at level 0, in spite of the restarts the loop ends, with the files that overlap the least range around the request that no overlapping file sticks out of |
| Inputs.FindSmallestBoundaryFile | POMPOM/Pods/leveldb-library/db/version_set.cc:1344-1362 | a file that starts after the key with the same user key, and no other such file starts before it; none if there is none |
| Inputs.AddBoundaryInputs | POMPOM/Pods/leveldb-library/db/version_set.cc:1378-1401 | the loop ends, only adds files of the level, and leaves no file of the level that starts after the largest chosen key with its user key; a contiguous choice stays contiguous |
| Inputs.SetupOtherInputs | POMPOM/Pods/leveldb-library/db/version_set.cc:1403-1462 | the inputs are closed towards older versions at the level and cover the next level; they grow to what the whole range meets exactly when that takes more files, stays below the size limit and leaves the files of the next level the same; the new compaction pointer is the largest chosen key |
| Inputs.PickSizeCompaction | POMPOM/Pods/leveldb-library/db/version_set.cc:1270-1322 | the choice contains the first file that ends after the compaction pointer, or the first file if none does |
| Inputs.CompactFile | POMPOM/Pods/leveldb-library/db/version_set.cc:1306-1319 | compacting one picked file includes it, at level 0 with all files its range closure meets |
| Inputs.CompactRange | POMPOM/Pods/leveldb-library/db/version_set.cc:1464-1495 | nothing is returned exactly if no file meets the range; at level 0 all files that do are inputs, below it the front of them up to the first that reaches the byte limit |
| Inputs.PickLevelForMemTableOutput | POMPOM/Pods/leveldb-library/db/version_set.cc:491-516 | a file goes below level 0 only past levels its range does not meet, and it goes as far down as level 2 unless the next level meets the range or the level after that holds too many bytes of it |
| Compactions.Compaction.IsBaseLevelForKey | POMPOM/Pods/leveldb-library/db/version_set.cc:1533-1552 | asked about ascending keys, the pointers that only move forward give the direct answer: no file below the output level covers the key |
| Compactions.Compaction.ShouldStopBefore | POMPOM/Pods/leveldb-library/db/version_set.cc:1554-1576 | asked about ascending keys, the index that only moves forward counts exactly the bytes of the grandparents that end between the last stop, or the first key, and this key; the answer is yes exactly if they exceed the limit |
| CompactionCuts.PassedOverlapping | POMPOM/Pods/leveldb-library/db/version_set.cc:1454-1462 | counting only the grandparents that meet the inputs counts the same as counting the whole level |
| Compactions.HiddenByPrevious | POMPOM/Pods/leveldb-library/db/db_impl.cc:937-948 | comparing with the previous entry of the same user key only is enough to know whether some newer version hides this one at the smallest snapshot |
| Compactions.Drops | POMPOM/Pods/leveldb-library/db/db_impl.cc:937-963 | an entry is dropped if and only if it is hidden at the smallest snapshot, or is a tombstone no reader needs and no deeper level covers |
| Compactions.DoCompactionWork | POMPOM/Pods/leveldb-library/db/db_impl.cc:899-999 | the outputs together are the kept entries, all of them and nothing else, in order; each output ends because it is full, or because more than the allowed bytes of the grandparents have been passed since the last time that happened, and none spans more than that |
| SortedRuns.MergeEntries | POMPOM/Pods/leveldb-library/db/version_set.cc:1237-1268 | the merged input is sorted and holds exactly the entries of the files |
| Builders.UpperBound | POMPOM/Pods/leveldb-library/db/version_set.cc:706-716 | how many base files do not come after an added one |
| Builders.SaveLevel | POMPOM/Pods/leveldb-library/db/version_set.cc:695-739 | merging sorted added files into sorted base files gives the sorted list of all that are not deleted |
| Builders.Builder.Apply | POMPOM/Pods/leveldb-library/db/version_set.cc:650-692 | what the builder holds afterwards is the edit applied to what it held |
| Builders.Builder.SaveTo | POMPOM/Pods/leveldb-library/db/version_set.cc:695-739 | the saved version holds exactly those files, each level in order |
| Builders.Install | POMPOM/Pods/leveldb-library/db/version_set.cc:818-822 | one edit through a builder gives the old files without the deleted and with the added ones, each level in order |
| Builders.Replay | POMPOM/Pods/leveldb-library/db/version_set.cc:886-1011 | if no (level, number) is added twice, replaying all edits into one builder and saving once gives the version that was installed edit by edit |
| Builders.SnapshotThenEdits | POMPOM/Pods/leveldb-library/db/version_set.cc:1088-1116 | a snapshot of a version with unique numbers, followed by edits that add new numbers, is a list of edits of that kind, and leads to the version installed last |
| Builders.RecoverFromSnapshot | POMPOM/Pods/leveldb-library/db/version_set.cc:886-1011 | so replaying snapshot and edits gives the version installed last |
| ManifestRuns.RunLogs | POMPOM/Pods/leveldb-library/db/version_set.cc:801-884 | between any two states of a run of the store its steps log a list of edits |
| ManifestRuns.LoggedIsNew | POMPOM/Pods/leveldb-library/db/version_set.cc:801-884 | whatever a run logs adds each (level, number) once and none that was there at the start, and replaying it passes through the files the store had |
| ManifestRuns.RunManifest | POMPOM/Pods/leveldb-library/db/version_set.cc:801-884 | hence a snapshot taken at any state of a run, with the edits logged since, has all that recovery asks for |
| ManifestRuns.ChangeOf | POMPOM/Pods/leveldb-library/db/version_set.cc:801-815 | and each edit it logs, with any counters, is one that the manifest can hold |
| ManifestRuns.RecoverRun | POMPOM/Pods/leveldb-library/db/version_set.cc:886-1011 | recovering it gives the files of the last state, sorted and disjoint |
| ManifestRuns.RecoverRunFile | POMPOM/Pods/leveldb-library/db/version_set.cc:886-1011 | the same from bytes: of the manifest of a run, any byte prefix that holds a completed edit recovers the files the store had after it, with its counters; the whole manifest recovers the files of the last state |
| Manifests.ChangeRoundTrip | POMPOM/Pods/leveldb-library/db/version_set.cc:1103-1109 | an edit with its keys and files becomes manifest fields and back |
| Manifests.Recover | POMPOM/Pods/leveldb-library/db/version_set.cc:886-1011 | of any byte prefix of a manifest the edits wholly inside it are replayed: the version, the compaction pointers and the counters they add up to, or which counter is missing, or that the comparator is another one |
| Manifests.CountersAreLast | POMPOM/Pods/leveldb-library/db/version_set.cc:949-967 | each counter recovered is what the last edit that sets it says, and unset if none does |
| Manifests.PointedIsLast | POMPOM/Pods/leveldb-library/db/version_set.cc:652-657 | each compaction pointer is the last one set for its level |
| Manifests.OutcomeMeans | POMPOM/Pods/leveldb-library/db/version_set.cc:935-1000 | when recovery fails, and why; otherwise the manifest takes the next file number, the one after it is next, and a missing previous log number is 0 |
| Manifests.VersionSet.WriteSnapshot | POMPOM/Pods/leveldb-library/db/version_set.cc:1088-1116 | a new manifest starts with a record from which version and compaction pointers are recovered |
| Manifests.VersionSet.LogAndApply | POMPOM/Pods/leveldb-library/db/version_set.cc:801-884 | the edit is completed with log numbers and counters, applied, and recorded behind a snapshot if the manifest is new; the manifest then recovers to the new version and pointers |
| Builders.SnapshotEditRestores | POMPOM/Pods/leveldb-library/db/version_set.cc:1088-1116 | the edit that starts a new manifest, applied to nothing, is the version it was written from |
| VersionEdits.RecordRoundTrip | POMPOM/Pods/leveldb-library/db/version_edit.cc:107-194 | each kind of record is parsed back as it was written, whatever follows it |
| VersionEdits.EditRoundTrip | POMPOM/Pods/leveldb-library/db/version_edit.cc:41-205 | decoding an encoded edit gives back every field of it, for all edits with numbers of their width |
| VersionEdits.VersionEdit.DecodeFrom | POMPOM/Pods/leveldb-library/db/version_edit.cc:107-205 | the loop succeeds exactly if the bytes are records to the end, and sets the fields those records set; compaction pointers that the object held before stay in front |
| VersionEdits.UnknownTagRefused | POMPOM/Pods/leveldb-library/db/version_edit.cc:190-192 | an edit with an unknown tag is refused, whatever stands before or behind it |
| VersionEdits.BadLevelRefused | POMPOM/Pods/leveldb-library/db/version_edit.cc:97-105 | so is one that names a level from 7 on |
| VersionEdits.WriteThenRead | POMPOM/Pods/leveldb-library/db/version_edit.cc:41-205 | an edit written and read back into a fresh edit is the same edit |
| WriteBatches.BatchRoundTrip | POMPOM/Pods/leveldb-library/db/write_batch.cc:42-80 | iterating over an encoded batch hands out its records in order and ends well |
| WriteBatches.TornBatchRefused | POMPOM/Pods/leveldb-library/db/write_batch.cc:42-80 | a batch cut anywhere, even between two records, is refused, and what was handed out before is a prefix of its records |
| WriteBatches.UnknownTagStops | POMPOM/Pods/leveldb-library/db/write_batch.cc:55-74 | a tag that is neither 0 nor 1 ends the walk with an error, and the records before it have been handed out |
| WriteBatches.CountDecides | POMPOM/Pods/leveldb-library/db/write_batch.cc:75-79 | a whole batch is accepted if and only if its header counts its records |
| WriteBatches.WriteBatch.Put | POMPOM/Pods/leveldb-library/db/write_batch.cc:98-103 | the batch then encodes one more record, its count included; its sequence number stays |
| WriteBatches.WriteBatch.Delete | POMPOM/Pods/leveldb-library/db/write_batch.cc:105-109 | the same for a deletion |
| WriteBatches.WriteBatch.Append | POMPOM/Pods/leveldb-library/db/write_batch.cc:144-148 | the batch then encodes its own records followed by those of the source, even if that is the batch itself |
| WriteBatches.WriteBatch.SetSequence | POMPOM/Pods/leveldb-library/db/write_batch.cc:94-96 | only the sequence number changes |
| WriteBatches.WriteBatch.Iterate | POMPOM/Pods/leveldb-library/db/write_batch.cc:42-80 | for any bytes at all: which records are handed out, under which consecutive sequence numbers, as kind 1 with the value for a Put and as kind 0 for a Delete, and how the walk ends |
| WriteBatches.WriteBatch.InsertInto | POMPOM/Pods/leveldb-library/db/write_batch.cc:115-137 | a well-formed batch is inserted whole, record i under its sequence number plus i; a reader at any of these numbers finds for every key what the last record so far says: its value if that is a Put, a deletion if it is a Delete, nothing if there is none |
| WriteBatches.ReadsLastWrite | POMPOM/Pods/leveldb-library/db/write_batch.cc:115-129 | entries inserted one after another read, at each sequence number, as the last write among the records so far |
| WriteBatches.NumberedAppend | POMPOM/Pods/leveldb-library/db/write_batch.cc:132-148 | batches appended into one get consecutive, disjoint ranges of sequence numbers |
| WriteQueue.BuildBatchGroup | POMPOM/Pods/leveldb-library/db/db_impl.cc:1260-1306 | the group is the longest front of the queue that the rules admit, its batch is theirs in order, and no sync write is in a group led by a write without sync; behind a first batch of at most 128 KB it holds at most 128 KB more, behind a larger one at most 1 MB unless the first alone is larger, and the writer behind the group would break one of these bounds |
| WriteQueue.GroupUnique | POMPOM/Pods/leveldb-library/db/db_impl.cc:1260-1306 | the rules determine the size of the group |
| WriteQueue.GroupBytes | POMPOM/Pods/leveldb-library/db/db_impl.cc:1268-1275 | how many bytes a group can hold, in numbers |
| WriteQueue.GroupEnd | POMPOM/Pods/leveldb-library/db/db_impl.cc:1281-1294 | why a group ends before the end of the queue |
| WriteQueueSafety.RunKeepsInv | POMPOM/Pods/leveldb-library/db/db_impl.cc:1185-1256 | in every interleaving of arriving writers and the leader's steps, queue, log and memtable account for every call exactly once and in order |
| WriteQueueSafety.VisibleIsReturned | POMPOM/Pods/leveldb-library/db/db_impl.cc:1236-1252 | at any moment a reader at LastSequence sees exactly the updates of the calls that have returned, whole batches numbered one after another |
| WriteQueueSafety.LoggedOnce | POMPOM/Pods/leveldb-library/db/db_impl.cc:1204-1225 | a returned call is in exactly one log record, under the sequence numbers it was applied with, and that record was synced if the call asked for it |
| WriteQueueSafety.ReplayIsHistory | POMPOM/Pods/leveldb-library/db/db_impl.cc:371-489 | replaying the log gives every update of every logged call, once and in queue order |
| SkipLists.SkipList.LinkBehind | POMPOM/Pods/leveldb-library/db/skiplist.h:360-367 | one pointer store that makes a node follow its predecessor on a level keeps each level a sorted list of nodes of the level below |
| SkipLists.Insertion.Prepare | POMPOM/Pods/leveldb-library/db/skiplist.h:361-366 | setting the pointer of the new node, which nobody follows yet, keeps everything |
| SkipLists.Insertion.Publish | POMPOM/Pods/leveldb-library/db/skiplist.h:360-367 | publishing it keeps the list valid after that single store; the contents grow by the key on level 0 and do not change on higher levels |
| SkipLists.Search.Step | POMPOM/Pods/leveldb-library/db/skiplist.h:260-281 | a step of a search keeps it behind its target and in the list; if it ends, it holds the true successor of the target at that moment |
| SkipListRuns.Interleave | POMPOM/Pods/leveldb-library/db/skiplist.h:260-281 | for any schedule of one writer's pointer stores and any number of searches from any height, also stale ones: each search that ends holds the first node at or after its target as of its last load |
| SkipLists.FindGreaterOrEqual | POMPOM/Pods/leveldb-library/db/skiplist.h:260-281 | alone, the search ends at the successor of the target and leaves in prev its predecessor on every level |
| SkipLists.FindLessThan | POMPOM/Pods/leveldb-library/db/skiplist.h:284-302 | the last node before the target, or the head if there is none |
| SkipLists.FindLast | POMPOM/Pods/leveldb-library/db/skiplist.h:304-322 | the last node, or the head of an empty list |
| SkipLists.Insert | POMPOM/Pods/leveldb-library/db/skiplist.h:336-368 | after all stores the list is valid and holds one key more |
| SkipLists.Contains | POMPOM/Pods/leveldb-library/db/skiplist.h:370-378 | true exactly for the keys of the list |
| Merging.MergingIterator.Seek | POMPOM/Pods/leveldb-library/table/merger.cc:47-53 | the position is the first item of the sorted union at or after the target |
| Merging.MergingIterator.Next | POMPOM/Pods/leveldb-library/table/merger.cc:55-79 | one item forward in the sorted union, also right after moving backward |
| Merging.MergingIterator.Prev | POMPOM/Pods/leveldb-library/table/merger.cc:81-108 | one item back, also right after moving forward |
| Merging.MergingIterator.SeekToLast | POMPOM/Pods/leveldb-library/table/merger.cc:39-45 | the last item of the union |
| Merging.MergingIterator.FindSmallest | POMPOM/Pods/leveldb-library/table/merger.cc:148-161 | if every child is at its first item at or after a position, the child chosen stands on the item there |
| Merging.MergingIterator.FindLargest | POMPOM/Pods/leveldb-library/table/merger.cc:163-176 | the same backward, with ties going to the last child |
| TwoLevels.TwoLevelIterator.Seek | POMPOM/Pods/leveldb-library/table/two_level_iterator.cc:82-87 | the position is the first item at or after the target in the concatenation of all blocks, empty ones included |
| TwoLevels.TwoLevelIterator.Next | POMPOM/Pods/leveldb-library/table/two_level_iterator.cc:103-107 | one item forward in the concatenation |
| TwoLevels.TwoLevelIterator.Prev | POMPOM/Pods/leveldb-library/table/two_level_iterator.cc:109-113 | one item back in the concatenation |
| TwoLevels.TwoLevelIterator.SeekToLast | POMPOM/Pods/leveldb-library/table/two_level_iterator.cc:96-101 | the last item of the concatenation |
| TwoLevels.SeekBoth | POMPOM/Pods/leveldb-library/table/two_level_iterator.cc:82-87 | seeking in the index and then in the block found splits the concatenation at the target |
| UserIterators.DBIter.Next | POMPOM/Pods/leveldb-library/db/db_iter.cc:141-166 | one user key forward in the list of visible keys, also after moving backward |
| UserIterators.DBIter.Prev | POMPOM/Pods/leveldb-library/db/db_iter.cc:200-225 | one user key back, also after moving forward |
| UserIterators.DBIter.Seek | POMPOM/Pods/leveldb-library/db/db_iter.cc:269-281 | the first visible user key at or after the target |
| UserIterators.DBIter.SeekToFirst | POMPOM/Pods/leveldb-library/db/db_iter.cc:283-292 | the first visible user key |
| UserIterators.DBIter.SeekToLast | POMPOM/Pods/leveldb-library/db/db_iter.cc:294-299 | the last visible user key |
| UserIterators.DBIter.FindNextUserEntry | POMPOM/Pods/leveldb-library/db/db_iter.cc:168-198 | skipping overwritten, deleted and too new entries ends on the next visible key |
| UserIterators.DBIter.FindPrevUserEntry | POMPOM/Pods/leveldb-library/db/db_iter.cc:227-267 | going back ends on the newest visible value of the nearest visible key |
| UserIterators.ViewIsGet | POMPOM/Pods/leveldb-library/db/db_iter.cc:34-38 | a key and value are shown if and only if a lookup at the same sequence number finds that value |
| UserIterators.ViewUsersAscend | POMPOM/Pods/leveldb-library/db/db_iter.cc:34-38 | each user key is shown once, in ascending order |
| BlockBuilding.BlockBuilder.Add | POMPOM/Pods/leveldb-library/table/block_builder.cc:72-106 | the buffer stays the encoding of the entries added so far, with prefixes shared and restarts recorded where due |
| BlockBuilding.BlockBuilder.Finish | POMPOM/Pods/leveldb-library/table/block_builder.cc:62-70 | the finished block is that encoding with its restart array |
| BlockBuilding.BlockBuilder.EstimateIsSize | POMPOM/Pods/leveldb-library/table/block_builder.cc:56-60 | the size estimate is the exact size of the block as it would be finished now |
| BlockEntries.FastPath | POMPOM/Pods/leveldb-library/table/block.cc:54-74 | the one-byte path decodes what the varint path would |
| BlockEntries.EntryInBlock | POMPOM/Pods/leveldb-library/table/block.cc:54-74 | at the offset of an entry the bytes decode to its shared length, its own part of the key and its value, and end where the next entry starts |
| BlockEntries.OpenEncoded | POMPOM/Pods/leveldb-library/table/block.cc:24-39 | an encoded block opens with the right number of restarts at the right place |
| BlockReading.Iter.ParseNextKey | POMPOM/Pods/leveldb-library/table/block.cc:224-251 | from a position that knows the previous key, the next entry is shown with its whole key and its value, or the end is reached |
| BlockReading.Iter.Prev | POMPOM/Pods/leveldb-library/table/block.cc:142-161 | the entry before, found from a restart point, or the end if there is none |
| BlockReading.Iter.Seek | POMPOM/Pods/leveldb-library/table/block.cc:163-201 | binary search over restarts and linear scan land on the first key not before the target, for any restart interval |
| BlockReading.Iter.SeekToLast | POMPOM/Pods/leveldb-library/table/block.cc:208-213 | the last entry |
| BlockReading.ReadBack | POMPOM/Pods/leveldb-library/table/block.cc:224-251 | for any entries and any restart interval, what was added comes back |
| Tables.SeparatorSeparates | POMPOM/Pods/leveldb-library/db/dbformat.cc:69-86 | the shortened separator is at or after the start and before the limit, and if it is new, before every version of the limit's user key |
| TableBuilding.TableBuilder.Add | POMPOM/Pods/leveldb-library/table/table_builder.cc:94-123 | the state stays right: entries so far in encoded blocks in the file and in the block builder, index entries whose keys separate each block from all that follows, and every key in the filter of its block's offset; the block is flushed exactly if its encoding has reached the size limit |
| TableBuilding.TableBuilder.Flush | POMPOM/Pods/leveldb-library/table/table_builder.cc:125-139 | a flush moves entries into a block and loses none |
| TableBuilding.TableBuilder.Finish | POMPOM/Pods/leveldb-library/table/table_builder.cc:198-253 | the bytes of the file are a table that holds exactly the entries added: data blocks, filter block, metaindex, index and footer |
| TableFormat.FooterRoundTrip | POMPOM/Pods/leveldb-library/table/format.cc:31-62 | a footer decodes to the handles it was made from, whatever padding they leave |
| TableFormat.StoredReads | POMPOM/Pods/leveldb-library/table/format.cc:64-139 | a stored block is read back through its handle, its checksum matching |
| TableFormat.ReadIsSound | POMPOM/Pods/leveldb-library/table/format.cc:64-139 | whatever the file, a block that is read stands there uncompressed and with the right checksum |
| TableFormat.MagicNeeded | POMPOM/Pods/leveldb-library/table/format.cc:42-50 | a file without the magic number at its end is refused |
| TableReading.Open | POMPOM/Pods/leveldb-library/table/table.cc:38-132 | opening a table file finds its index block and, if the policy is in use, its filter |
| FilterBlocks.FilterBlockBuilder.StartBlock | POMPOM/Pods/leveldb-library/table/filter_block.cc:21-27 | filters are generated up to the new offset and no key added is lost |
| FilterBlocks.FilterBlockBuilder.Finish | POMPOM/Pods/leveldb-library/table/filter_block.cc:35-49 | the bytes are the filters, their offsets and the base, and each key is in the filter of its offset |
| FilterBlocks.NeverHides | POMPOM/Pods/leveldb-library/table/filter_block.cc:77-104 | reading those bytes, the filter lets every key pass at the block offset it was added for |
| FilterBlocks.AsksItsFilter | POMPOM/Pods/leveldb-library/table/filter_block.cc:77-104 | a lookup asks exactly the filter of the 2 KB of file offsets in which the block starts |
| TableReading.InternalGet | POMPOM/Pods/leveldb-library/table/table.cc:216-244 | over the bytes of the file, index seek, filter and block seek find the first entry at or after the key, unless it belongs to another user key |
| Tables.LookupFindsNewest | POMPOM/Pods/leveldb-library/table/table.cc:216-244 | for a lookup key that entry is the newest version the reader may see |
| TableReading.GetNewest | POMPOM/Pods/leveldb-library/table/table.cc:216-244 | so opening a table file and looking up a key reaches its newest visible version whenever there is one |
| LogWriting.Writer.AddRecord | POMPOM/Pods/leveldb-library/db/log_writer.cc:34-80 | the loop writes the record as physical records that never cross a block, with trailers zero-filled, and the block offset stays in step with the file |
| LogWriting.ReopenedWriterContinues | POMPOM/Pods/leveldb-library/db/log_writer.cc:27-30 | a writer reopened at the file's length emits the bytes a single writer would have |
| LogReading.Reader.ReadPhysicalRecord | POMPOM/Pods/leveldb-library/db/log_reader.cc:189-271 | a physical record wholly in the file is returned, one that is cut is the end of the file; neither is reported as a corruption; of any file at all, what is returned stands in it at the next header with its length, type and right checksum |
| LogReading.Reader.ReadRecord | POMPOM/Pods/leveldb-library/db/log_reader.cc:56-174 | the fragments of a record are assembled to it; a record the file does not hold to its end is the end of the log; of any file at all, a record returned is one whole fragment, or a first, middle ones and a last one, one behind the other in the file with the right checksums |
| LogReading.ReadLog | POMPOM/Pods/leveldb-library/db/log_reader.cc:56-174 | on any byte prefix of a log, exactly the records wholly inside it, and no corruption reported; on any file at all, only records made of fragments with the right checksums, in file order and none used twice |
| LogReading.CompleteIsLongest | POMPOM/Pods/leveldb-library/db/log_reader.cc:56-174 | those are the longest front of the records whose log fits in that many bytes |
| LogReading.WriteThenRead | POMPOM/Pods/leveldb-library/db/log_reader.cc:56-174 | what the writer adds, the reader returns |
| Heaps.Heap.Swap | POMPOM/Pods/Libuv-gRPC/src/heap-inl.h:72-104 | exchanging a child with its parent rewrites exactly the links needed: the breadth-first sequence of nodes has the two exchanged and every node still points to its children and parent |
| Heaps.Heap.PathTo | POMPOM/Pods/Libuv-gRPC/src/heap-inl.h:122-124 | the bits collected from a position lead from the root to that position |
| Heaps.Heap.Follow | POMPOM/Pods/Libuv-gRPC/src/heap-inl.h:126-136 | following them ends at the pointer to that breadth-first position, with the pointer to the one above |
| Heaps.Heap.Insert | POMPOM/Pods/Libuv-gRPC/src/heap-inl.h:106-148 | the tree stays complete, linked and ordered, and gains exactly the node |
| Heaps.Heap.Remove | POMPOM/Pods/Libuv-gRPC/src/heap-inl.h:150-237 | removing any node keeps the tree complete, linked and ordered, and loses exactly that node |
| Heaps.Heap.Min | POMPOM/Pods/Libuv-gRPC/src/heap-inl.h:67-69 | nothing in the heap comes before it; null for an empty heap |
| HeapOrder.DownStep | POMPOM/Pods/Libuv-gRPC/src/heap-inl.h:216-229 | exchanging with the smaller child moves the one place where order is in doubt a level down |
| Timers.DueSaturates | POMPOM/Pods/Libuv-gRPC/src/timer.c:78-80 | the wrap-around test is saturating addition |
| Timers.Loop.Start | POMPOM/Pods/Libuv-gRPC/src/timer.c:66-94 | the timer becomes active with the saturated due time and the next start id, in the heap exactly once; a closing handle or no callback is refused and changes nothing |
| Timers.Loop.Stop | POMPOM/Pods/Libuv-gRPC/src/timer.c:97-107 | the timer is not active and not in the heap; the other timers stay |
| Timers.Loop.Again | POMPOM/Pods/Libuv-gRPC/src/timer.c:110-120 | a repeating timer starts over with its repeat value, one that never started is refused, one without repeat is left alone |
| Timers.Loop.Close | POMPOM/Pods/Libuv-gRPC/src/timer.c:174-176 | a closing timer is stopped: not active and out of the heap, the others stay |
| Timers.Loop.NextTimeout | POMPOM/Pods/Libuv-gRPC/src/timer.c:133-151 | -1 exactly without timers, 0 exactly if one is due, otherwise the time to the first one, cut to an int |
| Timers.Loop.RunTimers | POMPOM/Pods/Libuv-gRPC/src/timer.c:154-171 | the loop ends; it fires exactly the timers that were due, each once, in strictly ascending (due time, start id), and they keep their callbacks; repeating ones are active again strictly later, with consecutive new start ids in the order in which they fired; others are stopped, and all other timers are as before |
| ThreadPoolSteps.StepKeepsInv | POMPOM/Pods/Libuv-gRPC/src/threadpool.c:57-139 | every step of a worker, post, cancellation or completion keeps the invariant: one place per request, queues without duplicates, counters that count |
| ThreadPoolSafety.OnePlace | POMPOM/Pods/Libuv-gRPC/src/threadpool.c:142-160 | in every state of every run a submitted request is in exactly one queue, worker or done list |
| ThreadPoolSafety.SlowWorkLimited | POMPOM/Pods/Libuv-gRPC/src/threadpool.c:68-110 | at most (nthreads+1)/2 workers are at slow work |
| ThreadPoolSafety.TokenQueuedOnce | POMPOM/Pods/Libuv-gRPC/src/threadpool.c:142-154 | while slow work waits, its token is in the common queue exactly once |
| ThreadPoolSafety.RunsOnce | POMPOM/Pods/Libuv-gRPC/src/threadpool.c:121-131 | no work function is called a second time |
| ThreadPoolSafety.DoneNotYet | POMPOM/Pods/Libuv-gRPC/src/threadpool.c:295-315 | no done callback is called a second time |
| ThreadPoolSafety.OutcomeIsFinal | POMPOM/Pods/Libuv-gRPC/src/threadpool.c:295-315 | what a done callback is told never changes, and is UV_ECANCELED if and only if the work function never runs |
| ThreadPoolSafety.CancelSucceedsIff | POMPOM/Pods/Libuv-gRPC/src/threadpool.c:269-292 | cancelling an unfinished request succeeds if and only if no worker has taken it and its work has not run |
| ThreadPoolSafety.CancelledNeverRuns | POMPOM/Pods/Libuv-gRPC/src/threadpool.c:269-292 | once it has succeeded, the work never runs and the outcome can only be UV_ECANCELED |
| ThreadPoolOrder.CommonWorkInOrder | POMPOM/Pods/Libuv-gRPC/src/threadpool.c:142-160 | in every run: while a request is still in the common queue, no worker has got to one submitted after it |
| ThreadPoolOrder.SlowWorkInOrder | POMPOM/Pods/Libuv-gRPC/src/threadpool.c:93-110 | the same for slow work |
| ThreadPoolOrder.DoneInOrder | POMPOM/Pods/Libuv-gRPC/src/threadpool.c:295-315 | done callbacks are called in the order in which their requests were put on the loop's queue, unless one of them is cancelled again in between |
| ThreadPoolOrder.CancelledAgainFallsBehind | POMPOM/Pods/Libuv-gRPC/src/threadpool.c:269-292 | and that exception is real: uv_cancel succeeds again for a request that waits as cancelled, and puts it behind the others |
| ThreadPoolOrder.WaitsOnlyWithoutWork | POMPOM/Pods/Libuv-gRPC/src/threadpool.c:68-73 | a worker waits only if no common work is queued, and slow work waits only if (nthreads+1)/2 threads are at slow work |
| ThreadPoolOrder.CommonWorkStarts | POMPOM/Pods/Libuv-gRPC/src/threadpool.c:68-117 | a worker that looks for work while common work is queued gets a request in one or two rounds |
| Idna.ToAsciiLabel | POMPOM/Pods/Libuv-gRPC/src/idna.c:102-246 | a label with a non-ASCII code point and no overflow becomes xn-- and bytes that the RFC 3492 section 6.2 decoder turns back into it, and they are the only encoding of it; a plain one is copied; with little room the output is the part that fits; text of at most 3854 Unicode code points never overflows |
| Idna.EncodeWide | POMPOM/Pods/Libuv-gRPC/src/idna.c:161-243 | the scans over ascending code points end, and their deltas rebuild the label |
| Idna.EmitDelta | POMPOM/Pods/Libuv-gRPC/src/idna.c:192-218 | the digit loop writes the generalised variable-length integer of the delta |
| Idna.AdaptBias | POMPOM/Pods/Libuv-gRPC/src/idna.c:220-236 | the damped delta, delta/700 or delta/2 plus its share per code point, is divided by 35 until it is at most 455; the bias is 36 for each division and 36r/(r+38) for the rest r; that is the adaptation of the decoder, written from the parameters of RFC 3492 |
| Punycode.DecodeEncoded | POMPOM/Pods/Libuv-gRPC/src/idna.c:192-236 | the decoder reads the deltas back one by one, with the bias both sides adapt |
| Punycode.StepInserts | POMPOM/Pods/Libuv-gRPC/src/idna.c:166-243 | a delta that counts the skipped states makes the decoder insert the code point at its place |
| Punycode.DeltasUnique | POMPOM/Pods/Libuv-gRPC/src/idna.c:166-243 | two sequences of deltas that rebuild the same label are the same |
| IdnaLabels.Nihon | POMPOM/Pods/Libuv-gRPC/src/idna.c:102-246 | U+65E5 U+672C is xn--wgv71a |
| IdnaLabels.Buecher | POMPOM/Pods/Libuv-gRPC/src/idna.c:102-246 | b, U+00FC, c, h, e, r is xn--bcher-kva |
| PbDecoding.RoundTrip | POMPOM/Pods/nanopb/pb_decode.c:1084-1096 | for every descriptor with distinct non-zero tags at each level and every message that fits it, decoding its encoding succeeds with the same presence and values |
| PbDecoding.DecodeNoInit | POMPOM/Pods/nanopb/pb_decode.c:934-1082 | the encoding of a message decodes to it; any input at all is accepted if and only if each record in it is, and each of the first 64 required fields has one, and the result is then what a walk over its records makes of the message that was there |
| PbLaws.Untouched | POMPOM/Pods/nanopb/pb_decode.c:952-1030 | of any input: the slot of a field without a record in it stays what it was |
| PbLaws.LastValueWins | POMPOM/Pods/nanopb/pb_decode.c:406-423 | a field that is neither an array nor a submessage holds the value of its last record |
| PbLaws.SubmessagesMerge | POMPOM/Pods/nanopb/pb_decode.c:1525-1547 | the records of a submessage are read one into the other |
| PbLaws.ArrayExtended | POMPOM/Pods/nanopb/pb_decode.c:424-483 | an array holds what it held and then the values of its records, packed or not, in their order |
| PbLaws.UnknownIgnored | POMPOM/Pods/nanopb/pb_decode.c:991-994 | records of unknown fields change nothing, wherever they stand |
| PbLaws.UnknownAccepted | POMPOM/Pods/nanopb/pb_decode.c:991-994 | nor do they change whether the input is accepted, if they can be skipped |
| PbLaws.RecordsCommute | POMPOM/Pods/nanopb/pb_decode.c:952-1030 | neighbouring records of different fields may change places |
| PbLaws.ConcatMerges | POMPOM/Pods/nanopb/pb_decode.c:952-1030 | two messages one after another decode to the second read into the first |
| PbLaws.ConcatAccepted | POMPOM/Pods/nanopb/pb_decode.c:952-1030 | and are accepted exactly if the first is and the second is behind it |
| PbLaws.LastOf | POMPOM/Pods/nanopb/pb_decode.c:952-1030 | any input with a record of a field splits around the last one, so that these laws apply to it |
| PbDecoding.DecodeOne | POMPOM/Pods/nanopb/pb_decode.c:952-1030 | one round takes exactly one record: a known field is decoded, and an unknown one is skipped and changes nothing; it fails exactly if that record is not accepted |
| PbRecords.LeadsOn | POMPOM/Pods/nanopb/pb_decode.c:952-1030 | the walk over records goes on behind the one just read, and has that one's tag |
| PbDecoding.DecodeSubmessage | POMPOM/Pods/nanopb/pb_decode.c:1525-1547 | a submessage is decoded from its own bytes, and exactly its length and those are taken; what it is and when it is accepted depend on these bytes as for a message |
| PbDecoding.DecodePacked | POMPOM/Pods/nanopb/pb_decode.c:424-453 | a packed array is appended to what the field holds; accepted exactly if its values fill its length, are accepted and fit the array |
| PbDecoding.DecodeField | POMPOM/Pods/nanopb/pb_decode.c:406-483 | the body of a field decodes to the field with that value or item; never more items than the array holds; what is taken is one value of the wire type the decoder goes by; accepted or not, and the value, for any bytes |
| PbEncoding.Encode | POMPOM/Pods/nanopb/pb_encode.c:528-550 | encoding succeeds exactly if the whole message fits; a sizing stream counts exactly the bytes a writing one gets |
| PbEncoding.EncodeMessage | POMPOM/Pods/nanopb/pb_encode.c:567-576 | a buffer of the size computed first is filled exactly |
| PbEncoding.EncodeSubmessage | POMPOM/Pods/nanopb/pb_encode.c:717-765 | the size written in front equals the bytes that follow, at every nesting level, so the check of the two never fails |
| PbEncoding.EncodeArray | POMPOM/Pods/nanopb/pb_encode.c:147-236 | packed with a matching length, or each item behind its tag; nothing for an empty array |
| PbEncoding.OStream.EncodeVarint | POMPOM/Pods/nanopb/pb_encode.c:608-628 | little-endian base 128 without redundant groups |
| PbReading.IStream.DecodeVarint32 | POMPOM/Pods/nanopb/pb_decode.c:187-247 | what it accepts is the low 32 bits of the number at the front, with all its bytes consumed; when it accepts |
| PbReading.ShortAccepted | POMPOM/Pods/nanopb/pb_decode.c:187-247 | a number of at most five bytes is accepted if and only if it is below 2^32 |
| PbReading.AcceptedIsNumber | POMPOM/Pods/nanopb/pb_decode.c:187-247 | what is accepted is a whole number |
| PbReading.IStream.DecodeVarint | POMPOM/Pods/nanopb/pb_decode.c:255-275 | accepts exactly numbers of at most ten bytes, modulo 2^64 |
| PbScalars.CheckNumberMeans | POMPOM/Pods/nanopb/pb_decode.c:1345-1428 | which numbers fit an integer field of each width, and which value they stand for |
| PbScalars.DecodeScalar | POMPOM/Pods/nanopb/pb_decode.c:1334-1585 | for any bytes: accepted exactly if the value is whole and fits its storage, and which value it is |
| PbScalars.SkipField | POMPOM/Pods/nanopb/pb_decode.c:321-331 | skips exactly a value of the wire type, and fails exactly if there is none |
| PbIteration.FieldIter.Next | POMPOM/Pods/nanopb/pb_common.c:29-85 | the iterator goes round all fields and keeps its count of required fields right |
| PbIteration.FieldIter.Find | POMPOM/Pods/nanopb/pb_common.c:87-104 | finds a field with the tag from any starting point, or comes back to it if there is none |
| PbIteration.WordsFullIff | POMPOM/Pods/nanopb/pb_decode.c:1039-1079 | the bitmap check passes if and only if each of the first 64 required fields was seen |
| PbFormat.LeftOutIff | POMPOM/Pods/nanopb/pb_encode.c:240-337 | a value is left out of a proto3 message if and only if it is the default of a type that may be left out |
| PbFormat.IsDefaultIsDefault | POMPOM/Pods/nanopb/pb_encode.c:240-337 | a value the proto3 check leaves out is the value a decoder starts from |
| KnownBytes.VarintBytes | POMPOM/Pods/leveldb-library/util/coding.cc:47-75 | known integers of one to three bytes |
| KnownBytes.FixedBytes | POMPOM/Pods/leveldb-library/util/coding.cc:9-35 | fixed-width numbers start with their low byte |
| KnownBytes.BatchBytes | POMPOM/Pods/leveldb-library/db/write_batch.cc:7-15 | the bytes of a batch header, a Put and a Delete |
| KnownBytes.WholeFragment | POMPOM/Pods/leveldb-library/db/log_writer.cc:82-112 | a record that fits its block is its masked checksum, its length, type 1 and itself |
| KnownBytes.TwoFragments | POMPOM/Pods/leveldb-library/db/log_writer.cc:34-80 | one that needs two blocks of 32768 bytes is a fragment of type 2 and one of type 4 |
| KnownBytes.MiddleFragment | POMPOM/Pods/leveldb-library/db/log_writer.cc:34-80 | and those between have type 3 |
| KnownBytes.ShortTail | POMPOM/Pods/leveldb-library/db/log_writer.cc:43-53 | fewer than seven bytes at the end of a block are zeros |
| KnownBytes.EditBytes | POMPOM/Pods/leveldb-library/db/version_edit.cc:14-24 | the tags of the numbers in an edit |
| KnownBytes.FileEditBytes | POMPOM/Pods/leveldb-library/db/version_edit.cc:14-24 | the tags and fields of pointers, deletions and additions |
| KnownBytes.EditOrder | POMPOM/Pods/leveldb-library/db/version_edit.cc:42-83 | the numbers of an edit in their order, then pointers, deletions and additions |
| KnownBytes.BlockBytes | POMPOM/Pods/leveldb-library/table/block_builder.cc:5-27 | two entries that share a prefix, their restart array and its size |
| KnownBytes.RestartBytes | POMPOM/Pods/leveldb-library/table/block_builder.cc:5-27 | with a restart at each entry, no prefix is shared and each entry has its place in the array |
| KnownBytes.FooterBytes | POMPOM/Pods/leveldb-library/table/format.cc:31-40 | two handles, zeros up to byte 40 and the magic number 0xdb4775248b80fb57 |
| KnownBytes.StoredBytes | POMPOM/Pods/leveldb-library/table/table_builder.cc:177-195 | a block is followed by type 0 and the masked checksum of both |
| KnownBytes.FilterBytes | POMPOM/Pods/leveldb-library/table/filter_block.cc:15-51 | the filter block without filters, one whose first group is empty, and 2 KB of file offsets to a filter |
| KnownBytes.KeyBytes | POMPOM/Pods/nanopb/pb_encode.c:669-707 | the wire type of each kind of field, in the key byte of each field up to 15 |
| KnownBytes.ScalarFieldBytes | POMPOM/Pods/nanopb/pb_encode.c:608-707 | integers, zigzag and strings as in the examples of the format |
| KnownBytes.MoreFieldBytes | POMPOM/Pods/nanopb/pb_encode.c:528-550 | ten bytes for a negative number, none for a proto3 default, fields in their order |
| KnownBytes.FixedFieldBytes | POMPOM/Pods/nanopb/pb_encode.c:641-707 | keys and bytes of the two fixed widths |
| KnownBytes.SubmessageBytes | POMPOM/Pods/nanopb/pb_encode.c:717-765 | a message in a message |
| KnownBytes.PackedBytes | POMPOM/Pods/nanopb/pb_encode.c:147-206 | a packed array |
| KnownBytes.WalkedBytes | POMPOM/Pods/nanopb/pb_decode.c:952-1030 | an unknown field before a known one, and a field that comes twice, as a receiver reads them |

## Left out

- Inputs.SetupOtherInputs: does not promise that the inputs at the next level are closed over a user key shared with a file that stays there, because the code does not look for boundary files at that level; `LsmSafety.CompactionExact` gives the exact condition and `LsmSafety.ClosedNeverExposes` a check on file ranges.
- Compactions.DoCompactionWork: when an output file is full is an arbitrary test of the entries in it, since the size of a table under construction depends on compression. Its flush of the immutable memtable in mid-compaction (db_impl.cc:907-918) is not modelled: a compaction is one step, and a flush is another.
- LsmSafety.RunsReadHistory: is about runs in which each compaction satisfies the condition of `LsmSafety.CompactionExact`; without it the claim is false. `LsmUnheld.FreeRunsReadHistory` needs no such condition, but no snapshot may be held during a compaction. Sequence numbers stay below their 56-bit maximum.
- Database.DBImpl.WriteBatch: writes one batch at a time; the queue, the grouping and the log are in `WriteQueue`.
- Database.DBImpl.BackgroundCompaction: flushing an immutable memtable first, which the original does in the same call, is `Database.DBImpl.CompactMemTable`; where a manual compaction goes on afterwards is left out.
- Database.DBImpl.MakeRoomForWrite: models one round, not the waits and the one-millisecond delay.
- WriteQueueSafety.RunKeepsInv: has no I/O errors, and the leader's MakeRoomForWrite is a step without effect on log and memtable entries. `LoggedOnce` promises durability as far as a completed sync does.
- WriteBatches.BatchRoundTrip: is about fewer than 2^31 records, since the loop counts in an int; the copy of a batch into a memtable entry's bytes is not modelled, the memtable being a sorted list of entries.
- LogReading.Reader.ReadRecord: of a file that is not a prefix of a log it says that what is returned stands there with the right checksums, not which records behind a corruption are found again; resynchronising from an initial offset is not modelled.
- Manifests.Recover: is about byte prefixes of a manifest that LogAndApply wrote, so corrupted records and edits that do not decode are left out, as are the CURRENT file, reuse of a manifest and I/O errors. File numbers, sizes and counters fit in 64 bits.
- Manifests.VersionSet.LogAndApply: asks that the edit adds no (level, number) that the manifest has added before, which `ManifestRuns.LoggedIsNew` proves of every run.
- BlockReading.Iter.Seek: is about blocks a BlockBuilder wrote; the exits for corrupted entries are not taken on those and are left out.
- TableBuilding.TableBuilder.Finish: blocks are stored without compression; each block stays below 4 GB, the file below 2^63 bytes, and the filters below 4 GB together.
- TableReading.InternalGet: is about files a TableBuilder wrote; block cache and corrupted blocks are left out.
- Tables.SeparatorSeparates: assumes that a user comparator returns a start that is not below its limit unchanged.
- UserIterators.DBIter.Next: the iterator below is a cursor over a sorted list of parsable keys, of which `Merging` and `TwoLevels` are proved to be instances, but there is no polymorphic iterator that would join them in one program; read sampling is left out.
- Merging.MergingIterator.Next: children hold pairwise distinct keys, as they do in the store.
- SkipListRuns.Interleave: pointer loads and stores take effect one at a time; weaker memory orders are not modelled. Node heights are parameters instead of random, keys are distinct as the list demands.
- Heaps.Heap.Insert: the node count has no width; the 32-bit path of the original holds up to 2^32 nodes.
- Timers.Loop.RunTimers: callbacks do not touch timers, the loop's time is below 2^64 - 1 and start ids do not wrap. Handle references and the loop's active count are left out.
- ThreadPoolSafety.OnePlace: threads are started and nothing shuts down; starting, exit, fork and fair scheduling are left out. A waiting worker may wake at any time, so nothing depends on which signal was sent. Cancellation belongs to unfinished requests of the calling loop.
- Idna.ToAsciiLabel: starts from code points with invalid sequences marked; decoding UTF-8 and splitting at dots are left out, and the label is shorter than 2^32 - 1.
- PbDecoding.RoundTrip: static scalar, string, bytes and nested fields, optional, required, proto3 singular and repeated. Callbacks, extensions, oneofs, pointers, fixed-count arrays, explicit proto2 defaults and the layout of C structs are left out; strings hold no NUL and the encoding is below 4 GB.
- PbDecoding.DecodeNoInit: a field whose has_ flag is off is taken to hold its default, as pb_decode leaves it. A key with field number 0 under a descriptor without fields is not modelled, and the bitmap's words are sets of bits.
- PbReading.IStream.DecodeVarint32: the bit position does not wrap as an eight-bit counter would after more than 255 bits.
- Seek-triggered compaction statistics, caches, file handling, Env, DB::Open and recovery of several logs, RepairDB, properties and approximate sizes.
- The Swift app.
