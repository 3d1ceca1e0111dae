# Models of LevelDB and nanopb

The application carries two engines as vendored pods: LevelDB, an ordered key-value
store, and nanopb, a protocol buffer codec. This Dafny 4.11 project models both and
proves what they are for. `dafny verify dfyconfig.toml` checks all of it.

**LevelDB.** The specification is flat: a history of operations, the i-th with sequence
number i, and a lookup at a snapshot s that takes the newest entry of the key with a
sequence number of at most s, which is the same as replaying the first s operations into
a map (`FlatHistory`). Everything else is a fast form of that:

- `LsmState` is the store as a state machine over memtables, leveled files, snapshots
  and file numbers; `LsmInvariants`, `LsmReads`, `LsmRuns` and `BoundaryReads` prove what
  its steps keep and which runs read right. `DbImpl` has the imperative operations, each
  proved to be a step of the machine that the code would take, on top of `Versions`
  (search), `CompactionInputs` and `SetupInputs` (what is compacted together),
  `CompactionLoop` (what a merge keeps, and where it cuts), `CompactionChildren`,
  `VersionBuilder` and `LevelEdits` (new versions). `EditReplay` and `ManifestReplay` are
  recovery of the file list.
- `Merger`, `DbIter` and `TwoLevelIterator` are the direction-switching iterators, each
  a cursor over one sequence.
- `SkipList`, `SnapshotList`, `HandleTable` and `LruCache` are the linked structures in
  memory; `WriteBatch` and `WriteQueue` are batches and group commit.
- `LogFormat`, `LogWriter` and `LogReader` are the write-ahead log; `BlockFormat`,
  `BlockBuilder`, `BlockReader`, `Comparators`, `Bloom`, `FilterBlock`, `Table`,
  `TableFormat`, `TableBuilder` and `TableReader` are the sorted tables, from the run that
  is added to the bytes of the file and back; `Coding` has the integers in them.
- `ObsoleteFiles` is what may be deleted, and when, and what recovery then finds.
- `LsmCrashes` has crashes among the steps of the machine; `CrashRecovery` opens the store
  again from the bytes of its logs and the edits of its manifest.

**One result is negative.** `SetupOtherInputs` looks for boundary files at the upper
level only (version_set.cc:1407-1411). A merge may therefore take in a lower table that
ends with the tombstone of a key and leave behind the next table, which starts with the
value the tombstone hides; with nothing deeper, the tombstone is dropped and the deleted
key reads as present again. `Resurrection.DeletedKeyReturns` is a whole run that ends so,
with default sizes and every step one the code takes: three calls of CompactRange after
writes, with a snapshot alive during the second. `LsmRuns.RunsReadRight` says exactly when
reads are right: if and only if no merge of the run is of this kind.
`BoundaryReads.RunsReadRightAtBoundaries` reads that off the files: if and only if no
merge leaves a first boundary file that starts with a value while the newest visible entry
of the last user key of the lower inputs is an obsolete tombstone among them.
`LsmReads.ClosedLowerInputsAreSafe` gives a check before the merge that rules it out,
namely that the function which finds boundary files for the upper inputs finds none for
the lower ones.

**Recovery rebuilds the files.** Recover reads all edits of a manifest through one
builder, while LogAndApply saved a version for each. `EditReplay.OneBuilderForAll` says
exactly when the two agree, for any edits each of which left a version (no file twice
on a level; MaybeAddFile asserts it below level 0). They do not always, as `EditReplay.ReaddingDiffers`
shows, but they do for every manifest that the program writes:
`ManifestReplay.RecoveryRebuilds`.

**A crash takes the store back to a prefix of its history.** `CrashRecovery.Open` proves
so for a last log that is cut off at any byte: what comes back is the store as it was after
some number of its operations, none that is in a table missing. A read must then be right
not only at live snapshots but wherever a crash may take the store, which the merges know
nothing of: `LsmCrashes.CrashRunsReadRight` says that in runs with crashes all this reads
right if and only if no merge revives a key at the oldest of these numbers, and
`LsmCrashes.UndoesAtBoundary` that files tell, as they do without crashes.

**nanopb.** `PbFormat` has descriptors, messages and the wire format as a function;
`PbEncode` the encoder over buffers and sizing streams; `PbMeaning` what decoding must
give; `PbIterator`, `PbStream` and `PbDecode` the decoder; `PbRoundTrip` both together.
The pod is built with 32-bit field sizes and with heap allocation
(PB_FIELD_32BIT, PB_ENABLE_MALLOC), and so is the model; its fields are static. A round
trip needs tags below 2^29, distinct within a message, strings with their terminator
inside their array, a `which_` field that names a member of its union or none, and an
encoding of less than 4 GiB.

Conventions. Objects that the code updates in place are classes; the files on disk, the
tables in them and everything that is only compared or searched are values. The steps of
the machines are what a thread does under one hold of the mutex. Small lemmas with an
empty body restate a definition for proofs that hide it.

## Model

| member | source | states |
|---|---|---|
| LsmRuns.RunsReadRight | ProductivityApp/Pods/leveldb-library/db/db_impl.cc:688-767 | Over every run of writes, memtable switches, flushes, trivial moves, merges, snapshots and releases: every read at every live snapshot agrees with the flat history in every state if and only if no merge of the run resurrects a key |
| LsmRuns.SnapshotsAreStable | ProductivityApp/Pods/leveldb-library/db/db_impl.cc:1100-1145 | What a snapshot taken at one state of such a run shows at any later state where it is live is the map as it was when it was taken |
| LsmRuns.RunKeepsInv | ProductivityApp/Pods/leveldb-library/db/version_set.cc:784-884 | Every state of every run is layered: per user key newer entries in mem, then imm, level 0 by file number and down the levels; levels 1 and deeper sorted and disjoint; file numbers unique; nothing stored that was never written |
| LsmRuns.StepReads | ProductivityApp/Pods/leveldb-library/db/db_impl.cc:688-767 | One step keeps all live reads right exactly when it is not a merge that resurrects a key |
| LsmRuns.ReadsAreReplay | ProductivityApp/Pods/leveldb-library/db/db_impl.cc:1100-1145 | With right reads a live snapshot shows the map that replaying the operations before it gives |
| LsmReads.MergeReads | ProductivityApp/Pods/leveldb-library/db/db_impl.cc:905-1000 | A merge, with both drop rules and any choice of valid inputs, keeps all live reads right if and only if it resurrects no key: no tombstone it drops hides a value left behind in the output level |
| LsmReads.ResurrectionNeedsBoundary | ProductivityApp/Pods/leveldb-library/db/version_set.cc:1403-1462 | A key can only come back when the lower inputs miss a file that AddBoundaryInputs would have added |
| LsmReads.ClosedLowerInputsAreSafe | ProductivityApp/Pods/leveldb-library/db/version_set.cc:1378-1462 | If AddBoundaryInputs has nothing to add to the lower inputs, the merge resurrects nothing: a check the caller could make before merging |
| LsmReads.DroppedNewest | ProductivityApp/Pods/leveldb-library/db/db_impl.cc:946-960 | Of the entries the drop rules remove only an obsolete tombstone can be the newest a live snapshot sees |
| BoundaryReads.ResurrectsAtBoundary | ProductivityApp/Pods/leveldb-library/db/version_set.cc:1344-1401 | A merge revives a key exactly when the newest visible entry of the last user key of its lower inputs is an obsolete tombstone among them and the first boundary file they lack starts with a value |
| BoundaryReads.RunsReadRightAtBoundaries | ProductivityApp/Pods/leveldb-library/db/db_impl.cc:688-767 | Reads are right in every state of a run if and only if no merge of it meets that condition on its file boundaries |
| Resurrection.ItIsARun | ProductivityApp/Pods/leveldb-library/db/version_set.cc:1403-1462 | A concrete sequence of fourteen steps is a run of the store |
| Resurrection.TheCodeTakesIt | ProductivityApp/Pods/leveldb-library/db/db_impl.cc:697-743 | Each of its steps is one the code takes with its default sizes: flushes at the level picked, merges asked for by CompactRange and of more than one file, outputs cut where the size limit is reached |
| Resurrection.Cut1 | ProductivityApp/Pods/leveldb-library/db/db_impl.cc:981-998 | The output that ends with the tombstone reaches the maximum file size with it and no sooner |
| Resurrection.DeletedKeyReturns | ProductivityApp/Pods/leveldb-library/db/version_set.cc:1407-1411 | At the end of that run, all of whose steps the code can take, a deleted key reads as present, because only the upper inputs get boundary files |
| LsmInvariants.WriteKeepsInv | ProductivityApp/Pods/leveldb-library/db/db_impl.cc:1185-1256 | A write keeps the invariants and stores exactly the new entries |
| LsmInvariants.FlushKeepsInv | ProductivityApp/Pods/leveldb-library/db/db_impl.cc:491-533 | A flush at the level picked for it keeps the invariants and the stored entries |
| LsmInvariants.MoveKeepsInv | ProductivityApp/Pods/leveldb-library/db/db_impl.cc:718-733 | A trivial move keeps the invariants and the stored entries |
| LsmInvariants.MergeKeepsInv | ProductivityApp/Pods/leveldb-library/db/db_impl.cc:860-876 | Installing a merge keeps the invariants |
| LsmInvariants.ExchangeKeepsLayers | ProductivityApp/Pods/leveldb-library/db/version_set.cc:1403-1462 | Exchanging valid inputs for tables made of their entries keeps every level sorted and disjoint and every key newest first |
| FlatHistory.ViewIsReplay | ProductivityApp/Pods/leveldb-library/db/dbformat.cc:51-67 | The newest entry with sequence at most s gives the same as replaying the first s operations into a map |
| InternalKeys.SeekFindsNewest | ProductivityApp/Pods/leveldb-library/db/memtable.cc:100-134 | The first entry at or after the lookup key (k, s), if its user key is k, is the newest of k at s; otherwise k has no entry visible at s |
| InternalKeys.InsertSortedOrdered | ProductivityApp/Pods/leveldb-library/db/memtable.cc:75-98 | Adding an entry with a fresh sequence number keeps the memtable in internal key order |
| DbImpl.DBImpl.constructor | ProductivityApp/Pods/leveldb-library/db/db_impl.cc:127-151 | A new store is in the initial state of the machine |
| DbImpl.DBImpl.Write | ProductivityApp/Pods/leveldb-library/db/db_impl.cc:1185-1256 | Applying a batch group is a Write step of the machine |
| DbImpl.DBImpl.SwitchMemTable | ProductivityApp/Pods/leveldb-library/db/db_impl.cc:1347-1366 | The last branch of MakeRoomForWrite is a SwitchMemTable step |
| DbImpl.DBImpl.CompactMemTable | ProductivityApp/Pods/leveldb-library/db/db_impl.cc:535-566 | Flushing imm is a Flush step at the level picked, or a DropEmptyMemTable step when there is nothing in it |
| DbImpl.DBImpl.WriteLevel0Table | ProductivityApp/Pods/leveldb-library/db/db_impl.cc:491-533 | Builds the table of imm, picks its level and adds it there under a fresh number, with the size of its file |
| DbImpl.PickLevelForMemTableOutput | ProductivityApp/Pods/leveldb-library/db/version_set.cc:491-516 | Level 0 if something overlaps there; else exactly as deep, to level 2 at most, as nothing at the next level overlaps and the files one deeper that do are within the limit |
| DbImpl.OverlapInLevel | ProductivityApp/Pods/leveldb-library/db/version_set.cc:485-489 | True exactly when some file of the level shares a user key range with the given one |
| DbImpl.DBImpl.Compact | ProductivityApp/Pods/leveldb-library/db/db_impl.cc:714-743 | The files picked are among the inputs of one step: a TrivialMove exactly when it is no manual compaction, one file with none below it and not too much one deeper; else a Merge with its outputs cut as the code cuts them |
| DbImpl.DBImpl.TrivialMove | ProductivityApp/Pods/leveldb-library/db/db_impl.cc:718-733 | Deleting and adding the same file one level down is a TrivialMove step |
| DbImpl.DBImpl.Merge | ProductivityApp/Pods/leveldb-library/db/db_impl.cc:734-743 | DoCompactionWork and InstallCompactionResults together are a Merge step, its outputs rightly cut |
| DbImpl.DBImpl.RunCompaction | ProductivityApp/Pods/leveldb-library/db/db_impl.cc:878-1046 | The outputs are the merged inputs without the dropped entries, in tables with fresh numbers, rightly cut |
| DbImpl.DBImpl.BackgroundCompaction | ProductivityApp/Pods/leveldb-library/db/db_impl.cc:688-767 | With an immutable memtable it flushes; otherwise it compacts the files picked at the given level, the one a seek names among them, with a trivial move where that is allowed |
| DbImpl.DBImpl.ManualCompaction | ProductivityApp/Pods/leveldb-library/db/db_impl.cc:697-711 | Done exactly when nothing at the level overlaps the range; otherwise one compaction, never a trivial move |
| DbImpl.DBImpl.GetSnapshot | ProductivityApp/Pods/leveldb-library/db/db_impl.cc:1166-1169 | Takes a snapshot at the last sequence |
| DbImpl.DBImpl.ReleaseSnapshot | ProductivityApp/Pods/leveldb-library/db/db_impl.cc:1171-1174 | Takes that snapshot, and no other, off the list |
| DbImpl.DBImpl.Get | ProductivityApp/Pods/leveldb-library/db/db_impl.cc:1100-1145 | The answer is the newest entry stored in mem, imm and files at the snapshot, and with right reads the one of the replayed history |
| DbImpl.DBImpl.Search | ProductivityApp/Pods/leveldb-library/db/db_impl.cc:1122-1136 | The search through mem, imm and the levels stops at the newest visible entry of the key |
| DbImpl.DBImpl.NewIterator | ProductivityApp/Pods/leveldb-library/db/db_impl.cc:1147-1157 | The iterator runs over exactly the stored entries |
| DbImpl.IteratorShowsReplay | ProductivityApp/Pods/leveldb-library/db/db_impl.cc:1147-1157 | With right reads such an iterator yields exactly the pairs of the replayed history |
| SnapshotList.SnapshotList.New | ProductivityApp/Pods/leveldb-library/db/snapshot.h:57-73 | Relinking the circle appends the snapshot as the newest; order and links hold |
| SnapshotList.SnapshotList.Delete | ProductivityApp/Pods/leveldb-library/db/snapshot.h:79-86 | Unlinking takes out that node only; its neighbours become neighbours |
| SnapshotList.SnapshotList.Oldest | ProductivityApp/Pods/leveldb-library/db/snapshot.h:47-50 | No live snapshot has a smaller sequence number |
| SnapshotList.SnapshotList.Newest | ProductivityApp/Pods/leveldb-library/db/snapshot.h:51-54 | No live snapshot has a larger sequence number |
| SnapshotList.SnapshotList.Empty | ProductivityApp/Pods/leveldb-library/db/snapshot.h:46 | The head points to itself exactly when nothing is listed |
| Versions.FindFile | ProductivityApp/Pods/leveldb-library/db/version_set.cc:88-106 | Binary search: the first file whose largest key is at or after the key |
| Versions.SomeFileOverlapsRange | ProductivityApp/Pods/leveldb-library/db/version_set.cc:122-156 | True exactly when some file overlaps, by binary search or by looking at all of them |
| Versions.SearchRun | ProductivityApp/Pods/leveldb-library/db/memtable.cc:100-134 | One seek in a sorted run answers a lookup: found, deleted or not there |
| Versions.GetFromLevel0 | ProductivityApp/Pods/leveldb-library/db/version_set.cc:355-373 | Searching the overlapping level-0 files newest first gives the level's newest visible entry |
| Versions.GetFromLevel | ProductivityApp/Pods/leveldb-library/db/version_set.cc:374-393 | In a sorted level the one file FindFile gives decides |
| Versions.GetFromVersion | ProductivityApp/Pods/leveldb-library/db/version_set.cc:326-421 | The first level with a hit or a deletion decides for all levels |
| CompactionInputs.GetOverlappingInputs | ProductivityApp/Pods/leveldb-library/db/version_set.cc:519-559 | At level 0 the restarts end at the least range closed under overlap; deeper, exactly the overlapping files |
| CompactionInputs.OverlapMembers | ProductivityApp/Pods/leveldb-library/db/version_set.cc:519-559 | Membership of the overlap result, both ways |
| CompactionInputs.GetRange | ProductivityApp/Pods/leveldb-library/db/version_set.cc:1205-1227 | The loop finds the smallest and the largest key |
| CompactionInputs.FindSmallestBoundaryFile | ProductivityApp/Pods/leveldb-library/db/version_set.cc:1344-1360 | None exactly when there is no boundary file; else the one with the smallest key |
| CompactionInputs.AddBoundaryInputs | ProductivityApp/Pods/leveldb-library/db/version_set.cc:1378-1401 | Stops, adds a chain of boundary files behind the inputs, and leaves none to add |
| CompactionInputs.ChainHasNoDuplicates | ProductivityApp/Pods/leveldb-library/db/version_set.cc:1378-1401 | No file is added twice |
| SetupInputs.LeftBehind | ProductivityApp/Pods/leveldb-library/db/version_set.cc:1378-1401 | A file left to the right of a closed slice holds no older entry of a user key inside it |
| SetupInputs.UpperClosure | ProductivityApp/Pods/leveldb-library/db/version_set.cc:1407-1408 | Inputs with their boundary files leave behind only newer entries of their keys at the level |
| SetupInputs.ExpandUpper | ProductivityApp/Pods/leveldb-library/db/version_set.cc:1421-1446 | Growing the upper inputs over the whole range keeps them closed and contains the old ones |
| SetupInputs.SetupOtherInputs | ProductivityApp/Pods/leveldb-library/db/version_set.cc:1403-1462 | The chosen inputs are valid: upper closed, lower exactly the overlapping files also after expansion, grandparents those of the whole range |
| SetupInputs.PickCompaction | ProductivityApp/Pods/leveldb-library/db/version_set.cc:1270-1322 | It starts with the file a seek names, else with the first past the compaction pointer or, if there is none, the first of all; at level 0 with all that it transitively overlaps; SetupOtherInputs accepts it |
| SetupInputs.CompactRange | ProductivityApp/Pods/leveldb-library/db/version_set.cc:1464-1495 | Nothing exactly when nothing overlaps the range; below level 0 the shortest prefix of the overlapping files that reaches the limit, at level 0 the least closed set; SetupOtherInputs accepts it |
| SetupInputs.CutToLimit | ProductivityApp/Pods/leveldb-library/db/version_set.cc:1476-1489 | The shortest prefix whose size reaches the limit |
| CompactionLoop.Compaction.IsBaseLevelForKey | ProductivityApp/Pods/leveldb-library/db/version_set.cc:1533-1552 | The cursors that only move forward say the same as asking every deeper level anew |
| CompactionLoop.Compaction.ShouldStopBefore | ProductivityApp/Pods/leveldb-library/db/version_set.cc:1554-1576 | Stops exactly when the grandparents passed since the last output exceed the limit |
| CompactionLoop.CompactionState.ShouldDrop | ProductivityApp/Pods/leveldb-library/db/db_impl.cc:930-963 | The running variables decide as the stateless drop rules do |
| CompactionLoop.CompactionState.DoCompactionWork | ProductivityApp/Pods/leveldb-library/db/db_impl.cc:878-1046 | The output tables, end to end, are the merged input without the dropped entries; each was below the size limit until its last entry, and all but the last have reached it unless ShouldStopBefore may stop |
| CompactionLoop.CompactionState.CloseOutputFile | ProductivityApp/Pods/leveldb-library/db/db_impl.cc:812-858 | Where the rule allows it the open output becomes a numbered table; what is written stays the same |
| CompactionLoop.KeptMembers | ProductivityApp/Pods/leveldb-library/db/db_impl.cc:946-960 | Exactly the entries no rule drops are kept |
| CompactionLoop.KeptSorted | ProductivityApp/Pods/leveldb-library/db/db_impl.cc:878-1046 | What is kept stays in order |
| CompactionChildren.InputIsMergeable | ProductivityApp/Pods/leveldb-library/db/version_set.cc:1237-1268 | The children of the input iterator are sorted and share no key |
| CompactionChildren.InputIsMerged | ProductivityApp/Pods/leveldb-library/db/version_set.cc:1237-1268 | Merging them gives each entry of both input levels, in order |
| CompactionChildren.InternalIteratorIsStored | ProductivityApp/Pods/leveldb-library/db/db_impl.cc:1062-1087 | Merging mem, imm, level-0 files and levels gives exactly the stored entries, in order |
| VersionBuilder.Builder.Apply | ProductivityApp/Pods/leveldb-library/db/version_set.cc:650-692 | What an edit does to the state of every level: deletions first, then each addition is inserted by smallest key, once, and is no longer deleted |
| VersionBuilder.Builder.SaveTo | ProductivityApp/Pods/leveldb-library/db/version_set.cc:695-739 | Each level, whatever is in it: base files and added files that are not deleted, woven by smallest key |
| VersionBuilder.SaveLevel | ProductivityApp/Pods/leveldb-library/db/version_set.cc:703-731 | The merge loop of one level gives that sequence, also when base and added files share numbers or keys |
| VersionBuilder.SavedInOrder | ProductivityApp/Pods/leveldb-library/db/version_set.cc:715-739 | It is in strict order exactly when no surviving base file is equivalent to a surviving added one |
| EditReplay.Recover | ProductivityApp/Pods/leveldb-library/db/version_set.cc:924-969 | The loop over the manifest saves, on every level, what one builder gathers from all edits |
| EditReplay.OneBuilderForAll | ProductivityApp/Pods/leveldb-library/db/version_set.cc:924-969 | One builder for all edits gives the files that a version per edit gives if and only if, of each number that is deleted and later added for good, no file is in the base and every file gathered before is added again |
| EditReplay.ReaddingDiffers | ProductivityApp/Pods/leveldb-library/db/version_set.cc:670-692 | They can differ: a base file whose number is deleted and added again |
| EditReplay.NeverReaddedReplays | ProductivityApp/Pods/leveldb-library/db/version_set.cc:670-692 | They cannot if no edit adds a file number to a level that has had it |
| ManifestReplay.StepIsEdit | ProductivityApp/Pods/leveldb-library/db/version_set.cc:784-884 | Every step of the store changes the files of every level as the edit that LogAndApply writes for it says |
| ManifestReplay.RunStaysDown | ProductivityApp/Pods/leveldb-library/db/version_set.cc:784-884 | No run or stretch of one ever adds a file number to a level that has had it: files get new numbers or move down |
| ManifestReplay.RecoveryRebuilds | ProductivityApp/Pods/leveldb-library/db/version_set.cc:886-1011 | For every run, and every stretch of one from a sound state on, reading back the manifest begun at any state gives, at any later state, exactly its files on every level |
| LevelEdits.ApplyEdit | ProductivityApp/Pods/leveldb-library/db/version_set.cc:801-818 | LogAndApply through the builder: each level is what its part of the edit saves |
| LevelEdits.SavedIsOneEdit | ProductivityApp/Pods/leveldb-library/db/version_set.cc:801-818 | One edit with new numbers through a builder: base minus deleted plus added, in order |
| LevelEdits.CompactionExchanges | ProductivityApp/Pods/leveldb-library/db/db_impl.cc:860-876 | The edit of a compaction exchanges inputs for outputs at two levels and touches no other |
| LevelEdits.FlushReplaces | ProductivityApp/Pods/leveldb-library/db/db_impl.cc:526-530 | The edit of a flush adds one file at one level and touches no other |
| MergedRuns.MergeAllMembers | ProductivityApp/Pods/leveldb-library/table/merger.cc:16-146 | The merged sequence holds exactly the children's entries |
| MergedRuns.MergeAllSorted | ProductivityApp/Pods/leveldb-library/table/merger.cc:16-146 | It is in strict order when the children are and share no key |
| MergedRuns.SortedRunsEqual | ProductivityApp/Pods/leveldb-library/table/merger.cc:16-146 | A sorted run is determined by its entries |
| Merger.MergingIterator.SeekToFirst | ProductivityApp/Pods/leveldb-library/table/merger.cc:31-37 | The cursor is on the first merged entry |
| Merger.MergingIterator.SeekToLast | ProductivityApp/Pods/leveldb-library/table/merger.cc:39-45 | The cursor is on the last merged entry |
| Merger.MergingIterator.Seek | ProductivityApp/Pods/leveldb-library/table/merger.cc:47-53 | The cursor is on the first merged entry at or after the target |
| Merger.MergingIterator.Next | ProductivityApp/Pods/leveldb-library/table/merger.cc:55-79 | One forward in the merged sequence, also right after a reverse move |
| Merger.MergingIterator.Prev | ProductivityApp/Pods/leveldb-library/table/merger.cc:81-108 | One back in the merged sequence, also right after a forward move |
| Merger.MergingIterator.FindSmallest | ProductivityApp/Pods/leveldb-library/table/merger.cc:148-161 | The valid child with the smallest key, or none |
| Merger.MergingIterator.FindLargest | ProductivityApp/Pods/leveldb-library/table/merger.cc:163-176 | The valid child with the largest key, or none |
| DbIter.DBIter.Next | ProductivityApp/Pods/leveldb-library/db/db_iter.cc:141-166 | On the next entry the snapshot shows, none skipped, also after a reverse move |
| DbIter.DBIter.Prev | ProductivityApp/Pods/leveldb-library/db/db_iter.cc:200-225 | On the previous entry the snapshot shows, none skipped, also after a forward move |
| DbIter.DBIter.FindNextUserEntry | ProductivityApp/Pods/leveldb-library/db/db_iter.cc:168-198 | Skips invisible and hidden entries and tombstoned keys only |
| DbIter.DBIter.FindPrevUserEntry | ProductivityApp/Pods/leveldb-library/db/db_iter.cc:227-267 | The backward scan ends with the newest visible value of a key, none skipped |
| DbIter.DBIter.Seek | ProductivityApp/Pods/leveldb-library/db/db_iter.cc:269-281 | On the first shown entry at or after the target |
| DbIter.DBIter.SeekToFirst | ProductivityApp/Pods/leveldb-library/db/db_iter.cc:283-292 | On the first shown entry |
| DbIter.DBIter.SeekToLast | ProductivityApp/Pods/leveldb-library/db/db_iter.cc:294-299 | On the last shown entry |
| DbIter.DBIter.Key | ProductivityApp/Pods/leveldb-library/db/db_iter.cc:64-67 | The key of the entry the cursor is on |
| DbIter.DBIter.CurrentValue | ProductivityApp/Pods/leveldb-library/db/db_iter.cc:68-71 | Its value, in either direction |
| DbIter.ShownIsView | ProductivityApp/Pods/leveldb-library/db/db_iter.cc:168-198 | A shown entry is what a lookup at the snapshot gives |
| DbIter.ViewIsShown | ProductivityApp/Pods/leveldb-library/db/db_iter.cc:168-198 | Every key a lookup finds is shown |
| DbIter.NeighbouringKeys | ProductivityApp/Pods/leveldb-library/db/db_iter.cc:141-267 | Between neighbouring shown entries the snapshot holds no key |
| DbIter.NothingFrom | ProductivityApp/Pods/leveldb-library/db/db_iter.cc:269-281 | Between the target and the entry Seek stops at the snapshot holds no key |
| DbIter.OutermostKeys | ProductivityApp/Pods/leveldb-library/db/db_iter.cc:283-299 | Outside the first and the last shown entry it holds none either |
| TwoLevelIterator.Iterator.Seek | ProductivityApp/Pods/leveldb-library/table/two_level_iterator.cc:82-87 | The first entry at or after the target of all blocks put together, if index keys bound the blocks |
| TwoLevelIterator.Iterator.Next | ProductivityApp/Pods/leveldb-library/table/two_level_iterator.cc:103-107 | One forward in the concatenation, over empty blocks |
| TwoLevelIterator.Iterator.Prev | ProductivityApp/Pods/leveldb-library/table/two_level_iterator.cc:109-113 | One back in the concatenation, over empty blocks |
| TwoLevelIterator.Iterator.SeekToFirst | ProductivityApp/Pods/leveldb-library/table/two_level_iterator.cc:89-94 | The first entry of the concatenation |
| TwoLevelIterator.Iterator.SeekToLast | ProductivityApp/Pods/leveldb-library/table/two_level_iterator.cc:96-101 | The last entry of the concatenation |
| TwoLevelIterator.SoughtRight | ProductivityApp/Pods/leveldb-library/table/two_level_iterator.cc:82-87 | Seeking in the index and then in the block finds the place in the concatenation |
| SkipList.PublishKeepsOk | ProductivityApp/Pods/leveldb-library/db/skiplist.h:360-367 | After each single link store every level is sorted and a sub-list of the one below |
| SkipList.WriterStepKeepsOk | ProductivityApp/Pods/leveldb-library/db/skiplist.h:337-368 | So after every step of Insert, in any state of it; links only grow |
| SkipList.WalkIsSorted | ProductivityApp/Pods/leveldb-library/db/skiplist.h:262-282 | Following the links of a level visits exactly its later nodes, in order |
| SkipList.ReaderStepOk | ProductivityApp/Pods/leveldb-library/db/skiplist.h:262-282 | One step of FindGreaterOrEqual in unchanged memory; a returned node is the first at or after the key |
| SkipList.ReaderNeverMisses | ProductivityApp/Pods/leveldb-library/db/skiplist.h:262-302 | A search interleaved with any inserts returns a node at or after the key and skips no key that was there when it began |
| SkipList.List.FindGreaterOrEqual | ProductivityApp/Pods/leveldb-library/db/skiplist.h:262-282 | First node at or after the key; prev holds the last node before it on every level |
| SkipList.List.FindLessThan | ProductivityApp/Pods/leveldb-library/db/skiplist.h:285-302 | Last node before the key |
| SkipList.List.FindLast | ProductivityApp/Pods/leveldb-library/db/skiplist.h:305-322 | Last node of the list |
| SkipList.List.Insert | ProductivityApp/Pods/leveldb-library/db/skiplist.h:337-368 | Adds the key and keeps all levels linked |
| SkipList.List.Contains | ProductivityApp/Pods/leveldb-library/db/skiplist.h:371-378 | True exactly for the keys in the list |
| LogFormat.UnmaskUndoesMask | ProductivityApp/Pods/leveldb-library/util/crc32c.h:29-38 | Unmask undoes Mask |
| LogFormat.EndIsLength | ProductivityApp/Pods/leveldb-library/db/log_writer.cc:27-30 | The block offset a writer keeps is the length of the file in its block |
| LogFormat.LogBytesSum | ProductivityApp/Pods/leveldb-library/db/log_writer.cc:34-80 | Writing two lists of records is writing one after the other |
| LogFormat.ReopenContinues | ProductivityApp/Pods/leveldb-library/db/log_writer.cc:27-30 | A writer reopened at the file length modulo the block size writes what the first would have |
| LogWriter.Writer.AddRecord | ProductivityApp/Pods/leveldb-library/db/log_writer.cc:34-80 | The loop writes trailer and fragments of the record where the block offset says |
| LogWriter.Writer.EmitPhysicalRecord | ProductivityApp/Pods/leveldb-library/db/log_writer.cc:82-108 | Header with masked checksum, length and type, and the data |
| LogWriter.AddRecords | ProductivityApp/Pods/leveldb-library/db/log_writer.cc:34-80 | A list of records becomes its log bytes |
| LogReader.Reader.ReadPhysicalRecord | ProductivityApp/Pods/leveldb-library/db/log_reader.cc:189-271 | On any prefix of a log the next fragment, or the end where it is cut off, and no report |
| LogReader.Reader.ReadRecord | ProductivityApp/Pods/leveldb-library/db/log_reader.cc:56-173 | On any prefix of a log the next record if it lies wholly inside, else none, and no report |
| LogReader.NextRecord | ProductivityApp/Pods/leveldb-library/db/log_reader.cc:56-173 | Reading on, one record at a time: the next of the log, or the end exactly where it is cut off |
| LogReader.ReadLog | ProductivityApp/Pods/leveldb-library/db/log_reader.cc:56-173 | From any byte prefix of a written log exactly the records wholly inside it come back, without a corruption report; from all of it all records |
| BlockBuilder.Builder.Add | ProductivityApp/Pods/leveldb-library/table/block_builder.cc:72-106 | Prefix compression and restart points: the block now holds one pair more |
| BlockBuilder.Builder.Reset | ProductivityApp/Pods/leveldb-library/table/block_builder.cc:47-54 | An empty block with one restart point |
| BlockBuilder.Builder.Finish | ProductivityApp/Pods/leveldb-library/table/block_builder.cc:62-70 | The finished block decodes to the added pairs and ends with its restart points, unless it reaches 4 GiB |
| BlockReader.Open | ProductivityApp/Pods/leveldb-library/table/block.cc:24-39 | Finds the restart points of a finished block |
| BlockReader.DecodeEntry | ProductivityApp/Pods/leveldb-library/table/block.cc:54-77 | Stays inside the block on any bytes, and reads an entry back, on the fast path too |
| BlockReader.Iter.ParseNextKey | ProductivityApp/Pods/leveldb-library/table/block.cc:224-252 | Rebuilds the next key from the shared prefix, or ends at the restart array |
| BlockReader.Iter.Next | ProductivityApp/Pods/leveldb-library/table/block.cc:137-140 | From pair i to pair i + 1 |
| BlockReader.Iter.Prev | ProductivityApp/Pods/leveldb-library/table/block.cc:142-161 | From pair i to pair i - 1 through a restart point: the inverse of Next |
| BlockReader.Iter.Seek | ProductivityApp/Pods/leveldb-library/table/block.cc:163-201 | Binary search over restart points and a scan: the first pair not before the target |
| BlockReader.Iter.SeekToFirst | ProductivityApp/Pods/leveldb-library/table/block.cc:203-206 | On the first pair |
| BlockReader.Iter.SeekToLast | ProductivityApp/Pods/leveldb-library/table/block.cc:208-213 | On the last pair |
| BlockReader.ReadAll | ProductivityApp/Pods/leveldb-library/table/block.cc:137-140 | Iterating yields exactly the pairs of the block |
| BlockReader.RoundTrip | ProductivityApp/Pods/leveldb-library/table/block_builder.cc:62-106 | Building and reading give back the added pairs for every restart interval of at least 1 |
| Coding.EncodeVarint32Is | ProductivityApp/Pods/leveldb-library/util/coding.cc:47-73 | The five branches write the varint of the value |
| Coding.EncodeVarint64 | ProductivityApp/Pods/leveldb-library/util/coding.cc:81-90 | So does the loop |
| Coding.GetVarint32Ptr | ProductivityApp/Pods/leveldb-library/util/coding.cc:112-128 | Stays inside the limit on any bytes, and reads back any 32-bit varint |
| Coding.GetVarint64Ptr | ProductivityApp/Pods/leveldb-library/util/coding.cc:142-157 | The same for 64 bits |
| Coding.Fixed32RoundTrip | ProductivityApp/Pods/leveldb-library/util/coding.cc:9-18 | Four little-endian bytes come back as the value |
| HandleTable.HandleTable.FindPointer | ProductivityApp/Pods/leveldb-library/util/cache.cc:114-120 | The slot with the key in its masked bucket, or the end of the chain |
| HandleTable.HandleTable.Lookup | ProductivityApp/Pods/leveldb-library/util/cache.cc:74-76 | Lookup in the map the table stands for |
| HandleTable.HandleTable.Insert | ProductivityApp/Pods/leveldb-library/util/cache.cc:78-92 | Update of that map; gives back what it replaced |
| HandleTable.HandleTable.Remove | ProductivityApp/Pods/leveldb-library/util/cache.cc:94-104 | Removal from that map; gives back what was there |
| HandleTable.HandleTable.Resize | ProductivityApp/Pods/leveldb-library/util/cache.cc:122-147 | Power-of-two length of at least the number of entries; every entry once, in its masked bucket; same map |
| HandleTable.HandleTable.MoveChain | ProductivityApp/Pods/leveldb-library/util/cache.cc:131-141 | Rehashing one chain moves each of its entries |
| LruCache.RefKeepsOk | ProductivityApp/Pods/leveldb-library/util/cache.cc:217-223 | Ref keeps counts, lists, usage and table in step |
| LruCache.ReleaseKeepsOk | ProductivityApp/Pods/leveldb-library/util/cache.cc:225-237 | So does Unref by a client, which finds a live handle |
| LruCache.EraseKeepsOk | ProductivityApp/Pods/leveldb-library/util/cache.cc:307-316 | So does FinishErase |
| LruCache.HeldIsNotListed | ProductivityApp/Pods/leveldb-library/util/cache.cc:225-237 | A handle a client holds is alive and not on the LRU list |
| LruCache.LRUCache.Lookup | ProductivityApp/Pods/leveldb-library/util/cache.cc:252-259 | Hit exactly if cached; the client gains one reference |
| LruCache.LRUCache.ReleaseHandle | ProductivityApp/Pods/leveldb-library/util/cache.cc:261-264 | The client loses one reference; the block is freed exactly at the last |
| LruCache.LRUCache.Insert | ProductivityApp/Pods/leveldb-library/util/cache.cc:266-303 | The new entry is cached; the oldest unreferenced entries go, no more than needed; usage is within capacity or the LRU list is empty; what clients hold stays |
| LruCache.LRUCache.EvictToCapacity | ProductivityApp/Pods/leveldb-library/util/cache.cc:291-300 | The eviction loop |
| LruCache.LRUCache.EvictOldest | ProductivityApp/Pods/leveldb-library/util/cache.cc:292-299 | One turn of it |
| LruCache.LRUCache.Erase | ProductivityApp/Pods/leveldb-library/util/cache.cc:318-321 | The key is gone from the table; held handles stay |
| LruCache.LRUCache.Prune | ProductivityApp/Pods/leveldb-library/util/cache.cc:323-333 | Every unreferenced entry goes, and no other |
| WriteBatch.Batch.Put | ProductivityApp/Pods/leveldb-library/db/write_batch.cc:98-103 | The batch encodes one operation more |
| WriteBatch.Batch.Delete | ProductivityApp/Pods/leveldb-library/db/write_batch.cc:105-109 | The batch encodes one deletion more |
| WriteBatch.Batch.Append | ProductivityApp/Pods/leveldb-library/db/write_batch.cc:144-148 | The batch encodes its operations and then the other's |
| WriteBatch.Batch.SetSequence | ProductivityApp/Pods/leveldb-library/db/write_batch.cc:94-96 | Only the sequence number changes |
| WriteBatch.Iterate | ProductivityApp/Pods/leveldb-library/db/write_batch.cc:42-80 | Ok only if as many operations as the header counts were handled; an encoded batch gives back its operations |
| WriteBatch.GetLengthPrefixedSlice | ProductivityApp/Pods/leveldb-library/util/coding.cc:181-192 | Reads a length-prefixed slice back and stays inside |
| WriteQueue.BuildBatchGroup | ProductivityApp/Pods/leveldb-library/db/db_impl.cc:1260-1306 | The group is the longest prefix the sync and size rules allow; its batch is theirs in order |
| WriteQueue.StepKeepsOk | ProductivityApp/Pods/leveldb-library/db/db_impl.cc:1185-1256 | Every step of the writer queue keeps its invariant |
| WriteQueue.RunKeepsOk | ProductivityApp/Pods/leveldb-library/db/db_impl.cc:1185-1256 | It holds in every state of every interleaving |
| WriteQueue.SnapshotsAreWholeGroups | ProductivityApp/Pods/leveldb-library/db/db_impl.cc:1217-1239 | The last sequence shows exactly the operations of the writers that are done: never part of a group |
| WriteQueue.SnapshotsStay | ProductivityApp/Pods/leveldb-library/db/db_impl.cc:1217-1239 | What it showed once it shows forever |
| WriteQueue.CommittedOnceInOrder | ProductivityApp/Pods/leveldb-library/db/db_impl.cc:1185-1256 | In every reachable state each writer that is done, or whose group is logged and has not left, was committed once, in queue order, with contiguous sequence numbers; a sync writer's batch is in a synced record |
| Comparators.FindShortestSeparator | ProductivityApp/Pods/leveldb-library/util/comparator.cc:29-50 | Unchanged, or no longer and strictly between; shortened exactly when the code can |
| Comparators.FindShortSuccessor | ProductivityApp/Pods/leveldb-library/util/comparator.cc:52-64 | Unchanged exactly for keys of 0xff bytes, else no longer and greater |
| Comparators.FindInternalSeparator | ProductivityApp/Pods/leveldb-library/db/dbformat.cc:69-86 | The last key itself, or a shorter user key strictly between with the largest number |
| Comparators.FindInternalSuccessor | ProductivityApp/Pods/leveldb-library/db/dbformat.cc:88-101 | The key itself, or a shorter greater user key |
| Comparators.SeparatorBetween | ProductivityApp/Pods/leveldb-library/db/dbformat.cc:69-86 | A separator is at or after the last key of its block and before the first of the next |
| Comparators.KeyTotal | ProductivityApp/Pods/leveldb-library/db/dbformat.cc:51-67 | Internal keys are totally ordered |
| Bloom.CreateFilter | ProductivityApp/Pods/leveldb-library/util/bloom.cc:28-54 | Every key put in matches; size and probe count as stored |
| Bloom.KeyMayMatch | ProductivityApp/Pods/leveldb-library/util/bloom.cc:56-80 | True exactly when all probed bits are set or the filter says to match all |
| FilterBlock.FilterBlockBuilder.StartBlock | ProductivityApp/Pods/leveldb-library/table/filter_block.cc:21-27 | Closes filters up to the block's 2 KiB range |
| FilterBlock.FilterBlockBuilder.GenerateFilter | ProductivityApp/Pods/leveldb-library/table/filter_block.cc:51-75 | One filter for the keys collected, within the bytes allowed per key |
| FilterBlock.FilterFits | ProductivityApp/Pods/leveldb-library/util/bloom.cc:28-40 | A filter of n keys takes at most n times an eighth of the bits per key and ten bytes |
| FilterBlock.FilterBlockBuilder.Finish | ProductivityApp/Pods/leveldb-library/table/filter_block.cc:35-49 | The block holds all filters and their offsets |
| FilterBlock.FilterBlockReader.KeyMayMatch | ProductivityApp/Pods/leveldb-library/table/filter_block.cc:90-104 | No false negatives for keys of the block's range; on any contents the filter answers where it lies before the offsets, and a filter that is not there or misplaced matches unless its two offsets are equal |
| Table.GetIsRight | ProductivityApp/Pods/leveldb-library/table/table.cc:216-244 | Index, block and filter lookup agree with a linear search |
| Table.FoundIsFirst | ProductivityApp/Pods/leveldb-library/table/table.cc:228-240 | No later block holds an earlier entry |
| Table.MissAfter | ProductivityApp/Pods/leveldb-library/table/table.cc:228-240 | If the block has nothing at or after the key, later blocks have nothing of its user key |
| TableBuilder.TableBuilder.Add | ProductivityApp/Pods/leveldb-library/table/table_builder.cc:94-123 | Delayed index entry, filter key and data: one entry more |
| TableBuilder.TableBuilder.Flush | ProductivityApp/Pods/leveldb-library/table/table_builder.cc:125-139 | The data block is written and its index entry pending |
| TableBuilder.TableBuilder.WriteBlock | ProductivityApp/Pods/leveldb-library/table/table_builder.cc:141-175 | The finished block goes to the end of the file, with type and checksum, and a new one is begun; its contents decode to the pairs that were in it |
| TableBuilder.TableBuilder.AddIndexEntry | ProductivityApp/Pods/leveldb-library/table/table_builder.cc:104-111 | The key chosen and the handle of the last block enter the index block |
| TableBuilder.TableBuilder.WriteFilter | ProductivityApp/Pods/leveldb-library/table/table_builder.cc:206-210 | The filter block goes to the end of the file; every key of a block is in the filter for its offset |
| TableBuilder.TableBuilder.WriteIndex | ProductivityApp/Pods/leveldb-library/table/table_builder.cc:230-239 | The index block names every data block, by keys that separate them |
| TableBuilder.TableBuilder.Finish | ProductivityApp/Pods/leveldb-library/table/table_builder.cc:198-253 | The file is a table file, from data blocks to footer, of exactly the added entries, with a sound index and sound filters, if no block reaches 4 GiB; a bound on the sizes of keys, values and filters ensures that |
| TableFormat.KeyRoundTrip | ProductivityApp/Pods/leveldb-library/db/dbformat.cc:20-23 | User key and number come back from the bytes of an internal key |
| TableFormat.DecodeHandle | ProductivityApp/Pods/leveldb-library/table/format.cc:23-29 | Stays inside on any bytes, and reads a block handle back |
| TableFormat.HandleIsShort | ProductivityApp/Pods/leveldb-library/table/format.h:27 | A handle takes twenty bytes at most, so two fit in the footer |
| TableFormat.DecodeFooter | ProductivityApp/Pods/leveldb-library/table/format.cc:42-62 | Reads back both handles; anything without the magic number is refused |
| TableFormat.ReadBlock | ProductivityApp/Pods/leveldb-library/table/format.cc:64-139 | Stays inside the file for any handle, and gives a written block back, its checksum verified or not |
| TableFormat.WholeFile | ProductivityApp/Pods/leveldb-library/table/table_builder.cc:198-253 | Filter, metaindex, index and footer behind the data blocks make a table file |
| TableReader.Open | ProductivityApp/Pods/leveldb-library/table/table.cc:38-82 | A table file that was written opens, with its index block, and with its filter exactly when there is a policy |
| TableReader.ReadMeta | ProductivityApp/Pods/leveldb-library/table/table.cc:84-111 | Finds the filter by its name in the metaindex, exactly when the table has one |
| TableReader.IndexPairsAscend | ProductivityApp/Pods/leveldb-library/table/table_builder.cc:104-111 | The keys of the index block ascend, so that it can be searched |
| TableReader.SeekInBlock | ProductivityApp/Pods/leveldb-library/table/block.cc:163-201 | On any contents it ends; on a finished block in order it finds the first pair not before the target |
| TableReader.OpenTable.GetFrom | ProductivityApp/Pods/leveldb-library/table/table.cc:155-240 | The block an index entry names is read and searched, unless the filter turns the key away, and then it holds nothing of its user key |
| TableReader.OpenTable.InternalGet | ProductivityApp/Pods/leveldb-library/table/table.cc:216-244 | From the bytes of a table file: the first entry at or after the key, or none only if no such entry has its user key; the status is ok |
| TableReader.BuildAndGet | ProductivityApp/Pods/leveldb-library/table/table_builder.cc:94-253 | Building any ascending run into the bytes of a table file, opening it and looking up any key agrees with a linear search of the run, for every block size, restart interval and filter, if no block reaches 4 GiB |
| ObsoleteFiles.NothingNeededIsDeleted | ProductivityApp/Pods/leveldb-library/db/db_impl.cc:223-278 | In every reachable state each table of a version in use and each output of a compaction exists with its entries, and the tables of the current version together with the logs kept hold exactly the stored entries |
| ObsoleteFiles.RecoveryReadsRight | ProductivityApp/Pods/leveldb-library/db/db_impl.cc:281-384 | So while live reads are right, what recovery would find reads at each of them as the replayed operations |
| ObsoleteFiles.OnlyCompactionsDrop | ProductivityApp/Pods/leveldb-library/db/db_impl.cc:535-566 | Of all steps only installing a merge takes entries out of the store; a write adds exactly its own |
| ObsoleteFiles.StepKeepsTables | ProductivityApp/Pods/leveldb-library/db/version_set.cc:1167-1177 | Every step keeps the tables that are live or pending, with what they hold |
| ObsoleteFiles.StepKeepsLogs | ProductivityApp/Pods/leveldb-library/db/db_impl.cc:535-566 | Every step keeps the logs that the manifest asks for: they hold exactly the entries of the memtables |
| ObsoleteFiles.DeleteKeepsLogs | ProductivityApp/Pods/leveldb-library/db/db_impl.cc:238-246 | Deleting older logs loses no entry that would be replayed |
| ObsoleteFiles.DeletingInTheWindowLosesATable | ProductivityApp/Pods/leveldb-library/db/db_impl.cc:511-533 | Deleting between building a table and installing it would lose it: that one thread does both is needed |
| LsmCrashes.CrashRunsReadRight | ProductivityApp/Pods/leveldb-library/db/db_impl.cc:280-369 | With crashes anywhere in a run: every live snapshot, and every place a crash may take the store back to, reads as the operations that are left, in every state, if and only if no merge of the run revives a key there |
| LsmCrashes.CrashRunKeepsOk | ProductivityApp/Pods/leveldb-library/db/db_impl.cc:280-369 | In every state of such a run the store is layered, its tables and logs together hold its history, and each memtable what its log holds |
| LsmCrashes.EventGuards | ProductivityApp/Pods/leveldb-library/db/db_impl.cc:905-960 | One step, or a crash, keeps all that may have to be read right exactly when it is not a merge that revives a key there |
| LsmCrashes.CrashStored | ProductivityApp/Pods/leveldb-library/db/db_impl.cc:280-369 | What is stored after a crash is what was stored up to the last operation left |
| LsmCrashes.UndoesAtBoundary | ProductivityApp/Pods/leveldb-library/db/version_set.cc:1344-1401 | Whether a merge does so can be read off the first boundary file of its lower inputs, as without crashes, and never if they are closed |
| CrashRecovery.Open | ProductivityApp/Pods/leveldb-library/db/db_impl.cc:280-369 | Opening after a crash that cuts the last log off at any byte: the manifest and all records up to the cut make a store of a prefix of the history, which holds exactly what was stored up to there; it loses nothing that is in a table, and if all that a crash might have brought back read right, it reads right |
| CrashRecovery.Recovery.RecoverLogFile | ProductivityApp/Pods/leveldb-library/db/db_impl.cc:371-489 | From any byte prefix of a log exactly the batches of the records wholly inside it are applied, in order, under the numbers they had |
| CrashRecovery.Recovery.InsertInto | ProductivityApp/Pods/leveldb-library/db/write_batch.cc:117-137 | A batch enters the memtable under its numbers |
| CrashRecovery.Recovery.WriteLevel0Table | ProductivityApp/Pods/leveldb-library/db/db_impl.cc:491-533 | A memtable that is replayed becomes a table of level 0; nothing stored changes |
| CrashRecovery.SurvivingRecordsAreKept | ProductivityApp/Pods/leveldb-library/db/log_reader.cc:56-173 | A record that lies wholly in the part of the log that survives, a synced one for instance, is among those replayed |
| CrashRecovery.TablesApplied | ProductivityApp/Pods/leveldb-library/db/version_set.cc:695-739 | The edit with the recovered tables, saved over the version of the manifest, gives the levels of the recovered store |
| CrashRecovery.OpenedReads | ProductivityApp/Pods/leveldb-library/db/db_impl.cc:1100-1145 | What the opened store shows is what replaying the operations left gives, though its last sequence number may be larger than their number |
| PbRoundTrip.RoundTrip | ProductivityApp/Pods/nanopb/pb_decode.c:925-1083 | Encoding succeeds exactly when it can and fits; decoding then gives a message with the same fields present and the same values |
| PbMeaning.MeaningKept | ProductivityApp/Pods/nanopb/pb_decode.c:925-1083 | What decoding makes of an encoding, the items on the wire put one by one over the defaults, says the same as the message |
| PbMeaning.AllArrive | ProductivityApp/Pods/nanopb/pb_decode.c:406-480 | What each place holds in the end: value, default, all array entries, or the union's member |
| PbMeaning.UnionHolds | ProductivityApp/Pods/nanopb/pb_decode.c:466-475 | A union stays empty until the member its which_ field names comes in, and keeps it |
| PbMeaning.ZeroKept | ProductivityApp/Pods/nanopb/pb_encode.c:237-328 | Decoding keeps whether a proto3 value counts as default |
| PbMeaning.ZeroIsDefault | ProductivityApp/Pods/nanopb/pb_encode.c:237-328 | A value that is left out for being default has a default that counts as default |
| PbEncode.EncodeToBuffer | ProductivityApp/Pods/nanopb/pb_encode.c:86-121 | Encoding to a buffer succeeds exactly when sizing does and the size fits; it writes those bytes at the front and leaves the rest |
| PbEncode.GetEncodedSize | ProductivityApp/Pods/nanopb/pb_encode.c:558-567 | The sizing pass gives the length of the encoding |
| PbEncode.Encode | ProductivityApp/Pods/nanopb/pb_encode.c:519-541 | On either kind of stream: the message's bytes, or failure exactly when it cannot be encoded or does not fit; nothing outside the window changes |
| PbEncode.EncodeSubmessage | ProductivityApp/Pods/nanopb/pb_encode.c:708-756 | Size and contents agree; "submsg size changed" is unreachable |
| PbEncode.EncodeArray | ProductivityApp/Pods/nanopb/pb_encode.c:144-233 | Empty, too long, packed and unpacked arrays |
| PbEncode.EncodePacked | ProductivityApp/Pods/nanopb/pb_encode.c:161-202 | The length counted or computed is the length written |
| PbEncode.EncodeUnpacked | ProductivityApp/Pods/nanopb/pb_encode.c:206-229 | Every entry after its own tag |
| PbEncode.EncodeBasicField | ProductivityApp/Pods/nanopb/pb_encode.c:332-417 | Which fields are written under each repetition rule |
| PbEncode.EncodeItem | ProductivityApp/Pods/nanopb/pb_encode.c:760-901 | The field encoders, with their failures |
| PbEncode.SubstreamIsExact | ProductivityApp/Pods/nanopb/pb_encode.c:734-756 | A substream limited to the size takes exactly that many bytes |
| PbEncode.AppendTwice | ProductivityApp/Pods/nanopb/pb_encode.c:103-121 | Two writes are one write of both |
| PbEncode.OStream.Write | ProductivityApp/Pods/nanopb/pb_encode.c:103-121 | Writes if it fits, only counts when sizing, and fails otherwise |
| PbEncode.OStream.BufWrite | ProductivityApp/Pods/nanopb/pb_encode.c:74-84 | Copies into the buffer and moves on |
| PbEncode.OStream.EncodeVarint | ProductivityApp/Pods/nanopb/pb_encode.c:599-619 | The loop writes the varint |
| PbEncode.OStream.EncodeSvarint | ProductivityApp/Pods/nanopb/pb_encode.c:621-630 | The shifted and flipped bits are the zigzag number |
| PbEncode.OStream.EncodeLong | ProductivityApp/Pods/nanopb/pb_encode.c:644-657 | Eight little-endian bytes |
| PbIterator.FieldIter.Next | ProductivityApp/Pods/nanopb/pb_common.c:20-76 | Position, place in the struct and required index stay in step; members of a union share a place; after the last field back to the first |
| PbIterator.FieldIter.Find | ProductivityApp/Pods/nanopb/pb_common.c:78-95 | The wrap-around search finds the tag exactly if the descriptor has it |
| PbStream.IStream.DecodeVarint | ProductivityApp/Pods/nanopb/pb_decode.c:255-275 | Consumes within the stream on any bytes, and reads back any 64-bit varint, ten bytes included |
| PbStream.IStream.DecodeVarint32Eof | ProductivityApp/Pods/nanopb/pb_decode.c:187-247 | Of the 64-bit varints exactly those are taken that fit in 32 bits or are the ten bytes of a negative number, whose bits 32 to 34 are not looked at; the value is the lower 32 bits |
| PbStream.IStream.DecodeTag | ProductivityApp/Pods/nanopb/pb_decode.c:298-319 | Reads back tag and wire type |
| PbStream.IStream.MakeSubstream | ProductivityApp/Pods/nanopb/pb_decode.c:372-385 | The substream is the delimited part, or failure if the parent is too short |
| PbStream.IStream.CloseSubstream | ProductivityApp/Pods/nanopb/pb_decode.c:387-400 | The parent goes on where the substream ends |
| PbStream.IStream.Read | ProductivityApp/Pods/nanopb/pb_decode.c:102-137 | Takes exactly the bytes asked for, or none |
| PbDecode.IntsRoundTrip | ProductivityApp/Pods/nanopb/pb_decode.c:1329-1412 | Casts and zigzag give every integer of every field size back |
| PbDecode.DecodeInt | ProductivityApp/Pods/nanopb/pb_decode.c:1329-1364 | Negative ten-byte varints come back; anything stored fits its field |
| PbDecode.DecodeSInt | ProductivityApp/Pods/nanopb/pb_decode.c:1390-1412 | The same for zigzag integers |
| PbDecode.DecodeUInt | ProductivityApp/Pods/nanopb/pb_decode.c:1366-1388 | The same for unsigned integers |
| PbDecode.DecodeBytes | ProductivityApp/Pods/nanopb/pb_decode.c:1431-1547 | Bytes and strings come back; on any input what is stored fits its array; a string without room for its terminator is refused |
| PbDecode.DecodeItem | ProductivityApp/Pods/nanopb/pb_decode.c:68-81 | The decoder of each type gives its encoder's value back |
| PbDecode.DecodeSubmessage | ProductivityApp/Pods/nanopb/pb_decode.c:1503-1525 | A submessage comes back; array entries start from defaults |
| PbDecode.DecodePacked | ProductivityApp/Pods/nanopb/pb_decode.c:424-453 | A packed array comes back whole; on any input no entry is stored beyond the array |
| PbDecode.DecodeSingle | ProductivityApp/Pods/nanopb/pb_decode.c:406-480 | One item goes to its place; a full array is refused |
| PbDecode.CheckRequired | ProductivityApp/Pods/nanopb/pb_decode.c:1030-1070 | On any bitmap: passes exactly if of the words that cover the required fields, the first 64 at most, each has the bits of these fields and no other |
| PbDecode.ReleaseUnionField | ProductivityApp/Pods/nanopb/pb_decode.c:1106-1152 | Fails exactly when the union names a member that the descriptor does not have; the iterator is back on the field |
| PbDecode.DecodeKnown | ProductivityApp/Pods/nanopb/pb_decode.c:988-1020 | One item comes in: on any input only its place, its required bit and the count of its array change, a fixed-count array begun before is complete, and a union held a member or nothing; on an encoding the item put in |
| PbDecode.DecodeNoinit | ProductivityApp/Pods/nanopb/pb_decode.c:925-1073 | On any input the message stays within its memory; on an encoding over defaults it ends as the items put in |
| PbDecode.Decode | ProductivityApp/Pods/nanopb/pb_decode.c:1075-1086 | The same from defaults |
| PbDecode.DefaultsHeld | ProductivityApp/Pods/nanopb/pb_decode.c:908-919 | The default message is within its memory |

## Left out

What the models do not say:

- LsmRuns.RunsReadRight: a merge is one step; a memtable flush inside a running merge (db_impl.cc:908-918) is not interleaved with it.
- DbImpl.DBImpl.Write: waiting, slowing down and the size of the memtable in MakeRoomForWrite are left out; only its last branch is a step.
- DbImpl.DBImpl.BackgroundCompaction: the level is given; scoring by size (floating point) and counting seeks only choose it.
- DbImpl.DBImpl.ManualCompaction: the loop of CompactRange and TEST_CompactRange over levels and rounds is left out; the run of Resurrection takes the rounds it makes at level 1.
- CompactionLoop.CompactionState.DoCompactionWork: the size of a table, while it is being filled and finished, is any function of its entries; where ShouldStopBefore may stop an output may also be shorter.
- Resurrection.DeletedKeyReturns: block sizes there leave out compression, restart points and, for finished tables, index and footer.
- DbImpl.DBImpl.GetSnapshot: the store keeps its snapshots as a sequence of numbers; the linked list that the code keeps is in SnapshotList.
- InternalKeys.SeekFindsNewest: user keys of the store are reals, any of which can be a key, in the order of numbers; byte order is in Comparators, and the bytes of a memtable entry are not modelled.
- Versions.GetFromVersion: a table is its entries here; index, filter and blocks are in Table and BlockReader.
- MergedRuns.MergeAllMembers: children are sorted runs; a table read through TwoLevelIterator is one of them only by both being cursors over a sequence.
- SkipList.ReaderNeverMisses: memory is sequentially consistent, one load or store a step; the arena is a sequence and nodes are places in it.
- LogReader.ReadLog: initial_offset is 0, so skipping to a block and resyncing never happen; checksums are an arbitrary function, so corruption is only modelled as truncation.
- BlockReader.DecodeEntry: lengths are added without the wrap-around of 32 bits, which matters only on damaged blocks.
- BlockReader.RoundTrip: of a block of 4 GiB and more, whose offsets do not fit, nothing is said.
- BlockReader.Iter.Seek: the order is any transitive one; the code's comparator is bytewise.
- HandleTable.HandleTable.Resize: chains are sequences; aliasing of the link fields is not modelled.
- LruCache.LRUCache.Insert: the two circular lists are sequences; deleters and the values they get are not modelled, only which block is freed and when; one shard of the sharded cache.
- WriteQueue.CommittedOnceInOrder: batches are well-formed and writing the log does not fail.
- FilterBlock.FilterBlockReader.KeyMayMatch: offsets fit in 32 bits.
- Bloom.CreateFilter: the hash is an arbitrary function; the number of probes is given instead of computed in floating point.
- TableReader.OpenTable.InternalGet: blocks are read from the file each time, not through the block cache; compression is off, as it is where Snappy is not built in.
- TableReader.BuildAndGet: keys are pairs of user key and packed number outside the blocks; writing the file does not fail.
- TwoLevelIterator.Iterator.Seek: it works on blocks as runs; that their bytes give the runs is said of lookups only.
- ObsoleteFiles.NothingNeededIsDeleted: one background thread; the manifest's content stands for the file, which ManifestReplay rebuilds; which entries a merge's outputs hold is LsmState's matter.
- CrashRecovery.Open: only the last log is cut off, so an older log does not lose its end while a newer one keeps records, and the manifest is whole; a record that is damaged inside, and going on with the last log (reuse_logs), are left out.
- LsmCrashes.CrashRunsReadRight: after a crash the sequence numbers go on from the end of the history that is left; those the code may leave unused (the manifest can have a larger last number) are closed up.
- ManifestReplay.RecoveryRebuilds: log and file numbers and compaction pointers in the edits are left out.
- PbEncode.Encode: callbacks, extensions and fields behind pointers are left out; so are custom streams.
- PbDecode.DecodeNoinit: for bytes no encoder wrote only the memory bounds are stated, not which of the errors is reported; the destination is passed and returned as a value; tag 0 is skipped as unknown also in an empty message.
- PbDecode.DecodeKnown: for bytes no encoder wrote it is said what may change, not which value comes in.
- PbDecode.ReleaseUnionField: fields are static, so the member released has nothing allocated.
- PbStream.IStream.DecodeVarint32Eof: the 8-bit bit position does not wrap, which needs a varint of more than 36 bytes; nothing is stated about varints of more than 64 bits.
- PbStream.IStream.SkipField: only that it stays inside the stream.
- PbMeaning.ZeroIsDefault: default values other than zero, which a descriptor can point to, are left out, as are the contents an array without a count has before decoding.
- PbMeaning.MeaningKept: what a field that is not present holds afterwards is not part of the meaning.

What is not modelled at all:

- Internal keys that do not parse, and input or output that fails, except for a log that is cut off.
- Repair, dumps, statistics, properties, approximate sizes, the C bindings, the histogram.
- File systems, mutexes and condition variables, threads but for the steps they take.
- Snappy and CRC32C themselves; generated constants.
- nanopb's release of allocated fields, null-terminated messages, and the build without 64-bit integers.
- The application's own Swift code and all other pods.
