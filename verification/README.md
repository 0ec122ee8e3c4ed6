# leveldb-rs: a verified model of the store

leveldb-rs is a single-threaded LSM key-value store. Writes go to a log and a memtable; memtables are flushed to sorted
table files on seven levels; compactions merge files downwards; a manifest records which files are live. This project
models that machinery in Dafny and proves what each part of it does to what a reader sees, what a crash at any point can
lose, and that each fast data structure does what its simple counterpart does. Several of the store's promises turn out to
fail on particular inputs; the table below lists them with their exact conditions. In particular, provided that a file
that is created starts empty, a crash loses only batches that were not synced, unless a log or a manifest that a crash cut
inside a record is written on afterwards, or a flush has put a table below an overlapping one.

The files follow the source:

- **The store.** `Entries` (versions of keys and what a read at a sequence number means), `Version` and `VersionSet`
  (which files overlap, compaction inputs), `Sweeps` (manual
  compactions of a level one after the other), `VersionBuilder` (edits), `Iterators` and `DbIter` (merging and scanning),
  `Compaction` (the compaction loop), `Store`, `StoreSteps`, `WriteSteps` (the invariant of all layers and what each step
  keeps), `PointReads` (`get`), `FilteredReads` (lookups that ask a built filter block), `Db` (the `DB` class and its
  runs), `HiddenOverlap` (a flush after which a read is wrong).
- **Durability.** `Manifest`, `History` (the batches written so far), `Durability` (disk and process as a state machine
  with a crash between any two steps or inside a record), `CrashSafety` (its invariant and the theorems about every run),
  `Obsolete` (the deletion of obsolete files), `TornLog` and `TornManifest` (runs that lose a synced batch).
- **Bytes.** `Coding`, `KeyTypes`, `Log`, `WriteBatch`, `VersionEdit`, `Block`, `Comparators`, `Table`, `Filter`,
  `FilterBlock`.
- **Memory.** `SkipMap`, `MemTable`, `Cache`.

The central notions:

- `ReadAt(S, u, s)` is what the set `S` of versions says about user key `u` at sequence number `s`: the value of the
  newest version not above `s`, or nothing if there is none or it is a deletion.
- `StoreOk` says that memtable, immutable memtable and levels are layers from newest to oldest, that files from level 1
  on are disjoint, that level-0 files are newer the higher their number, and that numbers are distinct and below the next.
- `Holds(s, m)` says that every key of the store `s` reads as in the plain map `m`.
- `Serving` and `Durable` say the same of a process in memory and of what is on disk, against the batches `h` written.

Classes of the source that update fields are classes here; a ghost field holds the value that a class stands for (the
entries of a block, the nodes of a skip list), and `Valid` ties it to the real fields.

Where the code does less than its comments promise, the model follows the code. In each case there is an input for which
the promise fails and the exact condition under which it holds:

| code | the promise fails | it holds exactly when |
|---|---|---|
| `Version::get` stops at a deletion of any key | `PointReads.OtherDeletionHides` | `PointReads.SearchCorrect`, `Database.DB.Get` |
| the test for overlap used on level 0, and the flush it allows | `Version.OverlapMissed`, `HiddenOverlap.HiddenFlushReads` | `WriteSteps.FlushOk`, `Database.DB.CompactMemtable` |
| a log that is written on after a cut inside a record | `Log.ReuseAfterCutFails`, `TornLog.SyncedBatchLost` | `Log.ReuseAfterCut`, `CrashSafety.AlwaysRecoverable` |
| a manifest that is written on after a cut inside an edit | `VersionEdits.TornEditFails`, `TornManifest.SyncedStoreLost` | `VersionEdits.BehindItems`, `CrashSafety.AlwaysRecoverable` |
| `find_shortest_sep` at a key and its successor | `Table.AdjacentMisses` | `Comparators.InternalSepIs`, `Table.SepIs` |
| an index key that is not above the one before it | `Table.IndexFalls` | `Table.TableBuilder.WriteDataBlock` |
| `TableIterator::seek` between a block's last key and its index key | `Table.GapMisses`, `Table.AdjacentMisses` | `Table.TableIterator.Seek`, `Table.TableIterator.SeekVersion` |
| `Table::get` compares with the index key strictly | `Table.SplitMisses` | `Table.Get`, `Table.GetVersion` |
| a block iterator takes an empty key for the end | `Block.EmptyKeyHalts` | `Block.BlockIter.Seek` |
| inserting a key that the cache has | `Caches.StaleKeyPanics` | `Caches.Cache.Insert` |

## Model

| member | source | states |
|---|---|---|
| `Database.DB.Run` | src/db_impl.rs:569-947 | Every run of batches, memtable switches, compactions of any file and manual range compactions refines a plain map: each operation takes the store one step as its own contract says, at the end every key reads as the map of the batches says, and the store invariant holds. A run is followed up to its first flush that puts a table below a level-0 file with one of its keys; the store before that flush holds the map of the batches so far, and after it the invariant is lost. |
| `Database.DB.RunOp` | src/db_impl.rs:401-655 | Each operation does what its method says, keeps the invariant and changes what the store holds as the map of the batches does; it fails only at a flush out of order. |
| `Database.DB.constructor` | src/db_impl.rs:69-100 | A new database is empty and satisfies the invariant. |
| `Database.DB.Write` | src/db_impl.rs:401-417 | The memtable gets one version for each operation, with consecutive sequence numbers; every read changes exactly as applying the batch to the map does. |
| `Database.DB.Get` | src/db_impl.rs:431-475 | Over a store of built tables: if memory has the key the answer is right; otherwise it is nothing if the files asked stop at another key's deletion, and else what those tables say that the lookups get to. So, unless a table asked gives up on a version it has, it is what a reader at the sequence number must see, if and only if it is not the case that memory knows nothing of the key, the search stops at the deletion of another key, and there is a value. Which files are asked is said by `PointReads.ProbesFit`. |
| `Database.DB.MakeRoomForWrite` | src/db_impl.rs:569-592 | If the memtable is full or the switch forced, and it is not empty, it is switched and flushed and then the chosen file compacted; otherwise nothing happens. The invariant and every read stay, unless the switched memtable hid an overlap and its flush leaves the store out of order; a switch does so exactly then. |
| `Database.DB.MaybeDoCompaction` | src/db_impl.rs:595-611 | A pending memtable is flushed, and then the chosen file compacted, if any. The invariant holds afterwards if and only if the memtable hid no overlap, and then nothing a reader sees has changed. |
| `Database.DB.CompactMemtable` | src/db_impl.rs:712-781 | The immutable memtable becomes one table, with the next number, on the first level up to 2 that it does not pass over. The invariant holds afterwards, and then nothing a reader sees has changed, if and only if it is not the case that the memtable passes over level 0, where the test for disjoint files misses a file with one of its keys. |
| `Database.DB.CompactFile` | src/version_set.rs:280-329 | Compacting any one file takes just the inputs that belong to it, keeps the invariant and every read, and the file leaves its level. |
| `Database.DB.StartCompaction` | src/db_impl.rs:659-710 | The inputs are exactly those of the chosen files. They are replaced by the file itself one level down if it is the only input, the compaction is not manual and it overlaps little two levels down, and otherwise by what the compaction loop writes; every read stays and the level has fewer files. |
| `Database.DB.MoveFile` | src/db_impl.rs:660-671 | A trivial move installs the file on the next level and keeps the invariant and every read. |
| `Database.DB.CompactInputs` | src/db_impl.rs:688-704 | A merging compaction with the last sequence number as the smallest snapshot keeps the invariant and every read. |
| `Database.DB.DeepestOverlap` | src/db_impl.rs:619-628 | The deepest level but the last with a file in the range, and 1 if there is none or it is level 0. |
| `Database.DB.CompactRange` | src/db_impl.rs:618-655 | Terminates; the flush is right or wrong exactly as above, and then the invariant and every read stay. The levels are compacted in turn down to the deepest but the last with a file in the range, each by compactions that begin where the last one ended; at the end no level has a file in the range from where the level began, which is the start of the range on level 0 and the end of the level above deeper down. |
| `Database.DB.CompactLevel` | src/db_impl.rs:638-653 | The loop over one level terminates, is a sequence of manual compactions that each begin where the last one ended, leaves the levels above alone, keeps the invariant and every read, and leaves no file of the level in the range. |
| `Database.DB.SweepLevels` | src/db_impl.rs:636-654 | The same level by level: each begins where the one above ended, and at the end no level has a file in the range from its own start on. |
| `Sweeps.SweepClears` | src/db_impl.rs:638-653 | Manual compactions one after the other, each from where the last one ended, that end where nothing is left in the rest of the range have left nothing in the whole range. |
| `Sweeps.JobClears` | src/db_impl.rs:638-653 | What one of them leaves of the range lies in the range from its end on; on level 0 it leaves nothing. |
| `Sweeps.LeftBehind` | src/version_set.rs:331-448 | On a deeper level a file in the range that the inputs leave out begins behind the last input, although the inputs may have been cut to a size and then grown again. |
| `Sweeps.NoGaps` | src/version_set.rs:366-448 | The inputs on a deeper level have no gaps. |
| `Sweeps.JobLeaves` | src/db_impl.rs:659-710 | A compaction takes its inputs from the level and changes nothing else on it or on levels other than the next. |
| `Database.DB.LogAndApply` | src/version_set.rs:480-525 | The current version becomes, level by level, the live step of the edit. |
| `Database.InstallEdits` | src/db_impl.rs:929-947 | The edit of any compaction, applied by the builder, gives exactly the installed version, and every level from 1 on is ordered, so the ordering assertions never fire. |
| `Database.FlushStep` | src/db_impl.rs:732-781 | A flush that keeps the order of the layers keeps the invariant and every read, and its edit gives the flushed version with ordered levels. |
| `Database.PickedFlush` | src/version.rs:165-193 | On the level picked for it a memtable's table keeps the invariant, and then every map, if and only if that is level 0 or no level-0 file has one of its keys. |
| `Database.FlushInstalls` | src/db_impl.rs:732-781 | Whatever the picked level, the builder's result for the flush's edit is the flushed version, and its ordering assertions hold. |
| `HiddenOverlap.HiddenFlushReads` | src/version.rs:165-193 | A valid store whose memtable is flushed to level 2, below a level-0 file with an older version of its key: the invariant is lost, and a read of the files finds the older value although the newer one is there. |
| `HiddenOverlap.HidingExists` | src/version.rs:165-193 | Entries for such a store. |
| `Database.CompactStep` | src/db_impl.rs:783-947 | Whatever the cut points, the outputs of a compaction can be installed, and the installed store keeps the invariant and every map it held. |
| `Database.MoveStep` | src/db_impl.rs:660-671 | The store after a move keeps the invariant and every map it held. |
| `Database.RotateStep` | src/db_impl.rs:584-587 | The store after switching memtables keeps the invariant and every map it held. |
| `Database.WriteHolds` | src/db_impl.rs:401-417 | One operation changes the map that a store holds as the operation says. |
| `Store.InstallKeepsStore` | src/version_set.rs:366-448 | Installing outputs that fit closed inputs keeps the whole invariant: layers from newest to oldest, disjoint levels, numbers. |
| `Store.NextLevelDisjoint` | src/version_set.rs:809-840 | After an installation the next level is sorted and disjoint with distinct numbers. |
| `Store.StoreDistinct` | src/db_impl.rs:569-947 | No two versions in the whole store share user key and sequence number. |
| `Store.SearchIsRead` | src/db_impl.rs:431-475 | Asking the layers from the newest to the oldest and stopping at the first that knows the key reads what the set of all versions says. |
| `StoreSteps.CompactKeepsReads` | src/db_impl.rs:783-947 | Installing a compaction's outputs changes no read at or above the last sequence number. |
| `StoreSteps.KeptFits` | src/db_impl.rs:806-879 | With no snapshot below the last sequence number the outputs hold one version of each key, so they are disjoint files wherever they are cut. |
| `StoreSteps.NothingOlder` | src/version_set.rs:102-121 | For a key whose base level is the compaction's, no version left outside the inputs is older than an input version. |
| `StoreSteps.SourcesFit` | src/version_set.rs:702-737 | The iterators over the inputs are sorted and share no version. |
| `StoreSteps.EditInstalls` | src/db_impl.rs:929-947 | On every level the builder's result for the compaction's edit is the installed level. |
| `WriteSteps.WriteOneOk` | src/write_batch.rs:96-104 | Adding a version with the next sequence number keeps the invariant, changes the read of its key to the new value or nothing, and no other read. |
| `WriteSteps.RotateOk` | src/db_impl.rs:584-587 | Switching memtables keeps the invariant and all versions. |
| `WriteSteps.FlushOk` | src/db_impl.rs:712-781 | A flush keeps the invariant if and only if it goes to level 0, or no file above shares a user key with the table and the level stays disjoint. |
| `WriteSteps.SafeKeepsOrder` | src/db_impl.rs:712-781 | That is so if no file on the level or above overlaps. |
| `WriteSteps.FlushKeepsEntries` | src/db_impl.rs:712-781 | A flush keeps all versions. |
| `Entries.DropPreservesReads` | src/db_impl.rs:834-850 | Dropping versions that a newer one not above the smallest snapshot shadows, and old deletions with nothing older below, changes no read at or above that snapshot. |
| `Entries.ReadIs` | src/db_impl.rs:431-475 | A read is the meaning of the newest visible version. |
| `CompactionWork.Compaction.IsBaseLevelFor` | src/version_set.rs:102-121 | With its pointers carried over from call to call, the answer for any non-decreasing sequence of keys is that of a scan of every file two levels down and deeper. |
| `CompactionWork.DoCompactionWork` | src/db_impl.rs:783-893 | Over any sorted sources and with outputs cut anywhere, the outputs' entries are exactly the entries the drop rules retain, in order. |
| `CompactionWork.ProcessEntry` | src/db_impl.rs:806-872 | One round of the loop keeps the remembered key and sequence number, the pointers and the outputs in step with the input read so far. |
| `CompactionWork.DropRule` | src/db_impl.rs:816-850 | The remembered last sequence number tells exactly whether a newer version not above the smallest snapshot came before. |
| `CompactionWork.CompactionPreservesReads` | src/db_impl.rs:799-879 | For every key and every snapshot not below the smallest, what the loop keeps reads, with the levels below, as the inputs did. |
| `CompactionWork.BaseLevelHasNone` | src/version_set.rs:102-121 | If a key's base level is the compaction's, no deeper file holds a version of it. |
| `CompactionWork.KeptSorted` | src/db_impl.rs:850-872 | What the loop keeps is sorted. |
| `Version.DoSearch` | src/version.rs:307-346 | A pass selects exactly the files in range, or reports a wider range that leaves strictly fewer file ends outside and that every closed range around the first must contain. |
| `Version.OverlappingInputs` | src/version.rs:282-347 | Terminates despite its restarts; on level 0 it selects by the least closed range around the given one, elsewhere by the given range; that determines the files. |
| `Version.LeastUnique` | src/version.rs:282-347 | There is only one least closed range around a range. |
| `Version.OverlappingUnique` | src/version.rs:282-347 | So the files selected are determined by level and range. |
| `Version.FindFile` | src/version.rs:518-537 | On files with ascending largest keys, the first one whose largest key is not below the key, or none. |
| `Version.FoundIs` | src/version.rs:518-537 | The recursive form of the binary search: never a file below the key, and the first such file on ascending files. |
| `Version.SomeFileOverlapsRangeDisjoint` | src/version.rs:541-553 | Reports only real overlaps, and every overlap when the files ascend; in general exactly the test of the one file that the search ends at. |
| `Version.SomeFileOverlapsRange` | src/version.rs:557-569 | True if and only if some file overlaps the range. |
| `Version.OverlapMissed` | src/version.rs:257-279 | Two overlapping level-0 files and a range that one of them covers, for which the test that level 0 is given answers no. |
| `Version.PickMemtableOutputLevel` | src/version.rs:165-193 | The first level, up to 2, that the memtable does not pass over; it passes over a level if the search finds no overlap there, none on the next, and little on the one after. The choice is safe if and only if it is level 0 or no level-0 file overlaps. |
| `Version.TotalSize` | src/version.rs:497-499 | The sum of the sizes. |
| `VersionSet.GetRange` | src/version_set.rs:944-966 | The smallest and the largest key of the files in internal-key order. |
| `VersionSet.RangeBounds` | src/version_set.rs:944-966 | The range bounds every file, by internal and by user key, and both of its ends are attained. |
| `VersionSet.SetupOtherInputs` | src/version_set.rs:366-448 | The level's inputs are the larger choice exactly when it has more files, stays below the size limit and leaves the next level's inputs as they were, and else the start; they contain the start and share no user key with the rest of the level. The next level's inputs are exactly the files overlapping their range, and the grandparents those overlapping the range of both. |
| `VersionSet.SameNextLevel` | src/version_set.rs:384-403 | A larger choice that overlaps as many files on the next level overlaps the same ones, so comparing the numbers is enough. |
| `VersionSet.PickInputs` | src/version_set.rs:280-329 | Below level 0 the chosen file is the only input; on level 0 they are exactly those of the least closed range around it. They share no user key with the rest of the level. |
| `VersionSet.RangeInputs` | src/version_set.rs:331-364 | None if and only if no file is in the range; otherwise they share no user key with the rest of the level; on level 0 they are exactly those of the least closed range around the given one, deeper the shortest prefix of the files in the range whose sizes exceed the limit, or all of them. |
| `VersionSet.CutInputs` | src/version_set.rs:347-356 | The list is cut behind the first file at which the sizes exceed the limit. |
| `VersionSet.LeastRangeEmpty` | src/version.rs:282-347 | The least closed range selects nothing if and only if the range itself touches no file. |
| `VersionBuilder.ReplayIsLive` | src/version_set.rs:480-525 | Folding any edits through one builder over an empty base gives the same files as applying them one at a time, if no number is added twice to a level. |
| `VersionBuilder.ReplayAfterSnapshot` | src/version_set.rs:451-525 | The same after a restart from a snapshot of any sorted version. |
| `VersionBuilder.MergeIsSort` | src/version_set.rs:809-840 | Merging the sorted additions into the base is sorting base and additions together, equal keys in that order. |
| `VersionBuilder.KeepSort` | src/version_set.rs:809-840 | Removing deleted files commutes with sorting. |
| `VersionBuilder.MergeIters` | src/version_set.rs:900-940 | The loop computes the recursive merge. |
| `VersionBuilder.Builder.Apply` | src/version_set.rs:756-776 | On every level deletions are added, then additions appended and their numbers taken from the deleted set. |
| `VersionBuilder.Builder.MaybeAddFile` | src/version_set.rs:780-805 | The file is appended unless it is deleted; the order that the source asserts here is a precondition that `SaveTo` meets. |
| `VersionBuilder.Builder.SaveTo` | src/version_set.rs:809-840 | Every level is the merge of base and additions without the deleted files. |
| `MergingIterator.MergingIter.Advance` | src/merging_iter.rs:139-153 | What is still to come loses its first entry. |
| `MergingIterator.MergingIter.Find` | src/merging_iter.rs:105-135 | The current iterator is one with the smallest key. |
| `MergingIterator.MergingIter.Init` | src/merging_iter.rs:37-46 | What is to come is the merge of all sources. |
| `MergingIterator.MergingIter.Reset` | src/merging_iter.rs:167-172 | The iterator becomes invalid and keeps its sources. |
| `MergingIterator.MergingIter.Current` | src/merging_iter.rs:173-179 | The first entry to come. |
| `MergingIterator.MergeAllIsMerge` | src/merging_iter.rs:105-153 | The merge of sorted sources without shared versions is sorted and has exactly their entries. |
| `MergingIterator.SmallestHead` | src/merging_iter.rs:105-135 | The smallest head is the first entry of the merge. |
| `DbIter.ScanAll` | src/db_iter.rs:166-193 | A scan of any sources at any snapshot yields, in strictly increasing key order, exactly the keys that read as a value, with that value. |
| `DbIter.Collect` | src/db_iter.rs:166-193 | Advancing a fresh iterator until it ends yields the reference scan. |
| `DbIter.DBIterator.FindNextUserEntry` | src/db_iter.rs:74-106 | Stops at the next entry that a scan yields, or at the end, and skips none. |
| `DbIter.DBIterator.SeekToFirst` | src/db_iter.rs:261-273 | Stops at the first entry that a scan yields. |
| `DbIter.DBIterator.Advance` | src/db_iter.rs:166-193 | Moves to the next entry that a scan yields; a fresh iterator to the first. |
| `DbIter.DBIterator.Current` | src/db_iter.rs:194-210 | User key and value of the entry. |
| `DbIter.ScanCorrect` | src/db_iter.rs:74-106 | The entries that the scan yields are strictly increasing and are exactly the reads at the snapshot. |
| `DbIter.YieldsIsNewest` | src/db_iter.rs:74-106 | The scan yields an entry if and only if it is the newest visible version of its key and a value. |
| `PointReads.SearchResult` | src/version.rs:60-101 | For any files newest first and any lookups that may give up: the search finds nothing if it stops at another key's deletion, and else what the files say that the lookups get to. |
| `PointReads.SearchCorrect` | src/version.rs:60-101 | If the lookups get to every visible version, the search reads what the versions say, if and only if it does not stop at another key's deletion while a value exists. |
| `PointReads.LookUp` | src/table_reader.rs:185-221 | A table's lookup finds the first entry not before the key if it gets to the entries, and else nothing. |
| `PointReads.HeldReached` | src/table_reader.rs:185-221 | For a visible version and a filter without false negatives it gets to the entries if and only if the lookup key is neither in a gap nor on a last key that serves as index key. |
| `PointReads.BuiltReaches` | src/table_reader.rs:185-221 | In built tables the lookups get to every visible version if and only if no table that has one gives up on it. |
| `PointReads.OtherDeletionHides` | src/version.rs:89-96 | A valid store of two built level-0 tables, on which no lookup gives up, for which the search answers nothing although the key has a value. |
| `PointReads.HiddenBehind` | src/version.rs:89-96 | The family of such pairs of files. |
| `PointReads.VersionGet` | src/version.rs:60-101 | The answer is that of searching the files that the state, key and sequence number determine (`PointReads.ProbesFit`), with lookups in built tables. |
| `PointReads.AskLevel` | src/version.rs:68-98 | Stops at the first file of the level whose hit is of the key or is a deletion, with that hit's meaning. |
| `PointReads.ProbesFit` | src/version.rs:104-139 | In any valid store the files asked are newest first for the key and are exactly these: on level 0 those with the key in range, deeper those that begin not behind the lookup key and end not before it. |
| `PointReads.GetOverlapping` | src/version.rs:104-139 | Level 0: the files with the key in range by descending number; deeper: the file that the binary search ends at, if it does not begin behind the key; `PointReads.ChosenIs` says which files these are. |
| `PointReads.ChosenIs` | src/version.rs:104-139 | On level 0 these are exactly the files with the key in range, newest first; deeper at most one, which may hold the key, and on disjoint files every one that may. |
| `PointReads.Candidate` | src/version.rs:126-136 | The file that the binary search ends at, if it does not begin behind the key; `PointReads.CandidateIs` says which file that is. |
| `PointReads.CandidateIs` | src/version.rs:126-136 | At most one file of the level, and only one that begins not behind the lookup key and ends not before it; on disjoint files every such file. |
| `PointReads.SortNewestFirst` | src/version.rs:123-124 | The insertion sort by descending number, equal numbers in their order. |
| `PointReads.ByNumberIs` | src/version.rs:123-124 | It has exactly the given files, with numbers descending. |
| `PointReads.FirstIsNewest` | src/table_reader.rs:185-221 | In a sorted table the first entry not before the lookup key is the newest visible version of the key, if it has that key; otherwise there is none. |
| `PointReads.FilesRead` | src/db_impl.rs:454-474 | If memory knows nothing of the key, the chosen files read as the whole store. |
| `PointReads.MemoryReads` | src/db_impl.rs:436-452 | The newest visible version in the memtable, or else in the immutable one, is what the whole store reads. |
| `FilteredReads.BuildFilter` | src/table_builder.rs:149-201 | The filter block of a table has the keys of every data block in the filter of its offset. |
| `FilteredReads.Ask` | src/table_reader.rs:199-207 | A lookup of any key at any data block gets the answer of that block's filter from the bytes. |
| `FilteredReads.HeldAnswered` | src/filter.rs:155-178 | That answer is yes for every user key that the block has a version of, whatever the sequence number asked for. |
| `FilteredReads.FilteredBuilt` | src/table_reader.rs:185-221 | So a table whose lookups ask its built filter block is one that `Database.DB.Get` can read. |
| `Manifest.Recover` | src/version_set.rs:558-641 | Reading a manifest gives the folded files and the last counters recorded, or fails if a counter is missing. |
| `Manifest.AppendStandsFor` | src/version_set.rs:480-525 | If a manifest stands for a version, appending an edit's record makes it stand for the version after the edit. |
| `Manifest.SameReading` | src/version_set.rs:558-641 | A record that reads as the same version as another does as well in its place, also for every edit that follows. |
| `Manifest.SnapshotStandsFor` | src/version_set.rs:451-476 | A snapshot record alone stands for the version it was taken of. |
| `Manifest.AppendLevel` | src/version_set.rs:558-641 | Rereading after one more record is one more live step on every level. |
| `History.WriteAllHolds` | src/write_batch.rs:96-104 | Applying a batch operation by operation keeps the invariant and applies the batch to the map. |
| `History.WriteRecordHolds` | src/db_impl.rs:254-281 | Replaying a logged batch at its recorded sequence number does the same, wherever the counter stood below it. |
| `History.SetCounters` | src/db_impl.rs:213-222 | Raising the counters, or lowering the sequence number to one no version exceeds, changes no read. |
| `CrashSafety.CrashSafe` | src/db_impl.rs:159-300 | In every run with crashes anywhere, also inside records, in which every batch logged reads as itself, every edit recorded reads as the version it is meant to make, and every flush keeps the order of the layers, an open database reads every key as the map of the batches that no crash lost. |
| `CrashSafety.AlwaysRecoverable` | src/db_impl.rs:303-345 | In any run: at every point the manifest that CURRENT names is complete, its tables exist with their contents, with the logs from its log number on they hold every batch, and an edit being recorded makes a version that reads as the batches and is the one that the manifest then reads as; if and only if every batch logged reads as itself, every edit recorded as the version meant, and every flush keeps the order of the layers. |
| `CrashSafety.NeverReused` | src/db_impl.rs:283-290 | In particular that is so in every run that never writes on in a log or a manifest that ends in part of a record with data, and whose flushes keep the order. |
| `CrashSafety.LostBatch` | src/log.rs:142-195 | A batch that does not read as itself leaves the disk unrecoverable at once. |
| `CrashSafety.LostEdit` | src/version_set.rs:558-641 | An edit that does not read as the version meant leaves the manifest unreadable, incomplete or with another version. |
| `CrashSafety.LostOrder` | src/db_impl.rs:712-729 | A flush that does not keep the order makes a version that does not read as the batches. |
| `CrashSafety.FirstLoss` | src/log.rs:142-195 | So every run with such a step has a point where the disk is not recoverable or the process not in step with it. |
| `CrashSafety.SyncedSurvives` | src/db_impl.rs:401-425 | A run without such a step loses no synced batch: the synced part only grows and stays a prefix of what an open database reads. |
| `TornLog.ReuseLoses` | src/db_impl.rs:283-290 | For any two keys and any leftover behind which a batch with the second reads as a write of the first: a run in which that batch is written to the cut log, synced, and not there when the database opens again. |
| `TornLog.SyncedBatchLost` | src/log.rs:46-195 | Such a run with 32 KiB blocks: a batch of 32777 bytes is cut behind its first fragment, and a small batch, synced in the reused log, is lost. |
| `TornManifest.SyncedStoreLost` | src/version_set.rs:558-699 | A run in which a flush's edit is cut, recovery takes the manifest up again, and the next edit cannot be read behind the leftover: a synced batch is on disk and no database opens. |
| `CrashSafety.RecoveryCompletes` | src/db_impl.rs:111-225 | From every reachable state after a crash, some sequence of recovery steps opens the database with the same batches. |
| `CrashSafety.NextKeeps` | src/db_impl.rs:159-729 | Every step of process or crash, also one that cuts a record of a log or a manifest, keeps the invariant, unless it logs a batch that does not read as itself, records an edit that does not read as the version meant, or starts a flush that loses the order. |
| `CrashSafety.WholeKeeps` | src/version_set.rs:503-510 | A new manifest that is being written has no leftover. |
| `CrashSafety.StepKeeps` | src/db_impl.rs:159-729 | The same for what a step does to disk and process alone. |
| `CrashSafety.RunKeeps` | src/db_impl.rs:159-729 | Every state of such a run satisfies the invariant. |
| `CrashSafety.InitKeeps` | src/db_impl.rs:140-155 | A new database satisfies the invariant. |
| `CrashSafety.CrashKeeps` | src/db_impl.rs:401-417 | After a crash that loses the process and unsynced records of the last log, cut anywhere between fragments, also one between the creation of a new log and the writing out of the old one, the disk still holds the batches that are left. |
| `CrashSafety.OpenKeeps` | src/version_set.rs:558-656 | Reading the manifest starts a recovery that serves the batches before the logs, whether the manifest will be written on or replaced. |
| `CrashSafety.ReadKeeps` | src/db_impl.rs:254-281 | Replaying one more log record serves one more batch. |
| `CrashSafety.DumpKeeps` | src/db_impl.rs:272-296 | Writing a recovered memtable to a level-0 table keeps what recovery serves. |
| `CrashSafety.NextLogKeeps` | src/db_impl.rs:206-222 | Going on to the next log keeps what recovery serves. |
| `CrashSafety.ReuseLogKeeps` | src/db_impl.rs:283-290 | Recovery may end by writing on in the last log; what a cut left there stays for the next batch. |
| `CrashSafety.NewLogKeeps` | src/db_impl.rs:111-137 | Recovery may end with a new log, whose number goes into the manifest. |
| `CrashSafety.WriteKeeps` | src/db_impl.rs:401-417 | Logging and inserting a batch that reads as itself extends the served batches by it, in memory and on disk. |
| `CrashSafety.RotateKeeps` | src/db_impl.rs:569-592 | A new log and a switched memtable lose nothing: the old log stays until the flush is recorded. |
| `CrashSafety.FlushKeeps` | src/db_impl.rs:712-729 | A flush's edit may name the new log number, since the table holds what the older logs hold; the flush keeps the order. |
| `CrashSafety.CompactKeeps` | src/db_impl.rs:659-947 | The edit of a merging compaction is ready to be recorded. |
| `CrashSafety.MoveKeeps` | src/db_impl.rs:660-671 | The edit of a trivial move is ready to be recorded. |
| `CrashSafety.TableKeeps` | src/db_impl.rs:1005-1054 | Writing a table under a new number disturbs no live one. |
| `CrashSafety.Commit` | src/version_set.rs:480-525 | The one point where the disk's version changes: once the manifest that CURRENT names reads as with the record, the disk holds the version after the edit, whatever the record itself reads as. |
| `CrashSafety.LoggingKeeps` | src/version_set.rs:480-525 | Every step of creating a manifest, writing the snapshot, appending, switching CURRENT and applying keeps the invariant, if the edit reads as meant. |
| `CrashSafety.DeleteKeeps` | src/db_impl.rs:303-345 | Deleting any file that the live set does not protect keeps the disk recoverable. |
| `Obsolete.DeletionCompletes` | src/db_impl.rs:303-345 | From every idle state deletions lead to one with the same process and batches in which, of the files that were there, exactly the version's tables, the logs from its log number on and the manifests from the current one on are left, with their contents. |
| `Obsolete.TidyIs` | src/db_impl.rs:303-345 | In an idle state no file on disk can be deleted if and only if the tables on disk are exactly those of the version, no log is below its log number, and no manifest below the current one. |
| `Obsolete.DeletableIs` | src/db_impl.rs:308-333 | A file can be deleted if and only if it is not needed. |
| `Coding.FixedRoundTrip` | src/log.rs:94-111 | Fixed-width little-endian numbers decode to themselves. |
| `Coding.FixedDigits` | src/log.rs:94-111 | The bytes are the digits to base 256, lowest first. |
| `Coding.VarRoundTrip` | src/version_edit.rs:42-58 | Varints decode to themselves with anything behind. |
| `Coding.VarDigits` | src/version_edit.rs:42-58 | The bytes are the digits to base 128, lowest first, all but the last with the high bit set. |
| `Coding.VarShortest` | src/version_edit.rs:42-58 | There is no leading zero. |
| `Log.RoundTrip` | src/log.rs:46-195 | For any non-empty records and any block size above the header, the reader returns exactly the records and then no more. |
| `Log.CutAtFragment` | src/log.rs:142-195 | A file cut between any two fragments yields exactly the records wholly before the cut. |
| `Log.CutData` | src/log.rs:142-195 | The fragments before a cut hold a proper prefix of the record. |
| `Log.Reopened` | src/log.rs:46-50 | A writer reopened at the file's length produces the bytes of one continuous writer. |
| `Log.AppendedAfterCut` | src/log.rs:142-195 | Written on after a cut, the file reads with the cut record's part in front of the first new record. |
| `Log.ReuseAfterCut` | src/log.rs:46-195 | Hence it reads as if the cut record never was, if and only if its fragments before the cut hold no data. |
| `Log.ReuseAfterCutFails` | src/log.rs:46-195 | A file for which it does not. |
| `Log.UnmaskMask` | src/log.rs:207-214 | Unmasking undoes masking for every 32-bit checksum. |
| `Log.MaskIs` | src/log.rs:207-209 | The upper 17 bits and the lower 15 change places, then the constant is added modulo the word size. |
| `Log.OffsetIsPosition` | src/log.rs:46-92 | The offset a writer keeps is its position in the file modulo the block size. |
| `Log.ChunksFit` | src/log.rs:52-92 | No fragment crosses a block boundary, and each starts after the padding that the rule asks for. |
| `Log.ChunkAt` | src/log.rs:58-89 | Every fragment says whether it is the first and whether it is the last, and all but the last end where their block ends. |
| `Log.LogWriter.AddRecord` | src/log.rs:52-92 | Appends exactly the record's fragments from the current offset. |
| `Log.LogWriter.AddFragment` | src/log.rs:58-89 | Appends padding if the header does not fit, then the longest fragment that does. |
| `Log.LogWriter.EmitRecord` | src/log.rs:94-111 | Appends header and data. |
| `Log.LogWriter.WithOffset` | src/log.rs:46-50 | The offset is the given one modulo the block size. |
| `Log.LogReader.Read` | src/log.rs:142-195 | Returns what the recursive reading of the rest of the source returns: a record, the end, or a failure. |
| `Log.LogReader.NextFragment` | src/log.rs:148-178 | Reads exactly one fragment, with the checksum compared if asked for. |
| `Log.ReadBack` | src/log.rs:142-195 | A written record reads back behind anything already collected and leaves what follows. |
| `Log.ReadReplaced` | src/log.rs:148-178 | A fragment whose data has been replaced by other data of the same length is refused if and only if checksums are compared and the new data has another one; otherwise the new data is read. |
| `KeyTypes.CmpIsOrder` | src/key_types.rs:155-178 | The memtable comparison is a total order on arbitrary byte strings. |
| `KeyTypes.CmpEntries` | src/key_types.rs:155-178 | On encoded entries it is user key ascending, sequence number descending. |
| `KeyTypes.CmpLookup` | src/key_types.rs:51-71 | The same between an entry and a lookup key. |
| `KeyTypes.ParseBuilt` | src/key_types.rs:106-152 | An encoded entry parses to its key, tag and value. |
| `KeyTypes.TagRoundTrip` | src/key_types.rs:90-99 | A tag gives back type and sequence number. |
| `WriteBatches.WriteBatch.Put` | src/write_batch.rs:37-48 | The batch's bytes encode one more operation, and the count in the header is theirs. |
| `WriteBatches.WriteBatch.Delete` | src/write_batch.rs:52-61 | The same for a deletion. |
| `WriteBatches.WriteBatch.Encode` | src/write_batch.rs:106-109 | The bytes of the log record with that sequence number. |
| `WriteBatches.WriteBatch.InsertIntoMemtable` | src/write_batch.rs:96-104 | Decoding the bytes adds exactly the operations, with consecutive sequence numbers, to a memtable. |
| `WriteBatches.OpsRoundTrip` | src/write_batch.rs:120-143 | Iterating over the encoding of any operations gives them back. |
| `WriteBatches.RecordRoundTrip` | src/db_impl.rs:254-281 | A log record decodes to its sequence number and batch. |
| `WriteBatches.LogHoldsBatches` | src/db_impl.rs:230-300 | Any sequence of batches, encoded and sent through the log, is read back by recovery as it was. |
| `WriteBatches.TornLogReads` | src/db_impl.rs:230-300 | For bytes: a log cut inside a batch's record reads as the batches before it; written on, as those, then the first new batch merged with the part before the cut, then the others. |
| `MemTables.MemTable.Add` | src/memtable.rs:39-42 | Adds exactly one version. |
| `MemTables.MemTable.Get` | src/memtable.rs:47-65 | A value if and only if the newest visible version is one, deleted if and only if it is a deletion, and neither if there is none. |
| `SkipMap.InnerSkipMap.Insert` | src/skipmap.rs:202-277 | For a new key and any height, the list holds exactly one more pair, at its place, and all links of all levels are right. |
| `SkipMap.InnerSkipMap.GetGreaterOrEqual` | src/skipmap.rs:122-161 | The lower bound. |
| `SkipMap.InnerSkipMap.GetNextSmaller` | src/skipmap.rs:165-200 | The strict predecessor, or none. |
| `SkipMap.InnerSkipMap.FindPrevs` | src/skipmap.rs:206-241 | The last node before the key, and on every level of the new node the last one that has that level. |
| `SkipMap.InnerSkipMap.LinkNew` | src/skipmap.rs:250-262 | Relinks exactly the recorded predecessors' links. |
| `SkipMap.InnerSkipMap.Attach` | src/skipmap.rs:243-277 | After it, every link of every level leads to the next node of that level. |
| `SkipMap.WalkIsLevel` | src/skipmap.rs:122-200 | Following the links of a level visits exactly the nodes of at least that height, in order: each level is a sublist of the one below. |
| `SkipMap.NextInserted` | src/skipmap.rs:243-277 | What inserting a node does to the successor of any node on any level. |
| `SkipMap.SkipMapIter.Advance` | src/skipmap.rs:306-322 | The next pair, or invalid. |
| `SkipMap.SkipMapIter.Prev` | src/skipmap.rs:349-365 | The previous pair, or invalid. |
| `SkipMap.SkipMapIter.Seek` | src/skipmap.rs:326-332 | The first pair not before the key, or invalid. |
| `SkipMap.SkipMapIter.Current` | src/skipmap.rs:336-348 | The pair, if valid. |
| `Block.BuildBlock` | src/block_builder.rs:55-119 | For ascending keys and any restart interval, the bytes are the layout of exactly the entries, with a restart after exactly every interval and every other entry without the longest prefix that it shares with the one before. |
| `Block.SeekBlock` | src/block.rs:259-293 | Over the bytes of a block, the first entry whose key is not less, or none; an empty first key is never found, and a search that begins at it finds nothing. |
| `Block.BlockBuilder.Add` | src/block_builder.rs:55-100 | The buffer is the layout of one more entry; restarts come after exactly every interval, and every other entry shares with the one before as much as it can. |
| `Block.AddCompresses` | src/block_builder.rs:55-100 | Adding an entry by these rules keeps restarts and shared prefixes as they must be. |
| `Block.BlockBuilder.SharedWithLast` | src/block_builder.rs:68-79 | The length of the longest common prefix with the previous key. |
| `Block.BlockBuilder.Finish` | src/block_builder.rs:102-119 | Entries, restart offsets and their number. |
| `Block.EntryParses` | src/block.rs:135-150 | Every entry of a layout parses at its position to its lengths, key part and value. |
| `Block.RestartAt` | src/block.rs:122-125 | The restart array holds the positions of the restart entries. |
| `Block.CountAt` | src/block.rs:100-102 | The last four bytes hold the number of restarts. |
| `Block.BlockIter.Advance` | src/block.rs:186-214 | One entry on, or invalid behind the last. |
| `Block.BlockIter.Prev` | src/block.rs:223-257 | One entry back from where the iterator last was, or invalid before the first. |
| `Block.BlockIter.Seek` | src/block.rs:259-293 | The first entry whose key is not less, or invalid, if and only if it is not the case that the first key is empty and less and the second restart's key is not less; then it stays on that entry. |
| `Block.BlockIter.Scan` | src/block.rs:287-292 | The linear search from a restart point: the first entry whose key is not less, except that an empty key ends it. |
| `Block.EmptyKeyHalts` | src/block.rs:259-293 | Blocks of an empty and another key, where a search for the other stays on the empty one. |
| `Block.BlockIter.FindRestart` | src/block.rs:264-282 | A restart point before which every key is less; its own key is less unless it is the first, and the next one's is not. |
| `Block.BlockIter.SeekToLast` | src/block.rs:165-182 | The last entry of a non-empty block, if and only if its last restart is not an empty first key, where the source panics. |
| `Block.BlockIter.SeekToRestartPoint` | src/block.rs:106-119 | The entry at the restart point; the source panics if and only if its key is empty. |
| `Block.BlockIter.ParseEntryAndAdvance` | src/block.rs:135-150 | The entry's lengths, its key part and its value, and the offset of the next. |
| `Block.BlockIter.AssembleKey` | src/block.rs:159-163 | The key is whole again. |
| `Block.BlockIter.Reset` | src/block.rs:216-221 | Before the first entry. |
| `Block.BlockIter.Current` | src/block.rs:295-309 | Key and value of the entry, if the iterator is on one and its key is not empty. |
| `Comparators.ShortestSepIs` | src/cmp.rs:39-89 | Strictly above the first key always, strictly below the second if and only if that is not the first with a zero byte appended, and then equal to it. |
| `Comparators.SepCut` | src/cmp.rs:44-62 | If some byte of the first key can be raised by one and stay below the second key's, the first such byte is raised and the rest cut off. |
| `Comparators.SepRaised` | src/cmp.rs:64-89 | Otherwise the last byte below 255 is raised if that gives a key below the second one, and else a zero byte is appended. |
| `Comparators.FindShortestSep` | src/cmp.rs:39-89 | The loops compute that separator, which is the string that the two lemmas above describe. |
| `Comparators.InternalSepIs` | src/cmp.rs:119-135 | Not before the first internal key and before the second, with a user key of its own or the first key's place, if and only if the two are not adjacent. Its user key is the separator of the user keys, with the highest sequence number if it is shorter than the first key and else with the first key's. |
| `Comparators.FindShortSucc` | src/cmp.rs:91-103 | Strictly above the key. |
| `Comparators.SuccCut` | src/cmp.rs:91-103 | The first byte below 255 is raised and the rest cut off. |
| `Comparators.SuccAppended` | src/cmp.rs:91-103 | If there is none, a byte 255 is appended. |
| `Comparators.InternalShortestSep` | src/cmp.rs:119-135 | The code computes that separator. |
| `Comparators.InternalShortSucc` | src/cmp.rs:137-141 | Strictly above the internal key. |
| `Table.TableBuilder.Add` | src/table_builder.rs:149-169 | The blocks and the pending one hold exactly the entries added; fails, with nothing changed, only where the source panics because the pending block cannot be closed. |
| `Table.TableBuilder.WriteDataBlock` | src/table_builder.rs:174-201 | The pending block is closed with the separator from the next key, if and only if its last user key is not empty (or the next is the same) and the separator is above the last index key. |
| `Table.TableBuilder.Finish` | src/table_builder.rs:227-284 | A table with exactly the entries added, or none where the last block cannot be closed. |
| `Table.SepIs` | src/table_builder.rs:174-201 | An index key is never before its block's last key, and separates it from the next block if and only if the boundary is not adjacent. |
| `Table.SepAscends` | src/table_builder.rs:174-201 | Behind a boundary that is not adjacent the next separator is above the last index key, so the block can be closed. |
| `Table.IndexFalls` | src/table_builder.rs:174-201 | An adjacent boundary behind which the next separator is not above the last index key. |
| `Table.IndexAscends` | src/table_builder.rs:174-201 | Without adjacent boundaries index keys lie before every later block. |
| `Table.SingleIs` | src/table_reader.rs:185-221 | A table of one block never gives up on a user key up to its last one. |
| `Table.TableIterator.Advance` | src/table_reader.rs:273-305 | The next entry, across blocks; invalid behind the last. |
| `Table.TableIterator.Seek` | src/table_reader.rs:309-327 | In any built table: the first entry not before the key, if and only if it is not the case that the key lies between a block's last key and its index key with a block behind although there is such an entry; there it is invalid. |
| `Table.TableIterator.SeekVersion` | src/table_reader.rs:309-327 | If the table has a version of the user key not above the sequence number: the newest such version, or invalid if the lookup key is in a gap. |
| `Table.HeldNotInGap` | src/table_reader.rs:309-327 | Without adjacent boundaries a lookup of a key with a visible version never falls into such a gap. |
| `Table.HeldIsRead` | src/table_reader.rs:185-221 | Outside gaps the filter lets a lookup of a key with a visible version through. |
| `Table.AdjacentMisses` | src/table_reader.rs:309-327 | A built table with an adjacent boundary in which a lookup misses a version that is there. |
| `Table.Get` | src/table_reader.rs:185-221 | The first entry not before the key; none if and only if there is none, the key is in a gap, the filter denies the block read, or the key has the place of a last key that serves as index key. |
| `Table.GetVersion` | src/table_reader.rs:185-221 | With a filter without false negatives, a user key with a visible version is found in its newest one, if and only if the lookup key is neither in a gap nor on a last key that serves as index key. |
| `Table.GapMisses` | src/table_reader.rs:309-327 | A built table and a key in a gap, with a first entry that the seek does not find. |
| `Table.SplitMisses` | src/table_reader.rs:190-196 | A built table with two versions of a key on both sides of a block boundary: a lookup at the newer one's number finds neither. |
| `Filters.BloomPolicy.CreateFilter` | src/filter.rs:125-154 | So many bits for each key, of which exactly those that the keys' probes ask for are set, and the number of probes. |
| `Filters.BloomPolicy.FilterMatches` | src/filter.rs:155-178 | A filter for keys matches every one of them. |
| `Filters.BloomPolicy.AddHash` | src/filter.rs:144-150 | Sets the bits of a hash's probes and no others. |
| `Filters.ProbeIs` | src/filter.rs:144-150 | The j-th probe is the hash plus j times the rotated hash, modulo the word size. |
| `Filters.RotatedIs` | src/filter.rs:145-146 | The upper 15 bits and the lower 17 change places. |
| `Filters.BloomPolicy.KeyMayMatch` | src/filter.rs:155-178 | True if and only if the filter is empty, has an unknown number of probes, or has all probed bits set; asked of every filter but one byte that asks for probes into no bits, where the source divides by zero. |
| `Filters.InternalFilterPolicy.CreateFilter` | src/filter.rs:201-210 | The filter of the user keys; every internal key matches. |
| `Filters.InternalFilterPolicy.KeyMayMatch` | src/filter.rs:212-214 | The answer for the user key. |
| `Filters.PiecesMore` | src/filter.rs:219-229 | Appending a key and its offset appends one piece. |
| `FilterBlocks.FilterBlockBuilder.AddKey` | src/filter_block.rs:56-59 | One more pending key. |
| `FilterBlocks.FilterBlockBuilder.StartBlock` | src/filter_block.rs:61-68 | As many slots as the offset's index; the first new one gets the pending keys, the others are empty. |
| `FilterBlocks.IndexIs` | src/filter_block.rs:11-16 | There is one slot for every 2048 bytes of offsets. |
| `FilterBlocks.FilterBlockBuilder.GenerateFilter` | src/filter_block.rs:70-81 | One more slot with the filter of the pending keys, or an empty one. |
| `FilterBlocks.FilterBlockBuilder.Finish` | src/filter_block.rs:83-104 | Pending keys get a slot; the bytes are filters, offsets and base. |
| `FilterBlocks.FilterBlockReader.OffsetOf` | src/filter_block.rs:141-144 | Where a filter starts, and behind the last one where it ends. |
| `FilterBlocks.FilterBlockReader.KeyMayMatch` | src/filter_block.rs:148-161 | The answer of the filter of the block offset's slot; reads in range; every key of the slot matches. |
| `FilterBlocks.BuildFilterBlock` | src/table_builder.rs:149-201 | For data blocks of any sizes, the keys of each are in the slot of the offset where it starts. |
| `FilterBlocks.AskBuilt` | src/filter_block.rs:148-161 | Any key asked at the offset of any non-empty block gets the answer of that block's filter; no false negatives: every key of the block matches. |
| `VersionEdits.Encode` | src/version_edit.rs:127-184 | Whatever the order of the deleted set, decoding gives back the edit with allowed seeks zeroed. |
| `VersionEdits.DecodeFrom` | src/version_edit.rs:186-294 | The loop computes the recursive decoding, with its failures. |
| `VersionEdits.ReadItemBack` | src/version_edit.rs:186-294 | Every item reads back with anything behind. |
| `VersionEdits.DecodedItem` | src/version_edit.rs:186-294 | An item in front of anything is applied first. |
| `VersionEdits.DecodedItems` | src/version_edit.rs:186-294 | Items in front of anything are applied first, in order. |
| `VersionEdits.TornEditFails` | src/version_edit.rs:186-294 | A leftover of one byte behind which an edit with a log number from 10 to 127 is an error. |
| `VersionEdits.BehindItems` | src/version_edit.rs:186-294 | An edit behind a leftover of whole items decodes as the two combined, and as itself if and only if it sets every counter that the leftover sets, deletes what that deletes, and the leftover has neither files nor compaction pointers. |
| `Caches.Cache.Insert` | src/cache.rs:199-210 | For any key: evicts the last key of the list if and only if the cache is full, which is then the least recently inserted or read one; all other values stay; list and map still agree if and only if the key was absent or was the one evicted; panics exactly if the map lacks the evicted key. |
| `Caches.Cache.Get` | src/cache.rs:214-222 | In any cache that insertions and reads can make: the value, if there; the key's node goes to the front and the others keep their order. If list and map agree they still do, and the key becomes the most recent one. |
| `Caches.Cache.Evict` | src/cache.rs:199-210 | Takes the last key, the least recent one, out of list and map. |
| `Caches.ConsistentIff` | src/cache.rs:199-210 | With a node for a key in front, list and map agree if and only if the key was absent. |
| `Caches.StaleKeyPanics` | src/cache.rs:199-210 | Four insertions, the first key twice, after which the source panics. |
| `Caches.LRUList.Insert` | src/cache.rs:32-66 | A new first node, with forward and backward links right. |
| `Caches.LRUList.RemoveLast` | src/cache.rs:68-84 | Removes and returns the last, or nothing from an empty list. |
| `Caches.LRUList.ReinsertFront` | src/cache.rs:106-136 | Moves the node to the front and keeps the order of the others. |
| `Caches.EvictConsistent` | src/cache.rs:199-210 | Without its last node the list agrees with the map without that node's key, and that key was the least recent. |
| `Caches.MoveConsistent` | src/cache.rs:214-222 | After moving a node to the front list, map and recency agree. |

## Left out

- Database.DB.CompactRange: the source carries the start key from one level to the next, so a lower part of the range may stay on a level below 0; the contract says from where on nothing is left.
- Database.DB.Run: follows a run up to the first flush that leaves the store out of order; what later steps do to such a store is not modelled. A memtable or a compaction output on which the table builder panics (`Table.TableBuilder.WriteDataBlock` says when) is written all the same.
- Database.DB.CompactMemtable: is likewise stated as if every memtable could be written to a table.
- Database.DB.Get: a compaction started by a read is left out.
- Database.DB.StartCompaction: live snapshots are not modelled, so the smallest sequence number to keep is always the last one; `CompactionWork` takes any.
- Table.TableBuilder.Add: fails where the source panics because a block cannot be closed, and says nothing of the builder after such a panic.
- Filters.BloomPolicy.CreateFilter: the hash is any function, and a filter whose number of bits does not fit 32 bits is not modelled.
- Filters.BloomPolicy.KeyMayMatch: a one-byte filter that holds a number from 1 to 30 is excluded, since the source divides by its zero bits.
- FilterBlocks.FilterBlockReader.KeyMayMatch: assumes, as assertions in the source do, that the slot exists with a key or lies past the one behind the last.
- FilterBlocks.AskBuilt: is stated for filters that together take less than 4 GiB, where the stored offsets fit.
- Block.BlockIter.Seek: is stated for blocks smaller than 4 GiB in which only the first key may be empty, as in any order with the empty key least.
- Log.RoundTrip: the checksum is any function of type and data; cuts inside a fragment are not modelled, and of corrupted bytes only a fragment's data (`Log.ReadReplaced`).
- SkipMap.InnerSkipMap.Insert: the random height is any from 1 to 12, and the key is new and not empty, as the source asserts.
- CrashSafety.AlwaysRecoverable: what a reader gets of an edit behind a leftover is any record or an error; `VersionEdits.BehindItems` and `VersionEdits.TornEditFails` say of bytes what it is. A manifest with an edit that cannot be read counts as missing.
- A file that is created starts empty: the source opens log, table and manifest files for writing without truncating them (src/disk_env.rs:56-65), so what an earlier file of the same number left behind the new contents is not modelled. The table cache takes a table's size from the file (src/table_cache.rs:69), so a shorter table under the number of an orphaned one would be read wrongly.
- VersionEdits.DecodeFrom: which byte strings are valid UTF-8 is a parameter.
- Failing writes, deletions and renames: every modelled run is free of I/O errors. In particular a failed compaction, whose deletions the source still installs, is left out.
- In the state machine of `Durability` a crash leaves any bytes of the first batch lost, which the fragments of a writer (`Log.CutData`) are a case of; cuts inside a fragment and bytes changed by a crash are not modelled. A merged record's count in the header is taken as the number of its operations, and where the source would panic at a length that goes beyond the record, the operations end.
- Snapshots: the list of live snapshots and its oldest element, which the source takes by handle.
- Reverse iteration over the merging, database and memtable iterators; the source says it may be wrong.
- `DBIterator::seek` and `MergingIter::seek`; scans start at the first entry.
- Choosing what to compact: scores, compaction pointers, seek counts and read samples are any choice, and so are output sizes and cut points.
- The byte and entry views of a table are separate but for its filter block: `Block` is about bytes, `Table` about blocks of entries, and the store about files of entries.
- Block handles, the footer, compression and the block and table caches' keys.
- `LRUList::remove`, `Cache::remove` and `BlockBuilder::reset`, which the modelled paths never call.
- The previous log number, which is always zero.
- Comparators other than the bytewise one in the store; `Block` and `SkipMap` take any order.
- Sequence numbers at or above 2^56 - 1.
- Environments, locking, the info log, statistics, the asynchronous interface and the example programs.
