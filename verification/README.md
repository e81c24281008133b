# A verified model of LevelDB and nanopb as meal-deals ships them

The iOS application under `meal-deals/` carries two libraries with state and
formats of their own: LevelDB 1.18 (`meal-deals/Pods/leveldb-library`), the
store that the Firebase client keeps its local data in, and nanopb 0.3.8
(`meal-deals/Pods/nanopb`), its protocol-buffer codec. This project models
both and proves that they keep what they promise, for all inputs, all runs and
all reachable states.

What is proved, from the outside in:

- **The store.** `DbImpl.dfy` is the store as one object. Whatever is written,
  flushed and snapshotted, and compacted and moved by safe choices, `Get`
  returns the last operation within the snapshot, and a new iterator's live map is exactly what the
  history says. `Versions`, `Overlaps`, `Flushes`, `Builders`, `Picking`,
  `Compactions`, `CompactionOrder`, `Outputs` and `Iterators` hold the parts;
  `Stretches` and `Boundaries` say exactly which compactions are safe.
  `Compact`, `TrivialMove` and `BackgroundCompaction` run every choice that
  the code can make, and say exactly when the store is valid afterwards.
- **Crashes.** `Disks` and `CrashSafety` are a transition system over logs,
  tables, manifests and CURRENT, with a crash after any step; acknowledged
  writes survive. `CrashCompactions` puts the compaction loop into it.
  `LogReplay` and `Manifests` connect its records and edits with bytes cut
  anywhere, and `TornLogs` shows what a failed append costs.
- **Concurrency.** `SkipLists` has one writer and any number of readers
  stepping between its single stores; `GroupCommit` has any number of writers
  in the queue.
- **Iterators.** `DbIter`, `Mergers`, `TwoLevels` and `Blocks` are cursors over
  the sequence each of them stands for, in both directions and with changes of
  direction; the database iterator runs over the merging one. `Tables`,
  `TableBlocks` and `Filters` are the lookup in one table, down to its blocks'
  bytes.
- **Formats.** `LogFormat`, `WriteBatches`, `VersionEdits`, `Varints` and
  `Coding` for LevelDB; `ProtoWire`, `NanoPb`, `NanoPbDecode` and
  `NanoPbDecoder` for nanopb.
- **The block cache.** `LruCache`, with its list, its hash table and its
  reference counts.

Methods follow the source's own control flow and are proved against
specification functions; the lemmas are about those functions.

`dafny verify dfyconfig.toml` checks everything.

## Conventions

- User keys of the store are real numbers: the rank of the key under the user
  comparator. `Bytewise.RankEmbedsOrder` gives the ranks for the default
  comparator; `TableBlocks.KeyRankEmbeds`, for encoded internal keys.
- A mutex region, a single pointer store and a single file operation are one
  step each. Unlocked stretches (logging, syncing, inserting, building tables)
  are steps of their own.
- Sequence numbers stay below `kMaxSequenceNumber` (2^56 - 1), as the format
  requires.
- The disk: a synced file keeps its synced part; any prefix of the rest, or of
  a table nothing, may survive. Renaming over CURRENT is atomic and durable. A
  log in which an append failed halfway may lose anything behind that place.
- nanopb descriptors: distinct tags in 1..2^29 - 1; texts NUL-terminated;
  messages shorter than 2^32 bytes.
- Hash functions and the floating-point part of bloom sizing (the number of
  probes) are parameters. The log checksum is CRC32C, section 12.1 of RFC 3720,
  bit by bit instead of by tables.

## Findings

Where the code does not do what one would expect of it, the model keeps the
code as it is, and the lemmas say for which inputs and exactly when.

| what | input | exactly when | members |
|---|---|---|---|
| A trivial move of one file of a level above 0 can put newer data of a user key below older data of it, so that lookups return the older one. | Level 1 = a file with only (k, 2) followed by a file with only (k, 1); the first is moved. | The next file of the level goes on with the moved file's last user key. | Picking.TrivialMoveSafeIff, Picking.MoveReadsStale, Boundaries.MoveOfSplitKey |
| A merging compaction from a level above 0 can let a deleted key come back, or order versions wrongly. | Level 1 = (k, 5); level 2 = a file with (k, 3) and the deletion (l, 4), followed by a file with the value (l, 2); the first file of level 2 is merged, its marker dropped, and l has a value again. | The upper inputs end inside a user key that is not dropped for good, or the inputs of either level end inside a user key whose dropped marker covered the next file's value. | Boundaries.SafeChoiceIff, Boundaries.MergeSafeIff, Boundaries.DeletedKeyComesBack |
| A write with sync that returned OK can be lost in a crash. | One append to the log fails halfway, which the code reports and forgets; a later write is appended behind the torn record, synced and told OK. | A write in the same log was torn before; without that, told and durable are the same. | TornLogs.ToldWriteIsLost, TornLogs.UntornRunsKeepWhatTheyTell, LogFormat.TornRecordSwallows |
| A store whose very first manifest was never synced may not open after a crash. | A crash right after the store was created, which leaves nothing of the manifest. | Nothing of the current manifest has been synced before the crash; nothing has been acknowledged then. | CrashSafety.NewStoreMayNotOpen, CrashSafety.OpensIff, CrashSafety.AcknowledgedWritesSurvive |
| Manifest replay and live process differ if a file number is used again. | Over one file, an edit deletes it and the next one adds another file under its number. | The edit adds a number that was deleted on the level and belongs to a file, of the base or added before, that is not the one added. | Builders.ReusedNumberDiffers, Builders.ReplayStepIff |
| A manifest record cut at the end of a field decodes without an error. | Any proper prefix that ends with a field. | The cut is at the end of a field. | VersionEdits.TornRecord |
| `VersionEdit::Clear` keeps the compaction pointers, so decoding into a used object appends to them. | Decoding twice into one object. | The object had compaction pointers. | VersionEdits.EditRoundTrip |
| nanopb writes a text that it cannot read back. | A text that fills its buffer without a NUL. | The text is as long as the buffer. | NanoPbDecode.TextRestoredIff |
| In `pb_decode` the required-field check shifts by 32, or reads behind its record of 64 fields. | A descriptor with 32 required fields, all of them in the message. | The number of required fields is a non-zero multiple of 32 or at least 64, and of those in whole words of the record none is missing. So it may happen for a descriptor if and only if the number is neither 0 nor below 64 and no multiple of 32. | NanoPbDecoder.Required32Undefined, NanoPbDecoder.RequiredPresent, NanoPbDecoder.CheckDefinedIff |

Some comments of the source are not exact, and the model follows the code: moving
backwards, DBIter's internal iterator need not stand *just* before the current
key's entries (entries newer than the snapshot may lie between); and nanopb
takes a field key cut short at the end of a stream for the end of the message.
In a message type without fields, nanopb takes a key with tag zero for the
field at the end of its table and fails, where other types skip it as unknown.
And since the log reader gives its own results "end" and "bad record" the type
codes 5 and 6, a whole record of type 5 in a file ends the reading quietly, and
one of type 6 is passed over without a report; the model reads them so.

## Model

| member | source | states |
|---|---|---|
| DbImpl.DB.Get | meal-deals/Pods/leveldb-library/db/db_impl.cc:1077-1122 | After any mix of writes, switches, flushes, compactions, moves and snapshots: the value returned at a live snapshot (or at the last sequence number) is that of the last operation on the key within it in the history of all writes, and nothing if that was a deletion or there was none. |
| DbImpl.DB.Write | meal-deals/Pods/leveldb-library/db/db_impl.cc:1162-1233 | A batch that is logged takes the next consecutive sequence numbers, in order; one that cannot be logged uses up as many numbers, adds nothing to the memtable and changes no read. Either way every invariant of the store is kept. |
| DbImpl.DB.Add | meal-deals/Pods/leveldb-library/db/memtable.cc:82-106 | An operation enters the memtable under the next sequence number and is appended to the history. |
| DbImpl.DB.CompactMemTable | meal-deals/Pods/leveldb-library/db/db_impl.cc:503-534 | The immutable memtable becomes a table on the level that the version picks; the store holds the same entries as before, the version is in order, and an empty memtable makes no table. |
| DbImpl.DB.Compact | meal-deals/Pods/leveldb-library/db/db_impl.cc:834-1033 | For every choice of inputs that the code can make: what is installed is exactly the survivors of the merged input in place of the inputs, by the oldest live snapshot; and the store is valid afterwards, so that it is in order and no live reader can tell, if and only if the choice is safe in the sense of Boundaries.SafeChoice. |
| DbImpl.DB.BackgroundCompaction | meal-deals/Pods/leveldb-library/db/db_impl.cc:655-738 | Flushes the immutable memtable if there is one; else does what a manual request, if a file of its level meets its range, or the version asks for, and otherwise nothing: moves a single picked file that has nothing to be merged with, or merges the chosen inputs. Flushing keeps the store valid and its entries; a move keeps its entries, and leaves it valid if and only if the file's last user key ends with it; a merge leaves it valid if and only if the choice is safe. |
| DbImpl.DB.TrivialMove | meal-deals/Pods/leveldb-library/db/db_impl.cc:681-704 | Moving one picked file down a level, under its number, always keeps exactly the entries of the store, and leaves it valid if and only if, above level 0, the next file of the level does not go on with the file's last user key. |
| DbImpl.DB.NewIterator | meal-deals/Pods/leveldb-library/db/db_impl.cc:1035-1064 | The database iterator runs over a merging iterator whose children hold every entry of the store exactly once, and its live map pairs a key with a value exactly when the last operation on the key within the snapshot put that value. |
| DbImpl.DB.GetSnapshot | meal-deals/Pods/leveldb-library/db/db_impl.cc:1143-1146 | A snapshot is the last sequence number, and becomes the newest in the list of live ones. |
| DbImpl.DB.ReleaseSnapshot | meal-deals/Pods/leveldb-library/db/db_impl.cc:1148-1151 | Releasing takes exactly that snapshot out of the list and keeps the others in order. |
| Bytewise.RankEmbedsOrder | meal-deals/Pods/leveldb-library/util/comparator.cc:25-27 | Byte strings are ordered, and told apart, exactly as their ranks are; so user keys may be treated as ordered numbers. |
| Versions.FindFile | meal-deals/Pods/leveldb-library/db/version_set.cc:77-96 | Binary search finds the first file of a sorted level whose largest key is at or after the target. |
| Versions.LevelZeroGet | meal-deals/Pods/leveldb-library/db/version_set.cc:345-365 | Searching the level-0 files that cover a user key, newest first, and stopping at the first hit answers as all of level 0 does. |
| Versions.Get | meal-deals/Pods/leveldb-library/db/version_set.cc:323-420 | Level 0 newest first, then one binary-searched file a level, stopping at the first hit, gives the newest entry for the key within the snapshot over the whole version. |
| Overlaps.PickLevelForMemTableOutput | meal-deals/Pods/leveldb-library/db/version_set.cc:493-519 | The level is at most 2, and if it is not 0 then no file on it or above it meets the range of user keys. |
| Flushes.FlushKeepsVersionValid | meal-deals/Pods/leveldb-library/db/db_impl.cc:457-501 | A flushed table that is newer than the version, put on such a level, leaves every level in order and shallower data newer, and adds exactly its entries. |
| Overlaps.SomeFileOverlapsRange | meal-deals/Pods/leveldb-library/db/version_set.cc:112-144 | True exactly when some file of the level meets the range of user keys, by scan for overlapping files and by binary search for sorted ones, with either bound possibly absent. |
| Overlaps.GetOverlappingInputs | meal-deals/Pods/leveldb-library/db/version_set.cc:522-563 | Terminates despite its restarts. Above level 0 the result is exactly the files that meet the range asked for; on level 0, exactly the files that a chain of overlapping files leads to from it, and their range is the one the search ended with. |
| Overlaps.InputsAreReachable | meal-deals/Pods/leveldb-library/db/version_set.cc:522-563 | Whenever a range has grown by overlapping files only, until it contains all files that meet it, those files are exactly the ones that chains of overlap lead to. |
| Overlaps.LeftOutSharesNothing | meal-deals/Pods/leveldb-library/db/version_set.cc:522-563 | A level-0 file that is left out shares no user key with any file of the result. |
| Compactions.Compaction.IsBaseLevelForKey | meal-deals/Pods/leveldb-library/db/version_set.cc:1434-1453 | For keys asked in increasing order, the level pointers that only move forward give the exact answer: no file two or more levels down covers the key. |
| Compactions.DoCompactionWork | meal-deals/Pods/leveldb-library/db/db_impl.cc:855-1000 | However output files are cut, their concatenation is the input without the entries hidden by a newer one within the smallest snapshot and without the deletion markers within it that have no data below; no output is empty. |
| Compactions.DroppingPreservesReads | meal-deals/Pods/leveldb-library/db/db_impl.cc:912-940 | Leaving out entries that a newer one within the smallest snapshot hides, or markers with nothing older left, changes no read at that snapshot or later. |
| Compactions.CompactionPreservesReads | meal-deals/Pods/leveldb-library/db/db_impl.cc:868-940 | For inputs that share no user key with what is left out on their levels: every key reads the same over all levels, and under any newer data, before and after, at every snapshot from the smallest on. |
| CompactionOrder.CompactionKeepsVersionValid | meal-deals/Pods/leveldb-library/db/db_impl.cc:834-853 | For such inputs the installed version is again valid: sorted disjoint levels, and shallower data newer for every user key. |
| Outputs.MergeInputs | meal-deals/Pods/leveldb-library/db/version_set.cc:1210-1241 | The compaction input is the sorted sequence of exactly the entries of the input files. |
| Outputs.OutputsAreValid | meal-deals/Pods/leveldb-library/db/db_impl.cc:757-832 | Cutting the kept entries into non-empty pieces gives valid, ordered, disjoint files that hold exactly the survivors. |
| Boundaries.SafeChoiceIff | meal-deals/Pods/leveldb-library/db/version_set.cc:1243-1362 | For every choice that the code can make: the merged and installed version is valid, and unseen by every reader from the smallest snapshot on, if and only if the choice is safe at the files where its inputs end inside a user key. |
| Boundaries.MergeSafeIff | meal-deals/Pods/leveldb-library/db/db_impl.cc:855-1000 | The same, spelled out for the two right-hand boundaries: the upper inputs may end inside a user key only if the loop drops that key for good and the next file does not hold a value that a dropped marker covered; the lower inputs, only under the second condition. |
| Boundaries.VersionValidIff | meal-deals/Pods/leveldb-library/db/version_set.cc:1258-1265 | The version after a merge is valid if and only if the upper inputs do not end inside a user key, or that key vanishes as an obsolete marker. |
| Boundaries.ReadsKeptIff | meal-deals/Pods/leveldb-library/db/db_impl.cc:912-940 | No reader from the smallest snapshot on can tell if and only if at neither boundary a dropped marker uncovers the value that the next file holds for its key. |
| Boundaries.ClosedIsSafe | meal-deals/Pods/leveldb-library/db/version_set.cc:1297-1362 | Inputs that share no user key with what is left out on their levels are always a safe choice. |
| Boundaries.UnseenChoiceIff | meal-deals/Pods/leveldb-library/db/db_impl.cc:912-940 | Readers alone ask for less: no reader from the smallest snapshot on can tell if and only if no dropped marker uncovers a value of the file behind the inputs, on either level. |
| Stretches.MeetingFilesAreStretch | meal-deals/Pods/leveldb-library/db/version_set.cc:522-563 | The files of a sorted level that meet a range of user keys are consecutive, so they have one right-hand boundary. |
| Stretches.FirstOfRangeIsStretch | meal-deals/Pods/leveldb-library/db/version_set.cc:1374-1390 | So are the first few of them, which is what a manual compaction takes at once. |
| Boundaries.MoveOfSplitKey | meal-deals/Pods/leveldb-library/db/version_set.cc:1417-1425 | Two neighbours of level 1, the second going on with the only user key of the first: moving the first down makes a valid version invalid. |
| Boundaries.SplitKeyExists | meal-deals/Pods/leveldb-library/db/version_set.cc:1417-1425 | Such a version exists. |
| Boundaries.DeletedKeyComesBack | meal-deals/Pods/leveldb-library/db/version_set.cc:1258-1265 | A concrete merge of level 1 whose lower inputs end inside a deleted key: the key has no value before, and its old value after. |
| Boundaries.GuardedExists | meal-deals/Pods/leveldb-library/db/version_set.cc:1258-1265 | Such a version and merge exist. |
| Picking.GetRange | meal-deals/Pods/leveldb-library/db/version_set.cc:1176-1199 | The smallest and the largest user key of the files, each attained. |
| Picking.PickCompaction | meal-deals/Pods/leveldb-library/db/version_set.cc:1243-1295 | The picked file is the first of the level behind the place where its last compaction stopped, or else the first of all, or the one with too many seeks, and is among the inputs; on level 0 the inputs share no user key with the other files, above it they stand side by side; the lower inputs are exactly the files that meet their range. That is all that DB.Compact asks for. |
| Picking.CompactRange | meal-deals/Pods/leveldb-library/db/version_set.cc:1364-1397 | The same for a manual compaction, which finds something to do exactly when some file of the level meets the range. |
| Picking.Shorten | meal-deals/Pods/leveldb-library/db/version_set.cc:1378-1390 | As many of the files as reach the size limit, and no file more. |
| Picking.IsTrivialMove | meal-deals/Pods/leveldb-library/db/version_set.cc:1417-1425 | Exactly: one upper input, no lower one, and not too many bytes two levels down that meet it. |
| Picking.SingleIsPickedAlone | meal-deals/Pods/leveldb-library/db/version_set.cc:1417-1425 | A single upper input without lower ones meets no file of the next level, and on level 0 shares no user key with another one. |
| Picking.SetupOtherInputs | meal-deals/Pods/leveldb-library/db/version_set.cc:1297-1362 | From any selection of a level: the upper inputs, possibly expanded, contain it, and are again one, consecutive files above level 0 and sharing no user key with the rest on level 0; the lower inputs are exactly the files of the next level that meet the range of the upper ones. |
| Picking.InputsClosedIff | meal-deals/Pods/leveldb-library/db/version_set.cc:1297-1362 | The inputs share no user key with the rest of their levels if and only if neighbours that the choice separates have different user keys on either side; whole overlap chains take care of level 0. |
| Picking.TrivialMoveSafeIff | meal-deals/Pods/leveldb-library/db/version_set.cc:1417-1425 | Moving a picked file down leaves a valid version if and only if, above level 0, the next file of its own level does not go on with its last user key. |
| Picking.MoveReadsStale | meal-deals/Pods/leveldb-library/db/version_set.cc:1258-1265 | Otherwise, in every such version, a lookup at the snapshot of the moved file's last entry stops on the level it came from at an older entry, while the newer one waits below. |
| Picking.MoveIsSafe | meal-deals/Pods/leveldb-library/db/db_impl.cc:681-704 | The move that DB.TrivialMove makes keeps the version valid and its contents the same, on level 0 as well. |
| Builders.SaveLevel | meal-deals/Pods/leveldb-library/db/version_set.cc:702-747 | Merging base and added files lists, by smallest key and number, exactly the files of both whose numbers are not deleted. |
| Builders.Builder.Apply | meal-deals/Pods/leveldb-library/db/version_set.cc:656-699 | An edit's deletions and then its additions take effect on every level; an addition cancels an earlier deletion of its number. |
| Builders.Builder.SaveTo | meal-deals/Pods/leveldb-library/db/version_set.cc:702-747 | Every level of the saved version is the base level with the deletions and the additions. |
| Builders.ReplayStepIff | meal-deals/Pods/leveldb-library/db/version_set.cc:656-747 | One more edit keeps a single builder and a process that saves a version for every edit in step if and only if the edit does not add, under the number of another file that was deleted on the level, a different file. |
| Builders.ReusedNumberDiffers | meal-deals/Pods/leveldb-library/db/version_set.cc:656-699 | A file is deleted and another one added under its number: the live process then has the new one, a replay of the two edits both. |
| Builders.ReplayEqualsLive | meal-deals/Pods/leveldb-library/db/version_set.cc:915-995 | When a number is added to a level at most once, applying any list of edits to one builder and saving once gives the files that the live process had after saving a version for every edit. |
| Builders.SnapshotThenReplay | meal-deals/Pods/leveldb-library/db/version_set.cc:1054-1082 | The first record of a new manifest, which lists every file, gives the current version back under whatever edits follow it. |
| Builders.RecoveredListsEqualLive | meal-deals/Pods/leveldb-library/db/version_set.cc:984-1000 | The recovered list of a level is the live one, file by file in the same order. |
| Manifests.Recover | meal-deals/Pods/leveldb-library/db/version_set.cc:896-1009 | Recovery from a manifest's bytes succeeds if and only if nothing in it is reported, every record decodes, the comparator's name is right, and the log, next-file and last-sequence numbers are all given; it then lists exactly the files left in one builder over the empty version, and the latest numbers. |
| Manifests.CutManifestReads | meal-deals/Pods/leveldb-library/db/version_set.cc:811-894 | Any list of edits, encoded, framed as log records and cut at any byte, reads back as exactly the edits written whole. |
| Manifests.RecoveredIsLive | meal-deals/Pods/leveldb-library/db/version_set.cc:811-1009 | So what recovery lists, level by level, is what the live process had after those edits. |
| DbIter.LiveMapMeaning | meal-deals/Pods/leveldb-library/db/db_iter.cc:40-60 | The map that the iterator walks has strictly increasing keys and holds exactly the pairs that readers at its sequence number see. |
| DbIter.IterationAgreesWithHistory | meal-deals/Pods/leveldb-library/db/db_iter.cc:40-60 | Over a store that agrees with a history, it pairs a key with a value exactly when the last operation on the key within the snapshot put that value. |
| DbIter.DBIter.Next | meal-deals/Pods/leveldb-library/db/db_iter.cc:146-171 | In either direction: one position further in the live map, or not valid behind its last. |
| DbIter.DBIter.FindNextUserEntry | meal-deals/Pods/leveldb-library/db/db_iter.cc:173-203 | Stands at the first acceptable entry from here on: a value within the snapshot, newest of its key, with a key past the skipped one; if there is none, it is not valid. |
| DbIter.DBIter.Prev | meal-deals/Pods/leveldb-library/db/db_iter.cc:205-230 | In either direction: one position back in the live map, or not valid before its first. |
| DbIter.DBIter.FindPrevUserEntry | meal-deals/Pods/leveldb-library/db/db_iter.cc:232-272 | Stands at the last entry before here that the live map holds, with key and value saved; if there is none, it is not valid. |
| DbIter.DBIter.Seek | meal-deals/Pods/leveldb-library/db/db_iter.cc:274-286 | The first position whose key is at or after the target, or not valid if there is none. |
| DbIter.DBIter.SeekToFirst | meal-deals/Pods/leveldb-library/db/db_iter.cc:288-297 | The first position of the live map, or not valid if it is empty. |
| DbIter.DBIter.SeekToLast | meal-deals/Pods/leveldb-library/db/db_iter.cc:299-305 | The last position of the live map, or not valid if it is empty. |
| DbIter.DBIter.Key | meal-deals/Pods/leveldb-library/db/db_iter.cc:66-69 | In either direction, the key of the current position. |
| DbIter.DBIter.CurrentValue | meal-deals/Pods/leveldb-library/db/db_iter.cc:70-73 | In either direction, the value of the current position. |
| Iterators.ChildrenApart | meal-deals/Pods/leveldb-library/db/version_set.cc:225-242 | The memtables, the level-0 files and one concatenation for every deeper level that has files are sorted runs, no two of which share an entry, and together they hold the whole store. |
| Mergers.MergingIterator.Seek | meal-deals/Pods/leveldb-library/table/merger.cc:51-57 | The place of the first entry of the merged sequence at or after the target. |
| Mergers.MergingIterator.SeekToFirst | meal-deals/Pods/leveldb-library/table/merger.cc:35-41 | The first place. |
| Mergers.MergingIterator.SeekToLast | meal-deals/Pods/leveldb-library/table/merger.cc:43-49 | The last place. |
| Mergers.MergingIterator.Next | meal-deals/Pods/leveldb-library/table/merger.cc:59-83 | The next place of the merged sequence, also when the last move went backwards. |
| Mergers.MergingIterator.Prev | meal-deals/Pods/leveldb-library/table/merger.cc:85-111 | The place before, also when the last move went forward; not valid before the first. |
| TwoLevels.TwoLevelIterator.Seek | meal-deals/Pods/leveldb-library/table/two_level_iterator.cc:91-96 | The place of the first entry of the concatenated blocks at or after the target, with empty blocks anywhere. |
| TwoLevels.TwoLevelIterator.SeekToFirst | meal-deals/Pods/leveldb-library/table/two_level_iterator.cc:98-103 | The first place. |
| TwoLevels.TwoLevelIterator.SeekToLast | meal-deals/Pods/leveldb-library/table/two_level_iterator.cc:105-110 | The last place. |
| TwoLevels.TwoLevelIterator.Next | meal-deals/Pods/leveldb-library/table/two_level_iterator.cc:112-116 | The next place, across empty blocks. |
| TwoLevels.TwoLevelIterator.Prev | meal-deals/Pods/leveldb-library/table/two_level_iterator.cc:118-123 | The place before, across empty blocks; not valid before the first. |
| Tables.FindShortestSeparator | meal-deals/Pods/leveldb-library/util/comparator.cc:29-51 | The start itself, or a string no longer than it that is strictly after it and strictly before the limit. |
| Tables.FindShortSuccessor | meal-deals/Pods/leveldb-library/util/comparator.cc:53-65 | The key itself, or a string no longer than it and strictly after it. |
| Tables.SeparatorOf | meal-deals/Pods/leveldb-library/db/dbformat.cc:68-85 | The index key between two blocks: the last key before, or a key whose user key is strictly between the two user keys. |
| Tables.TableBuilder.Add | meal-deals/Pods/leveldb-library/table/table_builder.cc:92-121 | Records in increasing order go into blocks cut anywhere; every finished index key separates its block from the next. |
| Tables.TableBuilder.Finish | meal-deals/Pods/leveldb-library/table/table_builder.cc:199-254 | The blocks together hold exactly the records added, and every block, the last one too, has an index key that is at or after its last key and before the next block. |
| Tables.IndexSeparates | meal-deals/Pods/leveldb-library/table/table_builder.cc:92-137 | The index keys are at or after everything in their block and before everything in later blocks, as the two-level iterator needs. |
| Tables.TableGetIsRunGet | meal-deals/Pods/leveldb-library/table/table.cc:226-255 | Looking in the one block that the index names answers as a search of the whole table does. |
| TableBlocks.KeyRankEmbeds | meal-deals/Pods/leveldb-library/db/dbformat.cc:50-66 | Encoded internal keys are ordered by user key and then by falling tag; the order embeds in the reals, which the block iterator's comparator stands for. |
| TableBlocks.WriteBlock | meal-deals/Pods/leveldb-library/table/block_builder.cc:63-107 | A block of records, written with any restart interval, holds the encoded keys and values of exactly those records. |
| TableBlocks.InternalGet | meal-deals/Pods/leveldb-library/table/table.cc:226-255 | Down to the bytes of the index block and the data block, and with a filter that has no false negatives: the answer is that of a search of the whole table. |
| Blocks.BlockBuilder.Add | meal-deals/Pods/leveldb-library/table/block_builder.cc:73-107 | The pair is appended to the block's pairs, sharing a prefix of its key with the one before, or starting a restart point. |
| Blocks.BlockBuilder.Finish | meal-deals/Pods/leveldb-library/table/block_builder.cc:63-71 | The contents are laid out as the pairs, the restart array and its length. |
| Blocks.ReadAll | meal-deals/Pods/leveldb-library/table/block.cc:139-143 | Iterating a finished block gives back the pairs it was built from, in order. |
| Blocks.BlockIter.Seek | meal-deals/Pods/leveldb-library/table/block.cc:165-203 | Binary search over the restart points and a scan: the first pair at or after the target, or not valid. |
| Blocks.BlockIter.Next | meal-deals/Pods/leveldb-library/table/block.cc:139-142 | The next pair; behind the last, not valid. |
| Blocks.BlockIter.Prev | meal-deals/Pods/leveldb-library/table/block.cc:144-163 | The pair before, found from a restart point; before the first, not valid. So Prev undoes Next. |
| Blocks.BlockIter.SeekToFirst | meal-deals/Pods/leveldb-library/table/block.cc:205-208 | The first pair. |
| Blocks.BlockIter.SeekToLast | meal-deals/Pods/leveldb-library/table/block.cc:210-215 | The last pair. |
| Filters.BloomFilterPolicy.CreateFilter | meal-deals/Pods/leveldb-library/util/bloom.cc:35-61 | Whatever keys a filter is made of, it matches each of them; what was in the buffer before stays. |
| Filters.BloomFilterPolicy.KeyMayMatch | meal-deals/Pods/leveldb-library/util/bloom.cc:63-87 | Exactly whether all probes of the key's hash are set, with the short filter and the reserved probe counts answered as the code does. |
| Filters.FilterBlockBuilder.Finish | meal-deals/Pods/leveldb-library/table/filter_block.cc:36-50 | For non-decreasing block offsets and any keys, the reader over the finished block answers "may match" for every key at its own block's offset, with several blocks sharing a filter and with empty filters in between. |
| Filters.ReaderFinds | meal-deals/Pods/leveldb-library/table/filter_block.cc:95-109 | From the trailer, the offset array and the filter's limits the reader finds the filter of the key's block, and it matches. |
| SkipLists.RunKeepsInv | meal-deals/Pods/leveldb-library/db/skiplist.h:336-370 | After every single pointer store of an insertion, with any readers at any point of their searches, every level is a sorted list that links exactly the nodes that have reached it. |
| SkipLists.LevelIsSublist | meal-deals/Pods/leveldb-library/db/skiplist.h:336-370 | Every level is a sorted sublist of the level below. |
| SkipLists.SearchFindsEarlierInserts | meal-deals/Pods/leveldb-library/db/skiplist.h:261-302 | A search that steps at any time between the stores of concurrent insertions ends at the node of its target if that was linked before it began, and never past a node that was. |
| SkipLists.FinishedSearchIsExact | meal-deals/Pods/leveldb-library/db/skiplist.h:261-302 | A search that has ended stands just before the first node that is not before its target at that moment. |
| SkipLists.SkipList.FindGreaterOrEqual | meal-deals/Pods/leveldb-library/db/skiplist.h:261-282 | The first key at or after the target, and on every level the last node before it. |
| SkipLists.SkipList.FindLessThan | meal-deals/Pods/leveldb-library/db/skiplist.h:284-302 | The last key before the target, or the head. |
| SkipLists.SkipList.FindLast | meal-deals/Pods/leveldb-library/db/skiplist.h:304-322 | The last key of the list, or the head. |
| SkipLists.SkipList.Insert | meal-deals/Pods/leveldb-library/db/skiplist.h:336-370 | The set of keys gains exactly the new key, for any height; nodes that were there keep their keys; the list height rises to the new node's. |
| SkipLists.SkipList.Contains | meal-deals/Pods/leveldb-library/db/skiplist.h:372-380 | Exactly whether the key is in the list. |
| SkipLists.Iterator.Next | meal-deals/Pods/leveldb-library/db/skiplist.h:207-211 | The least key above the current one, or the end. |
| SkipLists.Iterator.Prev | meal-deals/Pods/leveldb-library/db/skiplist.h:213-222 | The greatest key below the current one, or the end. |
| SkipLists.PrevUndoesNext | meal-deals/Pods/leveldb-library/db/skiplist.h:207-222 | Prev after Next is back at the same key. |
| GroupCommit.WriteQueue.BuildBatchGroup | meal-deals/Pods/leveldb-library/db/db_impl.cc:1237-1282 | The group is the longest run from the head of the queue that the size and sync rules allow; the leader's batch carries exactly its operations in order, in a copy when there is more than one. |
| GroupCommit.GroupIsBounded | meal-deals/Pods/leveldb-library/db/db_impl.cc:1242-1262 | There is only one such run; no writer in it asks for a sync unless its leader does; its size stays within the bound unless the first batch alone exceeds it. |
| GroupCommit.WriteQueue.CompleteGroup | meal-deals/Pods/leveldb-library/db/db_impl.cc:1215-1230 | Exactly the writers of the group leave the queue with the group's outcome. |
| GroupCommit.RunKeepsInv | meal-deals/Pods/leveldb-library/db/db_impl.cc:1162-1282 | In every interleaving of arrivals, group building, logging, syncing, inserting and failing at any of them, the queue, the groups and the numbers stay consistent. |
| GroupCommit.EveryArrivalIsKept | meal-deals/Pods/leveldb-library/db/db_impl.cc:1162-1180 | Every writer that ever arrived is in exactly one group or still in the queue, in order of arrival. |
| GroupCommit.BatchesCommitOnceInOrder | meal-deals/Pods/leveldb-library/db/db_impl.cc:1162-1233 | Groups, and writers in them, are in order of arrival, and no writer is in two places. |
| GroupCommit.RangesAreConsecutive | meal-deals/Pods/leveldb-library/db/db_impl.cc:1186-1213 | Groups take disjoint ranges of sequence numbers, one right behind the other. |
| GroupCommit.OkMeansCommitted | meal-deals/Pods/leveldb-library/db/db_impl.cc:1162-1233 | A writer that was told OK is in a group that succeeded: its operations are in the memtable under its own consecutive numbers, its group's record is whole in the log, and durable if it asked for a sync. |
| GroupCommit.SyncIsHonoured | meal-deals/Pods/leveldb-library/db/db_impl.cc:1195-1212 | No writer that asked for a sync rides behind a leader that did not, and after a failed sync no group succeeds. |
| CrashSafety.RunKeepsInv | meal-deals/Pods/leveldb-library/db/db_impl.cc:218-272 | Whatever is appended, synced, switched, built, installed, moved, deleted, failed, crashed or reopened, in any order: every table and every log that any manifest which may survive still needs is on the disk, and synced as far as it must be. |
| CrashSafety.AcknowledgedWritesSurvive | meal-deals/Pods/leveldb-library/db/db_impl.cc:274-455 | For every run and every crash: the store opens unless its manifest has nothing in it, and then nothing was acknowledged; what is recovered, together with the entries that compactions left out, contains every write acknowledged with a sync and nothing that was never written; and at the recovered last sequence every key reads as it does from all of that. |
| CrashSafety.OpensIff | meal-deals/Pods/leveldb-library/db/db_impl.cc:177-205 | Whatever a crash leaves, the store opens again, if and only if some of its current manifest had been synced before. |
| CrashSafety.NewStoreMayNotOpen | meal-deals/Pods/leveldb-library/db/db_impl.cc:177-205 | A new store crashes, its manifest is lost whole, and it does not open. |
| CrashSafety.NothingDroppedNothingLost | meal-deals/Pods/leveldb-library/db/db_impl.cc:274-455 | As long as no compaction has left anything out, every acknowledged entry itself comes back. |
| CrashSafety.NewestAcknowledgedIsRead | meal-deals/Pods/leveldb-library/db/db_impl.cc:274-455 | An acknowledged write with no newer surviving one for its key is what a reader finds after the crash: no acknowledged write is superseded by older data, and no dropped marker lets an old value come back. |
| CrashSafety.NewNumbersAreNew | meal-deals/Pods/leveldb-library/db/db_impl.cc:313-359 | A running store numbers new writes above everything it holds, will recover, or ever left out. |
| Disks.CrashKeepsDisk | meal-deals/Pods/leveldb-library/db/version_set.cc:811-894 | What a crash leaves of a recoverable disk, any synced part and any of the rest, is recoverable. |
| Disks.OpeningRecovers | meal-deals/Pods/leveldb-library/db/db_impl.cc:274-360 | Opening a recoverable disk gives back the acknowledged writes, up to what compactions left out, and a last sequence that is not below any recovered number. |
| CrashCompactions.CompactionMayBeBuilt | meal-deals/Pods/leveldb-library/db/db_impl.cc:855-1033 | For every choice of inputs that the code can make: the outputs of the compaction loop are outputs that the crash system admits if and only if no reader from the smallest snapshot on can tell, in the sense of Boundaries.UnseenChoice. |
| CrashCompactions.CompactionStaysOnDisk | meal-deals/Pods/leveldb-library/db/db_impl.cc:834-853 | When its edit is installed, the live tables on the disk are those of the compacted version. |
| TornLogs.UntornRunsKeepWhatTheyTell | meal-deals/Pods/leveldb-library/db/db_impl.cc:1162-1233 | As long as no append fails halfway, every synced write that was told OK is acknowledged in the sense of the crash theorem. |
| TornLogs.BehindTheTear | meal-deals/Pods/leveldb-library/db/db_impl.cc:1186-1200 | A log with a failed append in it may lose everything behind, however well it is synced, and nothing before. |
| TornLogs.ToldWriteIsLost | meal-deals/Pods/leveldb-library/db/db_impl.cc:1186-1200 | A concrete run: an append fails halfway, a later synced write is told OK, the store crashes and opens without it. |
| LogFormat.PrefixRoundTrip | meal-deals/Pods/leveldb-library/db/log_reader.cc:59-164 | Whatever prefix of a log's bytes survives, reading it gives exactly the records wholly within it, and reports nothing. |
| LogFormat.RoundTrip | meal-deals/Pods/leveldb-library/db/log_reader.cc:59-164 | Any list of records of any lengths reads back as written, and nothing is reported. |
| LogFormat.TornRecordSwallows | meal-deals/Pods/leveldb-library/db/log_reader.cc:181-263 | A record cut short inside a block, with bytes behind it that do not fill its length, makes the reader stop quietly: what stands behind is not read. |
| LogFormat.Writer.AddRecord | meal-deals/Pods/leveldb-library/db/log_writer.cc:27-73 | The file is the encoding of the records so far and the new one, fragmented at block ends, with block trailers of less than a header filled with zeros. |
| LogFormat.Reader.ReadRecord | meal-deals/Pods/leveldb-library/db/log_reader.cc:59-164 | For whatever bytes: the record, the position and the number of reports are those of the specification that the round trips are about. |
| LogFormat.Reader.ReadPhysicalRecord | meal-deals/Pods/leveldb-library/db/log_reader.cc:181-263 | For whatever bytes: the fragment, its type, the position and the reports, including end of file, bad length, bad checksum and zero type. |
| Crc32c.ExtendInTwo | meal-deals/Pods/leveldb-library/util/crc32c.h:14-24 | Extending the checksum of a by b is the checksum of a followed by b. |
| Crc32c.MaskRoundTrip | meal-deals/Pods/leveldb-library/util/crc32c.h:31-40 | Unmasking a masked checksum gives it back. |
| LogReplay.RecoverLogFile | meal-deals/Pods/leveldb-library/db/db_impl.cc:362-455 | Replaying a log's bytes inserts, for every record in order, its batch's changes under consecutive numbers from the batch's own; records too short for a header are skipped, and a faulty batch gives what precedes its fault. |
| LogReplay.CutLogReplays | meal-deals/Pods/leveldb-library/db/db_impl.cc:362-455 | Wherever a log of batches is cut, replaying it inserts exactly the operations of the batches written whole, each under its own number. |
| LogReplay.CutIsPrefixOfRecords | meal-deals/Pods/leveldb-library/db/db_impl.cc:362-455 | So a cut behind the synced bytes is what the disk model lets a crash do: a prefix of the records with the synced ones in it, holding exactly what is replayed. |
| WriteBatches.BatchReads | meal-deals/Pods/leveldb-library/db/write_batch.cc:42-80 | A batch reads back as the changes put in it. |
| WriteBatches.TornBatchRefused | meal-deals/Pods/leveldb-library/db/write_batch.cc:42-80 | Every proper prefix of a batch is refused, after giving the handler a proper prefix of the changes, if there are any. |
| WriteBatches.WriteBatch.Append | meal-deals/Pods/leveldb-library/db/write_batch.cc:141-146 | The changes of the other batch follow the own ones, also when a batch is appended to itself. |
| WriteBatches.WriteBatch.Put | meal-deals/Pods/leveldb-library/db/write_batch.cc:98-103 | The bytes stay those of the changes so far, and of the new one. |
| WriteBatches.WriteBatch.Delete | meal-deals/Pods/leveldb-library/db/write_batch.cc:105-109 | The bytes stay those of the changes so far, and of the new one. |
| WriteBatches.WriteBatch.Iterate | meal-deals/Pods/leveldb-library/db/write_batch.cc:42-80 | For whatever bytes: the handler gets the changes up to the first fault, which is the one reported. |
| WriteBatches.WriteBatch.InsertInto | meal-deals/Pods/leveldb-library/db/write_batch.cc:128-134 | The changes enter the memtable under consecutive sequence numbers from the batch's own. |
| VersionEdits.EditRoundTrip | meal-deals/Pods/leveldb-library/db/version_edit.cc:41-210 | An encoded edit decodes without a fault into the same edit, behind the compaction pointers that the decoding object already had. |
| VersionEdits.TornRecord | meal-deals/Pods/leveldb-library/db/version_edit.cc:109-210 | A record cut anywhere decodes to the fields wholly within it, and is refused if and only if the cut is inside a field. |
| VersionEdits.VersionEdit.EncodeTo | meal-deals/Pods/leveldb-library/db/version_edit.cc:41-86 | The bytes of the edit are appended, field by field in the code's order. |
| VersionEdits.VersionEdit.DecodeFrom | meal-deals/Pods/leveldb-library/db/version_edit.cc:109-210 | For whatever bytes: the edit takes on the fields up to the first fault, which is the one reported; from the bytes of an edit, a new object takes on that edit. |
| Varints.VarintRoundTrip | meal-deals/Pods/leveldb-library/util/coding.cc:47-170 | A number within the width is read back with exactly its bytes used, whatever follows. |
| Varints.TornVarint | meal-deals/Pods/leveldb-library/util/coding.cc:112-170 | Every proper prefix of a varint is refused. |
| Varints.SliceReads | meal-deals/Pods/leveldb-library/util/coding.cc:172-192 | A length-prefixed slice is read back, whatever follows. |
| Coding.Fixed64RoundTrip | meal-deals/Pods/leveldb-library/util/coding.cc:9-33 | A 64-bit number, least significant byte first, is read back. |
| LruCache.RunKeepsConsistent | meal-deals/Pods/leveldb-library/util/cache.cc:186-265 | Over every run of permitted calls: table and list hold the same entries, the references of an entry are the handles outstanding plus one if it is cached, usage is the total charge of unfreed entries, and what is freed stays freed. |
| LruCache.FreedExactlyOnce | meal-deals/Pods/leveldb-library/util/cache.cc:186-194 | An entry has been freed at most once, and exactly when it is neither cached nor held by a caller. |
| LruCache.TrimmedMeaning | meal-deals/Pods/leveldb-library/util/cache.cc:248-253 | Eviction takes oldest entries first, and only as long as the usage is over the capacity and anything is cached. |
| LruCache.LRUCache.Insert | meal-deals/Pods/leveldb-library/util/cache.cc:225-256 | A new entry with two references is cached as the newest, one of the same key leaves the cache, and then the cache is trimmed. |
| LruCache.LRUCache.Lookup | meal-deals/Pods/leveldb-library/util/cache.cc:209-218 | The entry of the key, with one reference more and now the newest; or none. |
| LruCache.LRUCache.Release | meal-deals/Pods/leveldb-library/util/cache.cc:220-223 | One reference less; with the last the entry is freed and its charge leaves the usage. |
| LruCache.LRUCache.Erase | meal-deals/Pods/leveldb-library/util/cache.cc:258-265 | The entry of the key leaves table and list and loses the cache's reference; other entries stay. |
| LruCache.LRUCache.Destroy | meal-deals/Pods/leveldb-library/util/cache.cc:177-184 | With no handle outstanding, at the end every entry ever made has been freed exactly once. |
| LruCache.HandleTable.Insert | meal-deals/Pods/leveldb-library/util/cache.cc:62-76 | The map gains the entry under its key, the one it replaces is returned, and the table grows when there are more entries than buckets. |
| LruCache.HandleTable.Remove | meal-deals/Pods/leveldb-library/util/cache.cc:78-86 | The map loses the key, and its entry is returned. |
| LruCache.HandleTable.Lookup | meal-deals/Pods/leveldb-library/util/cache.cc:58-60 | The entry of the key in the map, or none. |
| LruCache.HandleTable.Resize | meal-deals/Pods/leveldb-library/util/cache.cc:107-130 | Moving every chain into a longer bucket array keeps the map, and leaves at least as many buckets as entries. |
| LruCache.LruList.Remove | meal-deals/Pods/leveldb-library/util/cache.cc:196-199 | Unlinking takes the entry, and no other, out of the circular list. |
| LruCache.LruList.Append | meal-deals/Pods/leveldb-library/util/cache.cc:201-207 | Linking before the head makes the entry the newest. |
| LruCache.MaskIsRemainder | meal-deals/Pods/leveldb-library/util/cache.cc:95-103 | For a bucket count that is a power of two, masking a hash is taking its remainder. |
| NanoPbDecoder.EncodeThenDecode | meal-deals/Pods/nanopb/pb_decode.c:852-967 | For every descriptor and message that can be stored: encoding succeeds exactly when the encoding exists and fits the buffer, and decoding the bytes then, if it is defined, succeeds, restores the message, and leaves no byte unread. It is defined when every descriptor in it can be checked; and when those of its parts can, exactly when its own can. |
| NanoPbDecode.RoundTrip | meal-deals/Pods/nanopb/pb_decode.c:852-953 | The same on the specification of the two, through every nesting depth. |
| NanoPbDecode.TextRestoredIff | meal-deals/Pods/nanopb/pb_decode.c:1299-1332 | A text with a NUL within its buffer comes back; one that fills the buffer without a NUL is written and cannot be read: it is restored if and only if its text is shorter than the buffer. |
| NanoPbDecode.NumberRoundTrip | meal-deals/Pods/nanopb/pb_decode.c:1165-1248 | Signed, unsigned and zigzag numbers of 1 to 8 bytes come back through their 64-bit varints when they fit the field. |
| NanoPb.Encode | meal-deals/Pods/nanopb/pb_encode.c:451-473 | Succeeds exactly when the message has an encoding and, unless the stream only counts, there is room for it; the stream then gains exactly those bytes, or counts exactly as many. |
| NanoPb.EncodeSubmessage | meal-deals/Pods/nanopb/pb_encode.c:600-648 | The same for a nested message behind its length: the counting pass finds exactly the number of bytes that the second pass writes, so the error for a changed size never occurs. |
| NanoPb.GetEncodedSize | meal-deals/Pods/nanopb/pb_encode.c:480-489 | The size is exactly the length of the encoding, or none if there is no encoding. |
| NanoPb.EncodeArray | meal-deals/Pods/nanopb/pb_encode.c:116-201 | Packed arrays announce exactly the length that follows, also where the code multiplies instead of counting; other arrays write a tag for every element; more items than the maximum are refused. |
| NanoPb.EncodeField | meal-deals/Pods/nanopb/pb_encode.c:271-349 | Required, has_-optional, repeated and oneof fields write their bytes exactly when present. |
| ProtoWire.EncodeVarint | meal-deals/Pods/nanopb/pb_encode.c:494-514 | Writes exactly the bytes of the varint if there is room for them, and fails otherwise. |
| ProtoWire.DecodeVarint | meal-deals/Pods/nanopb/pb_decode.c:173-229 | For whatever bytes: the number and the bytes used, or where reading broke off. |
| NanoPbDecoder.MakeSubstream | meal-deals/Pods/nanopb/pb_decode.c:322-335 | The substream is exactly the announced bytes, if they are there. |
| NanoPbDecoder.DecodeValue | meal-deals/Pods/nanopb/pb_decode.c:1165-1379 | For whatever bytes: succeeds exactly when the value can be read, gives it, and stands right behind it; bytes, texts and submessages stay within their length. |
| NanoPbDecoder.DecodeField | meal-deals/Pods/nanopb/pb_decode.c:356-429 | For whatever bytes: the field's slot after reading, with packed and unpacked elements and the has_ and which_ marks, or failure exactly as specified. |
| NanoPbDecoder.DecodeTag | meal-deals/Pods/nanopb/pb_decode.c:252-275 | The next key, or how the message ends: at a zero, or where the stream ends, even inside the key; anything else is an error. |
| NanoPbDecoder.FindField | meal-deals/Pods/nanopb/pb_common.c:78-95 | The circular search finds a field with the tag from any start, or comes back to the start when there is none; the required-field index stays right. In an empty table it finds the end entry for tag zero. |
| NanoPbDecoder.RequiredPresent | meal-deals/Pods/nanopb/pb_decode.c:928-947 | The check over 32-bit words is undefined exactly when it comes to a shift by 32 or behind the record: when the count is a non-zero multiple of 32 or at least 64 and no field in the whole words is missing. Otherwise its verdict says whether every required field was seen. |
| NanoPbDecoder.CheckDefinedIff | meal-deals/Pods/nanopb/pb_decode.c:936-947 | The check is defined whatever was seen if and only if the count of required fields is 0, or below 64 and no multiple of 32. |
| NanoPbDecoder.Required32Undefined | meal-deals/Pods/nanopb/pb_decode.c:936-947 | A descriptor with 32 required fields, all of them seen, for which it is not defined. |
| NanoPbDecoder.Decode | meal-deals/Pods/nanopb/pb_decode.c:852-967 | For whatever bytes and whatever descriptor: unless the check of required fields is undefined, decoding succeeds exactly when they are a message of the descriptor, and gives the specified slots and position; and it is defined when every descriptor in it can be checked, and for a message whose parts can be, only then. |

## Left out

- The user interface, Firebase and the platform layer (`env_posix.cc`, `port_*`, loggers, memory barriers).
- Snappy compression, the lookup tables of `crc32c.cc`, table footers, metaindex blocks and the encoding of block handles: `TableBlocks.InternalGet` takes the blocks' contents by handle.
- Corrupted tables and blocks: the readers of logs, batches, edits and nanopb messages are modelled for whatever bytes, the block and table readers for blocks that the builder made. Corrupt internal keys do not occur in `DbIter`.
- A memtable flush in the middle of a running compaction: in `DbImpl` a compaction is one step. In `CrashSafety` its building, its edit and its installation are separate steps, without a flush in between.
- Seek statistics, compaction scores, compaction pointers being stored, and when background work is scheduled; compactions and moves happen at any time. A manual request is one call, not a loop over its range.
- `repair.cc`, `dumpfile.cc`, `c.cc`, benchmarks and tools.
- Reading a log from an initial offset, and `LastRecordOffset`; paranoid checks during recovery.
- Sharding of the cache by hash bits, and its capacity being changed while in use. Handles are numbered afresh for every insertion.
- nanopb pointer fields, callbacks, extensions, and proto3 singular fields without `has_`.
- DbImpl.DB.NewIterator: the iterator's view of the store is a value; keeping memtables and versions alive by reference counts is not modelled. The children of its merging iterator are positions in sorted runs; that a two-level iterator moves like one is `TwoLevels`, but the children are not objects of that class.
- NanoPbDecoder.Decode: when the check of required fields is undefined, nothing is said about what comes after; inside nested messages, that it is undefined is bounded from one side only.
- LogReplay.RecoverLogFile: gives what is inserted, in order; cutting the replayed memtable into several level-0 tables is a step of `CrashSafety`. The maximal sequence number is the business of `CrashSafety.NewNumbersAreNew`.
- Manifests.Recover: the tables behind the file numbers are given; that they are on the disk is the business of `CrashSafety`.
- Filters.FilterBlockBuilder.Finish: for filter blocks whose offsets fit into 32 bits, as the format requires.
- SkipLists.SkipList.Insert: heights are given rather than drawn at random.
