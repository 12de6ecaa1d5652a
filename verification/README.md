# Verified models of the LevelDB engine and the nanopb codec

The application bundles two components whose correctness is not obvious from reading them: the LevelDB
storage engine (`ios/Pods/leveldb-library`) and the nanopb Protocol Buffers codec (`ios/Pods/nanopb`).
This project models both in Dafny and proves what they are for. `dafny verify dfyconfig.toml` checks all
of it.

## The storage engine

LevelDB is a log-structured store: writers queue up and commit in groups, a write goes to a log and a
memtable, full memtables become tables, and one background thread merges tables and deletes what is
obsolete, while readers go on with whatever they have pinned.

- `Entries` says what a key is worth at a sequence number: the newest entry at or below it decides.
  Everything else is measured against that.
- `DbFormat` has internal keys and their order, `DbIter` the iterator that walks over them in both
  directions. The iterator is a class whose two kinds of scan are loops over a raw iterator; its methods
  are proved to behave as a cursor over the map that is visible at its sequence number.
- `Compaction` says which entries a merge may drop, and exactly when readers cannot tell. `CompactionJob`
  is the merging loop itself, with its output files and the positions kept for `IsBaseLevelForKey`.
- `Versions` has tables, levels and what keeps a search through them correct; `VersionEdits` shows what
  flushes, repeated flushes and compactions do to that. `FileMetas` has the lists of file metadata that the
  program keeps for a version. `VersionGet` is `Version::Get` over these lists with its binary search,
  `Picking` is `PickCompaction` with everything it calls. `Picks` says, in terms of tables, what has been
  picked then, and when that is safe.
- `Engine` is the whole engine as a state machine. A step is one critical section between taking and
  releasing the mutex, or one action that runs with the mutex released: appending to the log, one
  insertion into the memtable, writing a table, appending to the manifest. Steps of the writer at the head
  of the queue, of readers, of the background thread, of garbage collection, and crashes followed by
  recovery come in any order. An installation may fail at any point, with or without its edit in the
  manifest, and the background thread goes on as far as the program does. `EngineInv` has the invariant,
  section by section; `EngineSteps`, `EngineBackground` and `EngineRecovery` show that every step keeps it;
  `EngineTheorems` draws the conclusions for all runs. `EngineVisibility` says which writes a read sees, with a
  snapshot and without one, `EngineErrors` that nothing is written after an error.
- `WriteQueue`, `DbImpl` and `Recovery` are methods of the program next to the state machine: the queue of
  writers with `BuildBatchGroup`, scheduling and `MakeRoomForWrite`, `DeleteObsoleteFiles`, and the loops
  that read logs back. `EngineWriters` runs queue and engine together; `Control` is a small machine that
  both the methods of `DbImpl.Db` and, by `EngineControl`, the steps of the engine move; `CompactionStep`
  and `Recovery` turn what the loops compute into steps of the engine. `EngineReaders` is `DBImpl::Get`, and
  what an iterator of a running engine walks over.

The history of a database is part of the model: everything inserted, everything acknowledged, everything
that reached a log, and in which groups. The invariant splits it by sequence numbers into what the tables
stand for, what the immutable memtable holds and what the memtable holds, each backed by its log. A table
whose installation failed may be in the manifest all the same, and the memtable may then be written and
installed once more under another number; the manifest's version is therefore followed apart from the
current one, with the tables that only it has.

## The codec

nanopb encodes and decodes C structures as tables of field descriptors tell it.

- `Wire` is the wire level: base-128 varints with their 32-bit and 64-bit decoders, zigzag, tags, length
  prefixes, skipping.
- `PbMessage` has descriptors and messages. A message is what memory holds at the addresses that the
  descriptor assigns to its fields; `PbFieldIter` is the circular iterator that computes them step by step.
- `PbEncode` and `PbDecode` say which bytes a message has and which message a byte string gives. They are
  functions of the whole input.
- `PbEncodeStream` and `PbDecodeStream` are the program: streams as classes over a buffer and a position,
  a sizing pass and a writing pass, substreams, the decoding loop with its bit map. Each method is proved to
  do what those functions say, to stay within its stream, and to terminate.
- `PbRoundTrip`, `PbReencode`, `PbMerge`, `PbNested` and `PbRequired` prove the laws: round trips in both
  directions, merging at every depth, unknown fields, framing, required fields. `PbLayout` says which bytes a value, a field and a message have, in
  numbers, so that the round trips cannot hold for another format.

## What turned out differently

Four statements are false of the code as it stands. In each case the exact condition, or the exact
behaviour, is proved instead.

- *The inputs of a compaction* (`db_impl.cc:954-966`). The comment relies on older entries of the key being
  in the compaction or nowhere. `SetupOtherInputs` adds files that share a boundary key on the upper input
  level only (`version_set.cc:1407` and `1422`), not on the output level, and `IsBaseLevelForKey` looks two
  levels below. `Picks.LowerSafeIff` has the exact condition: what stays in the output level is never older
  than the inputs if and only if no file that stays there begins with the user key on which a picked one
  ends. `BoundaryLeftBehind` has a version that meets every other requirement and on which the only possible
  choice of inputs brings a deleted key back. The statements about runs are about runs whose compactions
  leave no such file behind; a caller could check that before `Engine.CompBegin`.
- *A snapshot at the largest sequence number.* `last_sequence_for_key` starts at 2^56-1, which a
  `smallest_snapshot` of that value reads as "hidden", and everything is dropped
  (`CompactionJob.MaxSnapshotDropsEverything`). The claims about the loop ask for a smaller bound.
- *The iterator's own comment* (`db_iter.cc:46-47`) says that while moving backwards the raw iterator stands
  just before all entries of the current key. It may stand further back, behind entries too new to be seen.
  `DbIter.DBIter.Inv` says exactly where it is.
- *Merging* (`pb_decode.h:70-80`). If the first message ends in a zero tag, the second is never looked at.
  `PbMerge.ConcatenationIsMerging` has the equivalence.

## Model

| member | source | states |
|---|---|---|
| `Coding.DecodePutFixed` | `ios/Pods/leveldb-library/util/coding.cc:9-33` | decoding a fixed-width little-endian word gives back the number that was put |
| `Coding.PutDecodeFixed` | `ios/Pods/leveldb-library/util/coding.cc:9-33` | putting a decoded word gives back its bytes, so the two are inverse |
| `Coding.FixedBytes` | `ios/Pods/leveldb-library/util/coding.cc:9-33` | byte i of a 32-bit or 64-bit word is the value divided by 256^i, modulo 256 |
| `DbFormat.BytewiseIsTotalOrder` | `ios/Pods/leveldb-library/util/comparator.cc:25-27` | the default user comparator is a total order in which only equal keys compare equal |
| `DbFormat.BytewiseIsLexicographic` | `ios/Pods/leveldb-library/util/comparator.cc:25-27` | the first byte in which two keys differ decides, and a proper prefix comes first |
| `DbFormat.ParseEncode` | `ios/Pods/leveldb-library/db/dbformat.h:165-175` | parsing an appended internal key returns the same user key, sequence number (up to 2^56-1) and type |
| `DbFormat.EncodeParse` | `ios/Pods/leveldb-library/db/dbformat.cc:14-23` | a byte string that parses is the encoding of what it parses to: append and parse are inverse in both directions |
| `DbFormat.InternalKeyBytes` | `ios/Pods/leveldb-library/db/dbformat.cc:14-23` | an internal key is the user key, one byte for the type (0 a deletion, 1 a value) and the sequence number in seven bytes, low byte first |
| `DbFormat.CompareIsBefore` | `ios/Pods/leveldb-library/db/dbformat.cc:51-67` | comparing encodings is: user key ascending, then sequence descending, then type descending |
| `DbFormat.InternalCompareIsTotalOrder` | `ios/Pods/leveldb-library/db/dbformat.cc:51-67` | given a total user order, the internal comparison is a total order and equal only for equal bytes |
| `DbFormat.SeekKeyPrecedesVisible` | `ios/Pods/leveldb-library/db/dbformat.h:53-59` | the seek key (k, s) is at or before exactly the entries with a larger user key or with key k and sequence at most s |
| `DbFormat.SeparatorIs` | `ios/Pods/leveldb-library/util/comparator.cc:29-50` | the separator keeps the common prefix and adds one to the first differing byte if that still leaves it below the other key's, and is the whole start key otherwise |
| `DbFormat.SuccessorIs` | `ios/Pods/leveldb-library/util/comparator.cc:52-64` | the successor adds one to the first byte that is not 0xff and ends there, and is the whole key if there is none |
| `DbFormat.FindShortestSeparator` | `ios/Pods/leveldb-library/util/comparator.cc:29-50` | the shortest separator: it changes exactly if the first differing byte leaves room, and then lies strictly between start and limit; never longer |
| `DbFormat.FindShortSuccessor` | `ios/Pods/leveldb-library/util/comparator.cc:52-64` | the short successor: it changes exactly if some byte can be incremented, and then lies after the key; never longer |
| `DbFormat.KeyBuffer.AppendInternalKey` | `ios/Pods/leveldb-library/db/dbformat.cc:20-23` | appends exactly the encoding to what the buffer held |
| `DbFormat.KeyBuffer.ShortenTo` | `ios/Pods/leveldb-library/db/dbformat.cc:69-86` | an index separator: a shorter user key with the earliest trailer, at or after the old key and before limit in internal-key order; otherwise no change |
| `DbFormat.KeyBuffer.ShortenUp` | `ios/Pods/leveldb-library/db/dbformat.cc:88-101` | an index successor: a shorter user key with the earliest trailer, after the old key in internal-key order; otherwise no change |
| `Entries.NewestExists` | `ios/Pods/leveldb-library/db/db_impl.cc:1100-1145` | among finitely many entries with a visible one of the key there is a newest visible one |
| `Entries.LookupIs` | `ios/Pods/leveldb-library/db/db_impl.cc:1100-1145` | with distinct sequence numbers per key, what a lookup returns is decided by that newest visible entry |
| `Entries.LookupDependsOnVisible` | `ios/Pods/leveldb-library/db/db_impl.cc:1100-1145` | a lookup at sequence s depends only on the entries of the key at or below s |
| `Entries.LayeredGetIsLookup` | `ios/Pods/leveldb-library/db/db_impl.cc:1117-1132` | searching layer by layer and stopping at the first hit equals a lookup in the union, if wherever the search may stand, of the keys met so far nothing newer is missing |
| `Compaction.DropsInvisibleIff` | `ios/Pods/leveldb-library/db/db_impl.cc:951-967` | dropping hidden entries and obsolete deletion markers is invisible to every reader at or above smallest_snapshot if and only if no dropped marker uncovers an older value outside the inputs |
| `Compaction.CompactionPreservesMeaning` | `ios/Pods/leveldb-library/db/db_impl.cc:956-965` | under the three assumptions that the comment at the drop makes, no reader at or above smallest_snapshot can tell |
| `Compaction.NothingElseIsKept` | `ios/Pods/leveldb-library/db/db_impl.cc:941-967` | everything above smallest_snapshot is kept; at or below it, of each key, at most the newest entry, and not even that if it is a deletion marker of a base-level key |
| `CompactionJob.BaseLevelCursor.AdvanceLevel` | `ios/Pods/leveldb-library/db/version_set.cc:1537-1548` | one level's position moves forward only, and the answer is whether any file of the level covers the key |
| `CompactionJob.BaseLevelCursor.IsBaseLevelForKey` | `ios/Pods/leveldb-library/db/version_set.cc:1533-1551` | true exactly if no file of the levels below covers the key, although the positions never move back |
| `CompactionJob.DropIsNotKept` | `ios/Pods/leveldb-library/db/db_impl.cc:941-967` | the loop's one-entry look-back drops an entry exactly if the set-wise definition does |
| `CompactionJob.LoopKeepsKept` | `ios/Pods/leveldb-library/db/db_impl.cc:906-1004` | over sorted input the loop keeps exactly the kept set, in strictly increasing internal-key order |
| `CompactionJob.LoopDropsEnough` | `ios/Pods/leveldb-library/db/db_impl.cc:941-967` | of what the loop puts out, behind an entry at or below smallest_snapshot no further one has its key, and such an entry of a base-level key is a value |
| `CompactionJob.MaxSnapshotDropsEverything` | `ios/Pods/leveldb-library/db/db_impl.cc:943-951` | at smallest_snapshot 2^56-1 the mark for "first occurrence" reads as a hiding entry and everything is dropped: why the claims ask for less |
| `CompactionJob.CompactionState.OpenCompactionOutputFile` | `ios/Pods/leveldb-library/db/db_impl.cc:786-809` | a fresh number is pending before the file is created, and the outputs so far are unchanged |
| `CompactionJob.CompactionState.Add` | `ios/Pods/leveldb-library/db/db_impl.cc:980-985` | appends the entry to the current output and keeps its recorded bounds the true ones |
| `CompactionJob.CompactionState.ShouldDrop` | `ios/Pods/leveldb-library/db/db_impl.cc:941-967` | the drop decision for the i-th entry |
| `CompactionJob.CompactionState.ProcessEntry` | `ios/Pods/leveldb-library/db/db_impl.cc:920-1003` | one round: the outputs grow by the entry exactly if it is kept, or an error is reported |
| `CompactionJob.CompactionState.DoCompactionWork` | `ios/Pods/leveldb-library/db/db_impl.cc:906-1043` | if an edit results, the whole input was consumed and the concatenated outputs are exactly the kept entries, each output with its true bounds; if none results, they are a prefix of that; an error is recorded exactly if there is no edit |
| `Picking.GetRange` | `ios/Pods/leveldb-library/db/version_set.cc:1205-1227` | the smallest of the first keys and the largest of the last keys of the files |
| `Picking.GetOverlappingInputs` | `ios/Pods/leveldb-library/db/version_set.cc:519-559` | exactly the files whose user keys reach into the range; at level 0 the range first grows, without a gap, until no gathered file reaches beyond it; the restarts end |
| `Picking.FindLargestKey` | `ios/Pods/leveldb-library/db/version_set.cc:1326-1340` | the largest last key, or nothing for no files |
| `Picking.FindSmallestBoundaryFile` | `ios/Pods/leveldb-library/db/version_set.cc:1344-1362` | of the files that begin behind the key with the same user key one with the smallest first key, or nothing exactly if there is none |
| `Picking.AddBoundaryInputs` | `ios/Pods/leveldb-library/db/version_set.cc:1378-1401` | appends one after the other the smallest boundary file of the bound so far, until the last bound has none; this ends |
| `Picking.BoundariesComplete` | `ios/Pods/leveldb-library/db/version_set.cc:1364-1401` | after that no file of the level that stays begins with a user key of the inputs behind them, whatever lies beside them stays beside them, and at level 0 nothing was added |
| `Picking.VersionSet.SetupOtherInputs` | `ios/Pods/leveldb-library/db/version_set.cc:1403-1462` | the given files are completed by boundary files; the output-level inputs are exactly the files that these overlap; the choice grows to all upper files in its whole range exactly if that is more files, less than 50 MB in all, and overlaps no further file; the result is picked: closed in the upper level and without gaps; the compaction pointer becomes the largest upper key; the grandparents are exactly the files that overlap |
| `Picking.VersionSet.FirstFile` | `ios/Pods/leveldb-library/db/version_set.cc:1285-1297` | the first file that ends behind the compaction pointer, or else the first file of the level |
| `Picking.VersionSet.PickCompaction` | `ios/Pods/leveldb-library/db/version_set.cc:1270-1322` | a compaction exactly if a level is too large or a file was sought too often, in that order; it begins with the file whose turn it is, at level 0 with everything that overlaps it, and goes on as SetupOtherInputs says; its inputs are picked; only its own level's pointer moves, to the largest upper key |
| `Picks.UpperPickedIsSafe` | `ios/Pods/leveldb-library/db/version_set.cc:1364-1377` | of a key of the picked files of the upper level no older entry stays behind there |
| `Picks.LowerSafeIff` | `ios/Pods/leveldb-library/db/version_set.cc:1403-1411` | for picked inputs: what stays in the output level is never older than an input of the same key if and only if no file that stays begins with the user key on which a picked one ends |
| `Picks.PickedIsGood` | `ios/Pods/leveldb-library/db/version_set.cc:1270-1462` | picked inputs that leave no such file behind are safe to merge: nothing older stays in either level, no key declared base-level has an entry further down, and the files that stay lie wholly before or behind |
| `BoundaryLeftBehind.GoodBefore` | `ios/Pods/leveldb-library/db/version_set.cc:1364-1377` | a version with a deletion marker at the end of one output-level file and an older value of its key at the beginning of the next is well formed: ordered, without overlaps, with every entry ever written |
| `BoundaryLeftBehind.MetasDescribe` | `ios/Pods/leveldb-library/db/version_set.cc:1403-1411` | file lists with true smallest and largest keys that stand for this version |
| `BoundaryLeftBehind.ThePick` | `ios/Pods/leveldb-library/db/version_set.cc:1403-1411` | from its level 0 there is exactly one way to pick: it takes the file with the marker and leaves the file with the value |
| `BoundaryLeftBehind.BoundaryStays` | `ios/Pods/leveldb-library/db/version_set.cc:1533-1551` | so a boundary file is left behind, while no file further down covers any key |
| `BoundaryLeftBehind.DeletedKeyReturns` | `ios/Pods/leveldb-library/db/db_impl.cc:951-967` | the compaction drops the marker, and a read of the deleted key, which found nothing before, finds the old value afterwards |
| `CompactionStep.BaseIsNoFileCovers` | `ios/Pods/leveldb-library/db/version_set.cc:1533-1551` | no table two and more levels below spans the key exactly if the cursor over the file lists finds that no file covers it |
| `CompactionStep.LowerRangesSorted` | `ios/Pods/leveldb-library/db/version_set.cc:1533-1551` | the lower levels' file lists are in the order on which the cursor relies |
| `CompactionStep.PickIsEngineStep` | `ios/Pods/leveldb-library/db/db_impl.cc:700-745` | picked inputs that leave no boundary file behind are what the engine's compaction may begin with |
| `VersionGet.FindFile` | `ios/Pods/leveldb-library/db/version_set.cc:88-108` | binary search for the first file that does not end before the key |
| `VersionGet.TableGet` | `ios/Pods/leveldb-library/db/version_set.cc:261-281` | the first entry at or behind the seek key has the user key exactly if the table has a visible entry of it, and is then the newest |
| `VersionGet.OneFileOfLevel` | `ios/Pods/leveldb-library/db/version_set.cc:356-371` | of a level without overlaps the one file that the binary search finds answers like the whole level |
| `VersionGet.Get` | `ios/Pods/leveldb-library/db/version_set.cc:326-420` | level-0 files whose range has the key, newest first, and one file per further level find what a search of all level-0 files and whole levels finds |
| `ReadOrder.VersionLayersOrdered` | `ios/Pods/leveldb-library/db/version_set.cc:326-404` | in a well-ordered version, level 0 newest file first and then level by level, nothing newer of a key met so far is missing |
| `VersionEdits.CopiesAreGood` | `ios/Pods/leveldb-library/db/db_impl.cc:491-566` | a version with one or more tables of the immutable memtable, each at a level above which nothing overlaps it, stands for the history up to the memtable |
| `VersionEdits.CompactionIsGood` | `ios/Pods/leveldb-library/db/db_impl.cc:860-876` | replacing safe inputs by tables of what is kept leaves a well-ordered version without overlaps that answers alike for readers at or above smallest_snapshot |
| `VersionEdits.InputsWithFile` | `ios/Pods/leveldb-library/db/db_impl.cc:907-916` | a flush that lands while a compaction runs leaves the compaction's inputs safe |
| `CompactionStep.JobIsEngineStep` | `ios/Pods/leveldb-library/db/db_impl.cc:860-876` | stored outputs of the loop, one behind the other and none empty, are what the engine's installation step demands |
| `DbIter.LiveIsShown` | `ios/Pods/leveldb-library/db/db_iter.cc:168-198` | a key that a lookup finds is exactly one whose newest visible entry is a value |
| `DbIter.DBIter.FindNextUserEntry` | `ios/Pods/leveldb-library/db/db_iter.cc:168-198` | from any raw position the forward scan stops at the least live key admissible from there, or ends |
| `DbIter.DBIter.FindPrevUserEntry` | `ios/Pods/leveldb-library/db/db_iter.cc:227-267` | from any raw position the backward scan assembles key and value of the greatest live key before it, or ends |
| `DbIter.DBIter.Next` | `ios/Pods/leveldb-library/db/db_iter.cc:141-166` | lands on the least live key after the current one, from either direction, with the value that a lookup gives |
| `DbIter.DBIter.Prev` | `ios/Pods/leveldb-library/db/db_iter.cc:200-225` | lands on the greatest live key before the current one, from either direction, with the value that a lookup gives |
| `DbIter.DBIter.Seek` | `ios/Pods/leveldb-library/db/db_iter.cc:269-281` | lands on the least live key at or after the target |
| `DbIter.DBIter.SeekToFirst` | `ios/Pods/leveldb-library/db/db_iter.cc:283-292` | lands on the least live key |
| `DbIter.DBIter.SeekToLast` | `ios/Pods/leveldb-library/db/db_iter.cc:294-299` | lands on the greatest live key |
| `DbIter.DBIter.Key` | `ios/Pods/leveldb-library/db/db_iter.cc:64-67` | the key of the position, in both directions |
| `DbIter.DBIter.Value` | `ios/Pods/leveldb-library/db/db_iter.cc:68-71` | the value that a lookup of the key gives at the iterator's sequence number |
| `DbIter.StepsCancel` | `ios/Pods/leveldb-library/db/db_iter.cc:141-225` | Next then Prev, and Prev then Next, return to the same key |
| `DbIter.ForwardWalkMeetsAll` | `ios/Pods/leveldb-library/db/db_iter.cc:141-198` | a walk from the first key to the end meets exactly the live keys |
| `DbIter.BackwardMirrorsForward` | `ios/Pods/leveldb-library/db/db_iter.cc:200-267` | a walk from the last key backwards is the forward walk reversed |
| `WriteQueue.GroupIsUnique` | `ios/Pods/leveldb-library/db/db_impl.cc:1260-1306` | the rules for joining a group determine how many writers it takes |
| `WriteQueue.GroupLimits` | `ios/Pods/leveldb-library/db/db_impl.cc:1260-1306` | a writer is in the group exactly if, like all in front of him, he does not ask for a sync that the leader does not do, and brings no batch or one that keeps the total at 1 MB, or 128 KB above the first batch if that has at most 128 KB |
| `WriteQueue.BatchesAreWhole` | `ios/Pods/leveldb-library/db/db_impl.cc:1260-1306` | for any members: from the sum of the earlier members' operation counts onward the group's operations are exactly the member's batch, and the counts add up to the length of the group |
| `WriteQueue.OneMoreBatch` | `ios/Pods/leveldb-library/db/db_impl.cc:1272-1304` | one more member adds its batch's size to the total and its operations at the end |
| `WriteQueue.Writers.Enter` | `ios/Pods/leveldb-library/db/db_impl.cc:1186-1192` | a writer queues up behind the others |
| `WriteQueue.Writers.BuildBatchGroup` | `ios/Pods/leveldb-library/db/db_impl.cc:1260-1306` | takes the longest prefix of the queue allowed by the size limits and the sync rule; every member's batch stands whole behind the operations of those in front of it, and nothing else is there |
| `WriteQueue.Writers.StartGroup` | `ios/Pods/leveldb-library/db/db_impl.cc:1202-1207` | the group is numbered from LastSequence + 1 |
| `WriteQueue.Writers.Release` | `ios/Pods/leveldb-library/db/db_impl.cc:1239-1248` | exactly the members leave, all but the leader told that they are done and with which status; nobody else is touched |
| `WriteQueue.Writers.FinishAlone` | `ios/Pods/leveldb-library/db/db_impl.cc:1201-1204` | a leader without room or without a batch leaves alone |
| `WriteQueue.Writers.FinishGroup` | `ios/Pods/leveldb-library/db/db_impl.cc:1236-1248` | the members leave with the group's status and its numbers are used up, whatever the status |
| `WriteQueue.StepKeepsInv` | `ios/Pods/leveldb-library/db/db_impl.cc:1185-1256` | every step of the queue keeps its invariant |
| `WriteQueue.FirstComeFirstServed` | `ios/Pods/leveldb-library/db/db_impl.cc:1185-1256` | in every run, those who left followed by those who wait are those who came: each writer completes once, in arrival order |
| `WriteQueue.GroupsAreTheNextInLine` | `ios/Pods/leveldb-library/db/db_impl.cc:1260-1306` | in every run, a group is made of the next writers to have arrived, holds the batch of every one of them whole, in that order, and nothing else, and is synced if any of them asked for it |
| `WriteQueue.SequencesAreConsecutive` | `ios/Pods/leveldb-library/db/db_impl.cc:1202-1236` | in every run, groups take disjoint, increasing, gapless ranges of sequence numbers, also when a log append fails |
| `EngineWriters.GroupIsEngineWrite` | `ios/Pods/leveldb-library/db/db_impl.cc:1205-1215` | a group that its leader has numbered is what the storage engine's next write asks for |
| `EngineWriters.EndTogether` | `ios/Pods/leveldb-library/db/db_impl.cc:1226-1248` | when the group is done, queue and engine agree on LastSequence again, and the engine counts its entries as acknowledged exactly if its writers are told that all is well |
| `EngineWriters.AcknowledgedIsWhatWritersWereTold` | `ios/Pods/leveldb-library/db/db_impl.cc:1185-1256` | in every run of queue and engine together, the acknowledged entries are exactly those of the groups whose writers were told so |
| `EngineWriters.EveryOperationIsAcknowledged` | `ios/Pods/leveldb-library/db/db_impl.cc:1202-1256` | in every run, once a group's writers are told that all is well, every operation of every member's batch is acknowledged with its key, type and value, under the group's first number plus the operations of those in front of it plus its place in the batch |
| `EngineSteps.StepAppendLog` | `ios/Pods/leveldb-library/db/db_impl.cc:1215-1215` | appending a group to the log, with any outcome, keeps the invariant |
| `EngineSteps.StepInsert` | `ios/Pods/leveldb-library/db/db_impl.cc:1223-1225` | inserting one entry of the group into the memtable, while readers read, keeps the invariant |
| `EngineSteps.StepEndWrite` | `ios/Pods/leveldb-library/db/db_impl.cc:1226-1236` | publishing LastSequence at the end of a group, whatever became of it, keeps the invariant |
| `EngineSteps.StepSwitchMemTable` | `ios/Pods/leveldb-library/db/db_impl.cc:1345-1367` | switching log and memtable keeps the invariant |
| `EngineSteps.StepNewSnapshot` | `ios/Pods/leveldb-library/db/db_impl.cc:1166-1169` | taking a snapshot at any moment keeps the invariant |
| `EngineSteps.StepReleaseSnapshot` | `ios/Pods/leveldb-library/db/db_impl.cc:1171-1174` | releasing any snapshot keeps the invariant |
| `EngineSteps.StepBeginRead` | `ios/Pods/leveldb-library/db/db_impl.cc:1100-1117` | a read that pins memtables and version keeps the invariant; at which sequence number it reads is what EngineVisibility is about |
| `EngineSteps.StepEndRead` | `ios/Pods/leveldb-library/db/db_impl.cc:1134-1144` | a read that ends, and may ask for a compaction, keeps the invariant |
| `EngineSteps.NewReaderOk` | `ios/Pods/leveldb-library/db/db_impl.cc:1117-1132` | what a read finds is the lookup in everything written so far |
| `EngineReads.CurrentReadIsLookup` | `ios/Pods/leveldb-library/db/db_impl.cc:1117-1132` | memtable, immutable memtable and current version, searched in turn, answer like the whole history |
| `EngineReads.ReaderIgnoresNewer` | `ios/Pods/leveldb-library/db/db_impl.cc:1100-1132` | an insertion above a reader's sequence number does not change what it finds |
| `EngineReaders.Get` | `ios/Pods/leveldb-library/db/db_impl.cc:1100-1145` | in every reachable state, looking into memtable, immutable memtable and the files that Version::Get chooses returns the newest entry of the key at or below the sequence number among everything ever written |
| `EngineReaders.IteratorsWalkTheHistory` | `ios/Pods/leveldb-library/db/db_impl.cc:1062-1081` | in every state of every run, the iterator over what a reader has pinned walks exactly the keys that the history has a value for at its sequence number, in order, and shows those values |
| `EngineReaders.BackwardIsTheSame` | `ios/Pods/leveldb-library/db/db_impl.cc:1147-1157` | and backwards exactly the same keys in the opposite order |
| `EngineBackground.StepFlushBegin` | `ios/Pods/leveldb-library/db/db_impl.cc:494-499` | reserving the flush's file keeps the invariant |
| `EngineBackground.StepFlushBuild` | `ios/Pods/leveldb-library/db/db_impl.cc:502-507` | writing the table with the mutex released keeps the invariant |
| `EngineBackground.StepFlushEnd` | `ios/Pods/leveldb-library/db/db_impl.cc:513-548` | taking the file off pending_outputs_ and making the edit, or failing, keeps the invariant |
| `EngineBackground.StepCompBegin` | `ios/Pods/leveldb-library/db/db_impl.cc:888-896` | starting a compaction of picked inputs that leave no boundary file behind, with the oldest snapshot as bound, keeps the invariant |
| `EngineBackground.StepCompFinish` | `ios/Pods/leveldb-library/db/db_impl.cc:1033-1035` | a complete compaction's edit keeps the invariant |
| `EngineBackground.StepCompAbort` | `ios/Pods/leveldb-library/db/db_impl.cc:769-784` | a failed compaction gives up its outputs and keeps the invariant |
| `EngineBackground.StepTrivialMove` | `ios/Pods/leveldb-library/db/db_impl.cc:718-725` | moving a picked file one level down keeps the invariant |
| `EngineBackground.StepManifestWrite` | `ios/Pods/leveldb-library/db/version_set.cc:801-878` | appending the edit to the manifest, which may contain edits that were never installed, keeps the invariant, by which a crash would from now on recover the edited version |
| `EngineBackground.StepApplyOk` | `ios/Pods/leveldb-library/db/db_impl.cc:554-562` | making the edited version current and dropping the immutable memtable keeps the invariant |
| `EngineBackground.StepApplyFail` | `ios/Pods/leveldb-library/db/db_impl.cc:563-565` | a failed installation, whether or not the edit is in the manifest, keeps the invariant; a compaction under way goes on and may install further edits |
| `EngineBackground.DeadIsUnused` | `ios/Pods/leveldb-library/db/db_impl.cc:232-278` | no deleted table is referred to by a version in use, the manifest or an edit; no deleted log would be read by recovery; the manifest that CURRENT names is not deleted |
| `EngineBackground.StepDeleteObsoleteFiles` | `ios/Pods/leveldb-library/db/db_impl.cc:223-278` | deleting obsolete files keeps the invariant |
| `EngineRecovery.ReplayedIs` | `ios/Pods/leveldb-library/db/db_impl.cc:323-341` | the logs that recovery reads hold exactly what was appended beyond what the manifest's tables hold |
| `EngineRecovery.StepCrashRecover` | `ios/Pods/leveldb-library/db/db_impl.cc:280-369` | a crash at any moment followed by recovery keeps the invariant; CURRENT then names a new manifest |
| `EngineRecovery.StepCrashInRecovery` | `ios/Pods/leveldb-library/db/db_impl.cc:316-369` | a crash within recovery, with some of its tables and perhaps the new log and the new manifest written, keeps the invariant |
| `EngineTheorems.StepKeepsInv` | `ios/Pods/leveldb-library/db/db_impl.cc:535-1370` | every step of writer, readers, background thread, garbage collection, crash and recovery keeps the invariant |
| `EngineTheorems.ReadsAreLookups` | `ios/Pods/leveldb-library/db/db_impl.cc:1100-1145` | in every run a read returns, at any later moment of it, the newest entry of the key at or below its sequence number among everything ever written; which number that is: EngineVisibility |
| `EngineTheorems.SnapshotsAreStable` | `ios/Pods/leveldb-library/db/db_impl.cc:1105-1132` | in every run two reads at one sequence number give the same answer, whatever happens between them short of a crash |
| `EngineTheorems.ReadsSeeWholeGroups` | `ios/Pods/leveldb-library/db/db_impl.cc:1209-1236` | in every run a read sees a write group as a whole or not at all |
| `EngineVisibility.AckedIsPublished` | `ios/Pods/leveldb-library/db/db_impl.cc:1226-1256` | in every run, crashes included, every acknowledged entry lies at or below LastSequence |
| `EngineVisibility.ReadsSeeWhatIsAcknowledged` | `ios/Pods/leveldb-library/db/db_impl.cc:1100-1132` | a read that begins without a snapshot sees every write acknowledged by then, and finds what a lookup at LastSequence finds in everything written by then |
| `EngineVisibility.ReadYourWrites` | `ios/Pods/leveldb-library/db/db_impl.cc:1100-1145` | a read that begins after a write was acknowledged finds that write, a value or a deletion, unless a later write of the key is published |
| `EngineVisibility.ReadsRepeat` | `ios/Pods/leveldb-library/db/db_impl.cc:1112-1132` | until it ends or the process does, a read gives the same answers, whatever other threads do |
| `EngineVisibility.HeldKeepsNumber` | `ios/Pods/leveldb-library/db/db_impl.cc:1166-1174` | a snapshot, followed through releases of other snapshots, keeps the LastSequence of the moment at which it was taken |
| `EngineVisibility.UnreleasedIsHeld` | `ios/Pods/leveldb-library/db/db_impl.cc:1166-1174` | it stays in the list as long as nothing is released and there is no crash |
| `EngineVisibility.SnapshotsSeeTheirMoment` | `ios/Pods/leveldb-library/db/db_impl.cc:1100-1132` | a read that begins with a snapshot, however much later, sees exactly the entries that were published when the snapshot was taken, among them every write acknowledged by then, and finds what a lookup found at that moment |
| `EngineVisibility.SmallestSnapshotIsTight` | `ios/Pods/leveldb-library/db/db_impl.cc:888-896` | the bound of a compaction that begins is the largest number that lies at or below LastSequence and every snapshot held |
| `EngineErrors.ErrorsStopWrites` | `ios/Pods/leveldb-library/db/db_impl.cc:1217-1232` | after a failed sync, flush, compaction or installation, for the rest of the run of the program, no group is begun and no memtable switched; and but for a failed sync, which counts at the end of its group, no compaction is begun and no file deleted |
| `EngineTheorems.CrashLosesNothing` | `ios/Pods/leveldb-library/db/db_impl.cc:349-366` | in every run, after a crash at any moment recovery brings back every acknowledged write, nothing that was never appended, groups only as a whole, and a LastSequence at or above all of it |
| `EngineTheorems.ReadAfterCrash` | `ios/Pods/leveldb-library/db/db_impl.cc:280-369` | reads of the recovered database are lookups in the recovered history |
| `EngineTheorems.RecoveryCanBeRepeated` | `ios/Pods/leveldb-library/db/db_impl.cc:280-369` | after a crash within recovery the next recovery replays the same entries and can yield the same history and LastSequence |
| `EngineTheorems.AcknowledgedForever` | `ios/Pods/leveldb-library/db/db_impl.cc:1226-1255` | an acknowledged write stays in the history through any number of crashes |
| `EngineTheorems.RecoveryIsPossible` | `ios/Pods/leveldb-library/db/db_impl.cc:349-362` | in every state of every run CURRENT names a manifest file that exists, and there is a way to cut the logs into memtables, so that the database can be opened after a crash there |
| `EngineTheorems.GarbageIsGarbage` | `ios/Pods/leveldb-library/db/db_impl.cc:223-278` | in every run garbage collection leaves every needed table as it is, does not change what recovery would replay, and leaves the manifest that CURRENT names |
| `EngineTheorems.UnprotectedWindow` | `ios/Pods/leveldb-library/db/db_impl.cc:513-554` | after the flushed file has left pending_outputs_ it is needed, and neither pending nor in a version |
| `EngineTheorems.BusyThreadCollectsNothing` | `ios/Pods/leveldb-library/db/db_impl.cc:535-566` | in every run no collection can happen while a table is being built or its edit installed, because the one thread that collects does so only after an installation |
| `EngineTheorems.WorkIsScheduled` | `ios/Pods/leveldb-library/db/db_impl.cc:648-686` | in every run, whenever the mutex is free: work without error or shutdown means a background call is under way, and nothing is being flushed, compacted or installed without one |
| `EngineTheorems.ImmIsNeverOverwritten` | `ios/Pods/leveldb-library/db/db_impl.cc:1336-1366` | the immutable memtable is set only when there is none and cleared only when its table is installed |
| `EngineTheorems.QuietAfterShutdown` | `ios/Pods/leveldb-library/db/db_impl.cc:153-160` | after shutdown, once no background call is under way, none ever is again |
| `DbImpl.Db.MaybeScheduleCompaction` | `ios/Pods/leveldb-library/db/db_impl.cc:648-663` | asks for a background call exactly if none is under way and there is work without shutdown or error |
| `DbImpl.Db.CompactMemTable` | `ios/Pods/leveldb-library/db/db_impl.cc:535-566` | the immutable memtable goes exactly if its table was built and installed and no shutdown came; otherwise it stays and the error is recorded; either is one move of the control machine |
| `DbImpl.Db.BackgroundCall` | `ios/Pods/leveldb-library/db/db_impl.cc:669-686` | afterwards a further call is under way exactly if there is work; what it did are one or two moves of the control machine, the last of which ends the call |
| `DbImpl.Db.SwitchMemTable` | `ios/Pods/leveldb-library/db/db_impl.cc:1350-1366` | the memtable becomes immutable and a new one takes its place, which is the switch move of the control machine |
| `DbImpl.Db.Close` | `ios/Pods/leveldb-library/db/db_impl.cc:153-160` | after shutdown no call is asked for again, and nothing is lost from the list of filled memtables |
| `DbImpl.Db.MakeRoomForWrite` | `ios/Pods/leveldb-library/db/db_impl.cc:1310-1370` | success means room and no error; a memtable is replaced at most once, only if it is full or that is forced, only when none is waiting to be flushed and there are less than 12 level-0 files, and always if forced; waiting means one of these two hinders it; from 8 level-0 files on an unforced write is delayed |
| `EngineControl.StepMoves` | `ios/Pods/leveldb-library/db/db_impl.cc:535-686` | every step of the engine short of a crash is a move of the same control machine that the methods above move |
| `EngineControl.RunsMoveControl` | `ios/Pods/leveldb-library/db/db_impl.cc:535-686` | every run short of a crash is a run of that machine |
| `DbImpl.DeleteObsoleteFiles` | `ios/Pods/leveldb-library/db/db_impl.cc:223-278` | nothing is deleted after a background error, nor anything that is not listed, nor CURRENT, lock and info log; of the listed files, logs stay from the current number up and the previous one, manifests from the one in use up, tables and temporary files that are pending or live, and all others go |
| `DbImpl.ObsoleteIsGarbage` | `ios/Pods/leveldb-library/db/db_impl.cc:232-260` | what the method deletes of tables, logs and manifests is what the engine's collection step allows |
| `DbImpl.RecoverLogFile` | `ios/Pods/leveldb-library/db/db_impl.cc:412-489` | the records of a log end up, in order and completely, in consecutive level-0 tables, each but the last larger than the write buffer and none so before its last record; max_sequence becomes the largest |
| `Recovery.Recover` | `ios/Pods/leveldb-library/db/db_impl.cc:316-369` | the same over all logs in the order of their numbers |
| `Recovery.BatchIsReplayed` | `ios/Pods/leveldb-library/db/db_impl.cc:437-460` | every batch of every log is replayed whole, behind all entries of the logs and records before it, and nothing else is |
| `Recovery.RecoverIsEngineStep` | `ios/Pods/leveldb-library/db/db_impl.cc:316-369` | what it makes of the logs that a crash leaves is the engine's recovery step, with the same LastSequence |
| `Wire.ReadPutVarint` | `ios/Pods/nanopb/pb_decode.c:255-275` | every 64-bit value is read back from exactly the 1 to 10 bytes written |
| `Wire.ReadPutVarint32` | `ios/Pods/nanopb/pb_decode.c:187-247` | the 32-bit decoder reads back every value below 2^32 from at most 5 bytes |
| `Wire.ReadVarint32OfNegative` | `ios/Pods/nanopb/pb_decode.c:221-229` | the 32-bit decoder returns the low 32 bits of every negative int32 sent as ten bytes |
| `Wire.ReadVarint32OfLarge` | `ios/Pods/nanopb/pb_decode.c:205-236` | the 32-bit decoder refuses every encoding of a value from 2^32 up to 2^63 |
| `Wire.DecodersAgree` | `ios/Pods/nanopb/pb_decode.c:187-275` | whatever the 32-bit decoder accepts in at most ten bytes the 64-bit decoder accepts too, with the same length and the same low 32 bits |
| `Wire.VarintPrefix` | `ios/Pods/nanopb/pb_decode.c:187-287` | what follows a varint does not matter to it |
| `Wire.VarintBytes` | `ios/Pods/nanopb/pb_encode.c:608-628` | byte i of a varint is digit i of the value to the base 128, with the top bit set on all but the last, and there are no more digits than the value needs |
| `Wire.ReadPadded` | `ios/Pods/nanopb/pb_decode.c:187-275` | digits padded with zeros are read as well: up to ten bytes by the 64-bit decoder, any number by the 32-bit decoder |
| `Wire.ZigZagIsBijection` | `ios/Pods/nanopb/pb_encode.c:630-639` | zigzag is -2i-1 or 2i, and a bijection between int64 and uint64 whose inverse is the decoder's |
| `Wire.ReadPutTag` | `ios/Pods/nanopb/pb_encode.c:669-673` | a tag is read back with number and wire type; which bytes it has: Wire.TagBytes |
| `Wire.TagBytes` | `ios/Pods/nanopb/pb_encode.c:669-673` | a tag is the varint of eight times the number plus 0 for a varint, 1 for eight bytes, 2 for a length, 5 for four bytes; a single byte up to number 15; byte i is digit i to the base 128 |
| `Wire.TagOfKey` | `ios/Pods/nanopb/pb_decode.c:298-319` | a key read means the number key / 8 and the wire type varint, eight bytes, length or four bytes exactly for key % 8 = 0, 1, 2, 5, and an invalid one for 3, 4, 6 and 7; zero ends the message |
| `Wire.StringBytes` | `ios/Pods/nanopb/pb_encode.c:709-715` | a length-prefixed string is the base-128 digits of its length and then its bytes |
| `Wire.ReadPutString` | `ios/Pods/nanopb/pb_encode.c:709-715` | a length-prefixed byte string is read back |
| `Wire.SkipPrefix` | `ios/Pods/nanopb/pb_decode.c:321-331` | skipping depends only on the bytes skipped |
| `Wire.WhatIsSkipped` | `ios/Pods/nanopb/pb_decode.c:278-331` | skipping takes a varint of any length, eight bytes, four bytes, or a length and as many bytes, and refuses other wire types |
| `PbMessage.AddressesDiffer` | `ios/Pods/nanopb/pb_common.c:39-74` | only members of one union share memory |
| `PbMessage.FieldsDoNotOverlap` | `ios/Pods/nanopb/pb_common.c:39-74` | the memory of a field outside a union, all items of an array included, ends before that of any later field begins |
| `PbMessage.DefaultsAt` | `ios/Pods/nanopb/pb_decode.c:839-922` | setting a message to defaults gives every field its own |
| `PbNested.DefaultsAre` | `ios/Pods/nanopb/pb_decode.c:839-922` | a message to be decoded into begins with empty arrays, without flags and members of unions, and with the descriptor's defaults or else zeros, nested messages included |
| `PbFieldIter.FieldIter.constructor` | `ios/Pods/nanopb/pb_common.c:8-18` | the iterator starts at the first field |
| `PbFieldIter.FieldIter.Begin` | `ios/Pods/nanopb/pb_common.c:8-18` | back to the first field; false exactly for an empty descriptor |
| `PbFieldIter.FieldIter.Next` | `ios/Pods/nanopb/pb_common.c:20-76` | one field on or round to the first; pData, pSize and required_field_index stay functions of pos, unions included |
| `PbFieldIter.FieldIter.Find` | `ios/Pods/nanopb/pb_common.c:78-95` | succeeds exactly if the tag exists, at the first match going round from wherever it stood; otherwise it is back there |
| `PbRoundTrip.InRangeEncodes` | `ios/Pods/nanopb/pb_encode.c:341-426` | a message in range has an encoding: no error but lack of room can occur |
| `PbRoundTrip.RoundTrip` | `ios/Pods/nanopb/pb_decode.c:928-1090` | any message in range can be encoded; if every length prefix in the encoding, at any depth, has at most 32 bits, decoding takes all of it and gives the same content; otherwise (below 2^63 bytes) decoding fails |
| `PbRoundTrip.MessageRoundTrip` | `ios/Pods/nanopb/pb_encode.c:528-550` | the successful case, with the decoder's final state |
| `PbRoundTrip.MessageFails` | `ios/Pods/nanopb/pb_decode.c:372-385` | the failing case: a packed array or a nested message of 4 GB or more, at any depth, makes decoding fail |
| `PbRoundTrip.AllDefaultIsInitial` | `ios/Pods/nanopb/pb_encode.c:240-337` | a submessage that is left out as default has the content that the decoder fills in |
| `PbRoundTrip.EncodingIsContent` | `ios/Pods/nanopb/pb_encode.c:341-426` | two messages in range have the same encoding if and only if they have the same content |
| `PbRoundTrip.NullTerminatedRoundTrip` | `ios/Pods/nanopb/pb_encode.c:557-565` | a message with a zero byte behind it comes back too, whatever follows |
| `PbRoundTrip.InRangeIsAddressable` | `ios/Pods/nanopb/pb_encode.c:717-732` | a message in range whose encoding is below 2^64 bytes meets the size precondition of the encoder |
| `PbReencode.DecodedIsInRange` | `ios/Pods/nanopb/pb_decode.c:928-1090` | for any bytes that decode, from defaults or on top of a sound message: the result is in range, and so has an encoding, if and only if the arrays without a count in it are complete |
| `PbReencode.DecodedCanBeSentOn` | `ios/Pods/nanopb/pb_encode.c:528-550` | such a result can be encoded; if the length prefixes fit 32 bits, decoding that gives the same content, and encoding once more the same bytes: one round makes any accepted input canonical |
| `PbLayout.ScalarNumber` | `ios/Pods/nanopb/pb_encode.c:769-850` | a bool is the byte 0 or 1, a signed integer the varint of its complement on 64 bits, an unsigned one of itself, a sint the varint of 2i or -2i-1, a fixed one its little-endian bytes |
| `PbLayout.ScalarFromNumber` | `ios/Pods/nanopb/pb_decode.c:1328-1422` | for every number on the wire and every varint type: the value that it stands for, a signed one of at most 32 bits from its low 32 bits, and exactly when it is too large for the field's size |
| `PbLayout.FixedFromBytes` | `ios/Pods/nanopb/pb_decode.c:1424-1439` | fixed types are the little-endian sum of their four or eight bytes, and fail on fewer |
| `PbLayout.DelimitedBytes` | `ios/Pods/nanopb/pb_encode.c:852-912` | bytes, the characters of a string up to its first zero, fixed-length bytes and nested messages follow their length |
| `PbLayout.DelimitedFits` | `ios/Pods/nanopb/pb_decode.c:1441-1564` | bytes and strings are accepted exactly if they fit their memory, a string with its terminator; fixed-length bytes exactly with their length, or empty, which stands for zeros |
| `PbLayout.FieldKey` | `ios/Pods/nanopb/pb_encode.c:675-707` | the key of a field is eight times its tag plus 5, 1, 0 or 2 by its type |
| `PbLayout.SingularLayout` | `ios/Pods/nanopb/pb_encode.c:341-426` | a singular field is its key and its value, or nothing: never if required, without its flag if it has one, with another member in its union, and otherwise if it is zero or empty |
| `PbLayout.ArrayLayout` | `ios/Pods/nanopb/pb_encode.c:147-236` | an array without items is left out; a packable one is its key with wire type 2 and all its items behind one length; any other one is key and value item by item |
| `PbLayout.ItemsInOrder` | `ios/Pods/nanopb/pb_encode.c:169-236` | the encoding of items one behind the other is the encodings one behind the other |
| `PbLayout.FieldsInOrder` | `ios/Pods/nanopb/pb_encode.c:528-550` | field i stands whole at the sum of the lengths of the fields before it, in the order of the descriptor, and nothing else is there |
| `PbLayout.NothingIsEmpty` | `ios/Pods/nanopb/pb_encode.c:240-337` | a message is default in all of its fields if and only if its encoding is empty |
| `PbMerge.FieldsOfConcatenation` | `ios/Pods/nanopb/pb_decode.c:946-1024` | decoding a concatenation continues where the first part ended, or stops at its zero tag |
| `PbMerge.ConcatenationIsMerging` | `ios/Pods/nanopb/pb_decode.h:70-80` | without required and fixed-count fields, decoding a concatenation is decoding the second message on top of the first, for every second message if and only if the first does not end in a zero tag; what decoding on top of a message means for nested messages: PbNested |
| `PbMerge.LastOneWins` | `ios/Pods/nanopb/pb_decode.c:416-422` | an occurrence of a field that is neither repeated nor a structure replaces what was there |
| `PbMerge.ArraysAppend` | `ios/Pods/nanopb/pb_decode.c:424-464` | occurrences of a repeated field, packed or not, are appended, within the bounds |
| `PbNested.UntouchedFieldsStay` | `ios/Pods/nanopb/pb_decode.c:928-1024` | a field stays as the given message has it if neither its tag nor that of another member of its union occurs |
| `PbNested.NestedMessagesMerge` | `ios/Pods/nanopb/pb_decode.c:1519-1541` | two occurrences of a nested message, singular, optional or member of a union, with payloads a and b leave the same memory as one occurrence with payload a + b |
| `PbNested.NestedFieldsStay` | `ios/Pods/nanopb/pb_decode.c:1519-1541` | a nested field that an occurrence does not mention keeps what an earlier one or the given structure put there; in a member of a union that was not set it is the default |
| `PbNested.NestedItemsAreNew` | `ios/Pods/nanopb/pb_decode.c:1519-1541` | a nested message in an array is appended, and begins with the defaults whatever the items before it hold |
| `PbNested.PlainOccurrence` | `ios/Pods/nanopb/pb_decode.c:406-422` | a plain singular value is what its bytes say, whatever the wire type and whatever was there, and sets its flag or the number of the union's member |
| `PbNested.OneMoreOccurrence` | `ios/Pods/nanopb/pb_decode.c:454-463` | an item of an array that is not sent packed is appended exactly if there is room and it can be read |
| `PbNested.PackedLikeUnpacked` | `ios/Pods/nanopb/pb_decode.c:425-464` | items sent packed and the same items sent one by one make the same array, or overflow it alike |
| `PbNested.FixedArrayStartsOver` | `ios/Pods/nanopb/pb_decode.c:991-1013` | whatever an array without a count held before, its first item on the wire starts it anew |
| `PbNested.ArraysAreComplete` | `ios/Pods/nanopb/pb_decode.c:991-1032` | when decoding succeeds, every array without a count that occurred on the wire has all of its items |
| `PbMerge.UnknownFieldsAreTransparent` | `ios/Pods/nanopb/pb_decode.c:960-989` | a complete unknown field at any field boundary changes neither result nor message, also amid a fixed-count field |
| `PbMerge.UnknownFieldsExist` | `ios/Pods/nanopb/pb_decode.c:321-331` | any tag number that the descriptor lacks, with any of the four wire types and any payload, is such a field |
| `PbMerge.Framing` | `ios/Pods/nanopb/pb_decode.c:372-400` | a length-delimited field takes exactly its prefix and length, and nothing behind that matters to it |
| `PbRequired.SeeRequired` | `ios/Pods/nanopb/pb_decode.c:1015-1020` | setting the bit of a required field is adding it to a set |
| `PbRequired.FullMeansAllSeen` | `ios/Pods/nanopb/pb_decode.c:1054-1072` | the comparison of whole words and remaining bits holds exactly if every tracked field is in the set |
| `PbRequired.CompareWords` | `ios/Pods/nanopb/pb_decode.c:1054-1072` | the two comparisons, as the loop makes them |
| `PbRequired.CountRequired` | `ios/Pods/nanopb/pb_decode.c:1039-1049` | running to the end of the descriptor, with the fixup for a required last field, counts the required fields |
| `PbRequired.CheckRequired` | `ios/Pods/nanopb/pb_decode.c:1033-1073` | succeeds exactly if every tracked required field has been seen |
| `PbRequired.RequiredFieldsAreChecked` | `ios/Pods/nanopb/pb_decode.c:1026-1075` | with at most 64 required fields, decoding succeeds exactly if all fields decode, the last fixed-count array is complete and every required field occurred on the wire |
| `PbEncodeStream.OStream.Write` | `ios/Pods/nanopb/pb_encode.c:103-124` | appends the bytes if they fit, touches nothing otherwise, and only counts on a sizing stream |
| `PbEncodeStream.EncodeVarint` | `ios/Pods/nanopb/pb_encode.c:608-628` | appends exactly the base-128 digits |
| `PbEncodeStream.CheckDefault` | `ios/Pods/nanopb/pb_encode.c:240-337` | decides whether a field without a has-flag is left out |
| `PbEncodeStream.EncodeValue` | `ios/Pods/nanopb/pb_encode.c:852-912` | appends a value's encoding exactly if it has one and it fits |
| `PbEncodeStream.PackedSize` | `ios/Pods/nanopb/pb_encode.c:169-189` | the announced size of a packed array is the size of its items |
| `PbEncodeStream.EncodeArray` | `ios/Pods/nanopb/pb_encode.c:147-236` | appends the packed or unpacked array exactly if it is within its bounds and fits |
| `PbEncodeStream.EncodeField` | `ios/Pods/nanopb/pb_encode.c:341-426` | appends a field, or nothing where it is absent |
| `PbEncodeStream.EncodeMessage` | `ios/Pods/nanopb/pb_encode.c:528-550` | succeeds exactly if the message has an encoding and it fits, then appends it, and never touches the buffer outside its room |
| `PbEncodeStream.EncodeSubmessage` | `ios/Pods/nanopb/pb_encode.c:717-765` | the same for a nested message with its length; the error "submsg size changed" never occurs |
| `PbEncodeStream.GetEncodedSize` | `ios/Pods/nanopb/pb_encode.c:567-576` | the size is exactly the number of bytes that encoding writes |
| `PbEncodeStream.EncodeNullTerminated` | `ios/Pods/nanopb/pb_encode.c:557-565` | the message and a zero byte |
| `PbDecodeStream.DecodeVarint` | `ios/Pods/nanopb/pb_decode.c:255-275` | accepts exactly the encodings of at most ten bytes, and takes exactly their bytes |
| `PbDecodeStream.DecodeVarint32` | `ios/Pods/nanopb/pb_decode.c:187-247` | accepts exactly what fits 32 bits, padding and sign extension included; end of stream is told apart from the first byte only |
| `PbDecodeStream.SkipField` | `ios/Pods/nanopb/pb_decode.c:321-331` | takes exactly the payload of the wire type |
| `PbDecodeStream.DecodeTag` | `ios/Pods/nanopb/pb_decode.c:298-319` | the number and wire type that Wire.ReadTag gives for the bytes ahead, a terminator, or an error; what that is for every key: Wire.TagOfKey |
| `PbDecodeStream.MakeSubstream` | `ios/Pods/nanopb/pb_decode.c:372-385` | the substream is exactly the announced bytes, which must be there |
| `PbDecodeStream.CloseSubstream` | `ios/Pods/nanopb/pb_decode.c:387-400` | the parent goes on exactly behind the substream, however much of it was read |
| `PbDecodeStream.DecodeScalar` | `ios/Pods/nanopb/pb_decode.c:1328-1439` | numbers are read with the width and sign of the field, or rejected as too large |
| `PbDecodeStream.DecodeBytes` | `ios/Pods/nanopb/pb_decode.c:1441-1564` | bytes, strings and fixed-length bytes within the size of the field |
| `PbDecodeStream.DecodeDelimitedValue` | `ios/Pods/nanopb/pb_decode.c:1519-1541` | a structure is decoded inside its length, from defaults in an array and otherwise on top of what was there; what that does to earlier occurrences: PbNested.NestedMessagesMerge |
| `PbDecodeStream.DecodePacked` | `ios/Pods/nanopb/pb_decode.c:425-453` | a packed array takes exactly its length and appends its items |
| `PbDecodeStream.DecodeStaticField` | `ios/Pods/nanopb/pb_decode.c:406-483` | one occurrence of a field of any kind |
| `PbDecodeStream.SetToDefaults` | `ios/Pods/nanopb/pb_decode.c:839-922` | every field at its default |
| `PbDecodeStream.BeginField` | `ios/Pods/nanopb/pb_decode.c:991-1013` | a fixed-count array may begin only when the previous one is complete |
| `PbDecodeStream.DecodeNoInit` | `ios/Pods/nanopb/pb_decode.c:928-1076` | decodes on top of the given message: succeeds on exactly the inputs, with exactly the message and length, that the reference decoder gives; terminates on every input |
| `PbDecodeStream.Decode` | `ios/Pods/nanopb/pb_decode.c:1078-1090` | the same from defaults |
| `PbDecodeStream.DecodeDelimited` | `ios/Pods/nanopb/pb_decode.c:1107-1120` | a success moves the stream by exactly prefix and length |
| `PbDecodeStream.DecodeDelimitedNoInit` | `ios/Pods/nanopb/pb_decode.c:1092-1105` | the same on top of a given message |

## Left out

The storage engine:

- Manual compaction, statistics, properties, approximate sizes, read sampling, logging of messages, option
  clipping; the one-millisecond sleep is a point where other threads may run; waiting is modelled, that it
  ends is not.
- Skip list, table and block formats, bloom filters, caches, log record framing, and the file system: tables
  and memtables are sets of entries, a log is what was appended to it, an edit reaches the manifest at once
  or not at all.
- Keys that do not parse, and corruption reports. An append that fails leaves the whole group in the log or
  nothing of it. Insertion into the memtable does not fail.
- Loss of unsynced data when the operating system crashes: what was appended survives.
- `reuse_logs` (recovery always starts a new log and a new manifest), an opening that fails, the previous-log number of old databases beyond the file
  test, and reuse of file numbers after a crash.
- `PickLevelForMemTableOutput`: a memtable may be placed at any of the first levels such that no file up to
  there overlaps its range, which includes the level that the program picks. Compaction scores and the
  counting of seeks are inputs of `Picking`; `CompactRange` is left out with manual compaction, whose inputs
  may leave gaps that a flush during the compaction can fill.
- Assertions that stop a debug build. Two tables of one memtable in a level below 0, which a repeated
  installation may leave, would trip one when the database is opened again.
- An entry that is in two tables is met twice by the merging iterator. `CompactionJob` and `DbIter` have it once;
  the engine does not allow outputs of a compaction that are cut right between two copies of one entry.
- Memtables that nobody pins any more are kept in the model's map.
- DbFormat.KeyBuffer.ShortenTo: proved for the bytewise user comparator only, the one that shortens keys.
- DbFormat.KeyBuffer.ShortenUp: proved for the bytewise user comparator only, the one that shortens keys.
- CompactionJob.CompactionState.DoCompactionWork: the flush of a waiting memtable inside the loop
  (`db_impl.cc:907-916`) happens in the engine's steps, not in this method; `ShouldStopBefore` and the
  output size are arbitrary booleans.
- DbImpl.Db.MakeRoomForWrite: sees other threads only as background calls that come back while it waits.

The codec:

- Callback and extension fields, pointer fields and the malloc build, streams with custom callbacks, error
  strings, the build without 64-bit integers, unpacked encoding of packable arrays.
- Fields are described with 32-bit sizes (`PB_FIELD_32BIT`), which the largest descriptors in the repository
  require; `size_t` is wider than any encoding.
- Tag number zero with a nonzero wire type against a descriptor without fields.
- PbRoundTrip.RoundTrip: the failing case is stated for encodings below 2^63 bytes; from there up a length
  prefix has ten bytes and can look like a negative 32-bit number.
- Varints of more than 36 bytes, where an eight-bit `uint_fast8_t` bit position would wrap around.
- Or and shift on words are written as sums and products, as no bit is set twice; the words of the bit map as
  the numbers that their bits stand for.
- The message structure is passed and returned as a value: what a failed decode leaves in it, what lies behind
  the end of a string or the count of an array, and the items of a fixed-count array that never came, are not
  described.
