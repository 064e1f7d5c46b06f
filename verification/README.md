# Verified model of the LSM storage engine

A Dafny model of the storage engine under `internal/storage`: a skip list as the ordered table in memory, a
write-ahead log, page-aligned immutable tables with bloom filters and key ranges, a manifest, and a merge compaction
of level 0 into level 1. All of it together is meant to behave like one map from keys to values, through every put,
delete, flush, compaction, crash and restart; that is what is proved here.

The project has two layers, and a refinement between them.

**The objects.** Each Go object that changes in place is a class with the same fields and loops: `SkipList`, `MemTable`,
`BloomFilter`, `SstableReader`, `SstableHeap`, `Output` (the variables that the merge loop shares with its
`flushChunk`), `SstableStore`, `Engine`. Tables and sidecars are byte strings laid out as the encoder lays them out;
what is on disk is also stated apart from the code that writes and reads it, in numbers and bytes (`TableFormat` for
tables, `Manifests.ManifestText`, `Bloom.SidecarLayout`, `Json.PayloadText`), and proved to be the same. The file system
is the class `Disk`: one durable effect at a time, each of which may fail. Its ghost field `seen` collects every state
the disk goes through, so a contract can speak about a crash at any moment of a call. Its ghost field `faults` counts
the operations that failed, so a contract can say that an error happens only if an operation failed; and, as `unsynced`,
those among them that left behind a log line or a manifest which the engine takes for not written. `Engine.Put` adds
exactly its write to the history that readers see, whatever fails; and as long as nothing was left unsynced and the log
can give the write back, every disk state during the call recovers, by `Engine`'s own constructor, to the history before
or after the write. `Engines.ServeWrites` says so for whole runs of writes.

**The step machine.** `Machine` takes the same effects as atomic steps of one writer, with crashes, restarts and
failures between any two of them, and readers at any time. Its steps come in two circles. `UpStep` are those after which
log and manifest tell what memory tells; `LiveStep` adds the append of writes that the log cannot give back, appends
that report an error although their line is in the file, and manifests that were renamed but could not be synced.
`Memory` proves over all of `LiveStep` what needs no disk: readers always see exactly the writes that have taken effect,
and their tables are never touched. On top of that, over the same steps, `Reads` proves that `Get`, with its two separate
reads, is linearizable, and `Bounds` that the equality tests of the two triggers are not stepped over in failure-free
runs, and what happens once they are; `Marks` has the exact condition for a restarted engine and the failing runs;
`Progress` shows that no operation gets stuck. `Safety` proves over `UpStep`, crashes and restarts that a restart finds
exactly the completed writes and at most the one in flight. `Faults`, `Anchors`, `DriftSteps` and `Drift` follow the
engine on after manifests that could not be synced, through any further flushes, compactions, failures, crashes and
restarts, and say exactly what a restart then finds.

**The refinement.** `Refinement` relates the two. An `Engine` carries a ghost machine state, `model`. `Modelled()` says
that log, tables, memtable and history are those of `model`; the engine opened on an empty directory has the machine's
initial state (`Engines.OpenEmpty`). `Put`, `Delete` and `ServeWrites` ensure that the new `model` is reached from
the old one by the machine's steps, and that every disk state on the way is that of a machine state on the way; a restart
on such a disk is the machine's crash and restart (`Engines.Reopen`). `Engines.LiveOnce` puts this together: from a disk
that a run of the machine leaves, one life of the engine leaves only such disks, whenever it crashes.

Reading order: `Base`, `Lsm`, `SkipList`, `Table`, `TableFormat`, `TableFile`, `Bloom`, `Naming`, `Manifest`, `Json`,
`Wal`, `Disk`, `StoreState`, `StoreIO`, `Store`, `Reader`, `Heap`, `Merge`, `Merger`, `Compaction`, `MemTable`,
`EngineState`; then `Machine`, `Memory`, `Reads`, `Safety`, `Progress`, `Bounds`, `Marks`, `Faults`, `Anchors`,
`DriftSteps`, `Drift`; and last `Refinement` and `Engine`.

Assumptions, all visible as parameters or contracts:

- Hash functions and checksums (`Env.hash`, `Env.crc32`, `Env.crc64`) are arbitrary functions; nothing is claimed about collisions.
- `Quoting.Lawful`: Go's `%q` and `Unquote` are inverse, and quoted text starts and ends with a quote and holds no tab or newline.
- The strings of a log line are encoded and decoded in full (`Json`); that an object of such strings decodes to them, field by field, is taken from the JSON package.
- Nothing outside the engine removes or damages files. Opening and reading tables may fail during a compaction; a lookup finds its tables readable.
- `SstableStore.SaveLevel0SSTable`, `Engine.Put` and `Engine.Delete` require fewer level-0 tables than the largest Go int, beyond which table numbers would overflow.

Where code and comments disagree the code is followed: the comment on `getAllSSTables` speaks of reverse order and a
counter, the code returns levels in file order (`internal/storage/sstable.go:166-167`).

Four properties hold only under a condition, which is proved exact:

- A write that was logged is read back if and only if the log ended with a newline and held no bad line, all strings of
  the entry are valid UTF-8, and its line fits the log reader's 64 KiB buffer (`Wals.AppendIsReadBackIff`). The log keeps
  a checksum of the text that the encoder writes, and an invalid byte is decoded to U+FFFD, which is encoded otherwise.
  `Wals.InvalidByteIsLost` is a failing input, `EngineState.UnreadableWriteIsRecoveredIff` says what a restart then finds.
- Whatever encodable entries are written after a restart, the engine stays below both marks as long as nothing fails, if
  and only if what it reads of its log are fewer distinct keys than the mark, all in entries that a table can store, and it
  finds fewer than five level-0 tables (`Marks.RestartIsBoundedIff`). Failing inputs are the runs of
  `Marks.RestartAtMarkStepsPast` and `Marks.CrashAtTableMarkStopsCompaction`; beyond the mark nothing is flushed until
  the next restart (`Bounds.NoFlushPastMark`), and nothing is compacted ever again (`Bounds.NoCompactionPastMark`).
- A compaction attempt leaves a disk from which a restart finds the map if and only if the directory sync behind its
  manifest rename did not fail, or the cleanup that follows such a failure removed none of the new tables
  (`Faults.CompactionIsDurableIff`). At any later time a restart misses exactly the keys in the tables that were removed,
  until they are written again (`Drift.LossIsExact`, up to the next such removal); and nothing at all if none was (`Drift.DriftIsHarmless`).
- An append that reports an error although its line is in the log leaves restart and memory in agreement if and only if
  the write would not have changed the map (`Faults.UnsyncedAppendIsHarmlessIff`).

## Model

| member | source | states |
|---|---|---|
| Machine.ReplayIsLastWrite | internal/storage/engine.go:32-48 | replaying a list of writes into an empty memtable gives a sorted run that answers every key with the last write to it |
| Machine.LastWriteAt | internal/storage/engine.go:84-127 | what counts for a key is the write at the last position of the history that has this key, with that write's type and value |
| Machine.NeverWritten | internal/storage/engine.go:54-82 | and nothing counts for a key that no write has |
| Memory.LiveStepKeeps | internal/storage/engine.go:84-163 | every step at all while the engine is up, with appends of any write, failed appends whose line is in the file, and manifests left unsynced by a flush or a compaction, keeps: readers see exactly the last writes that have taken effect, and the tables they go to are all there |
| Memory.ReadTablesAreSafe | internal/storage/compaction.go:219-229 | none of these steps overwrites or removes a table that readers go to |
| Memory.OnlyWritesChangeTheView | internal/storage/engine.go:129-163 | flush, truncation (succeeding or failing, with the log emptied or not), clear and compaction change no answer at any point in between, and neither does any failure, left unsynced or not |
| Memory.StoreAnswerSteps | internal/storage/engine.go:129-163 | one step of the writer, whatever it is, changes the store's answer for a key only when a flush lists its table, and then to the value the map holds for it at that moment |
| Memory.RestartIsLive | internal/storage/engine.go:22-52 | from any disk, whatever log and manifest say, the restarted engine is up with that invariant for the map that the disk tells |
| Safety.NextKeeps | internal/storage/engine.go:84-163 | each step of the machine (append of a write that the log can give back, memtable put, table rename, manifest rename, log truncation, clear, each compaction effect, each failure that leaves nothing unsynced, crash, restart) keeps: readers see the last writes, and so would a restart |
| Safety.RecoveryIsExact | internal/storage/engine.go:22-151 | in every run of writes that the log can give back, of flushes, compactions, failures, crashes and restarts, a restart from any point finds exactly the completed writes plus at most the one logged but not yet applied; while up, readers see exactly the completed ones |
| Safety.EffectiveWritesStay | internal/storage/engine.go:84-163 | no effective write is ever undone: a key that nobody has written since keeps its value through all later flushes, compactions, failures, crashes and restarts, for readers and for a restart |
| Safety.CrashLoopLosesNothing | internal/storage/engine.go:22-52 | however often the engine crashes and restarts in a row, the disk stays as it is, and whenever it is up readers find the writes from before the first crash and the one that was in flight |
| Safety.ListedTablesAreSafe | internal/storage/sstable.go:268-301 | no step, crash or restart overwrites or removes a table that the published manifest names before or after it, but for one: the cleanup behind a manifest rename that could not be synced removes new tables that the manifest now names (see Faults) |
| Safety.FailedCompactionKeepsTables | internal/storage/compaction.go:219-229 | a compaction that fails, whether before its manifest is renamed or behind that, leaves the lists in memory and every lookup as they were; the only files to go are tables it wrote itself, none of them read, and no other file changes; before the rename, manifest and restart are as they were, too |
| Reads.MissThenStoreRead | internal/storage/engine.go:57-82 | after a memtable miss, the answer of a later store read was the map's value at some moment between the two reads, with any writes, whole flushes and compactions, failures and unsynced effects in between |
| Reads.GetIsLinearizable | internal/storage/engine.go:54-82 | every Get, from the memtable or from the later store read, returns the map's value at some moment of its duration, whatever the writer writes and whatever fails meanwhile or before |
| Bounds.BoundedKept | internal/storage/engine.go:129-163 | each failure-free step that writes an encodable entry, valid UTF-8 or not, keeps the memtable and level 0 within their marks, stage by stage |
| Bounds.TriggersNeverStepOver | internal/storage/engine.go:129-163 | in every failure-free run of encodable writes from a fresh engine, whether the log can give them back or not, the memtable between operations is below 1953 keys and level 0 below 5 tables, a flush finds exactly one full and encodable table, and a compaction exactly 5 tables |
| Bounds.NoFlushPastMark | internal/storage/engine.go:130-132 | once the memtable holds more keys than the mark, no flush ever happens again in that process, whatever is written and whatever fails, because the test is for equality |
| Bounds.NoCompactionPastMark | internal/storage/engine.go:153-163 | once 5 level-0 tables are listed while the engine is idle or down, no compaction ever happens again, in this process or after any number of crashes, restarts and failures, unsynced effects included, and level 0 only grows |
| Marks.RestartAtMarkStepsPast | internal/storage/engine.go:130-132 | a failing run: from a fresh engine, with encodable writes, one crash before the flush, its restart and no failure, the restarted engine sits exactly at the mark and one more key passes it |
| Marks.RestartIsBoundedIff | internal/storage/engine.go:22-52 | from any disk: in every failure-free run of encodable writes after a restart the engine is below both marks between operations, if and only if the log is read back to fewer distinct keys than the mark, all in encodable entries, and fewer than 5 listed level-0 tables are there |
| Marks.CrashAtTableMarkStopsCompaction | internal/storage/engine.go:153-163 | a failing run: from a fresh engine, with encodable writes and no failure, one crash between the fifth flush and its compaction leaves an engine with empty log and memtable that never compacts again |
| Marks.FailedCompactionStopsCompaction | internal/storage/engine.go:153-163 | so does a run with one failed compaction and nothing else out of the ordinary |
| Progress.CompactionCanStart | internal/storage/compaction.go:128-313 | from every reachable state at the mark a compaction can start: a run in full tables that answers as both levels did always exists |
| Progress.NeverStuck | internal/storage/engine.go:84-163 | from every reachable state the operation at hand can go on without a failure, but for a full memtable with an entry that no table can store, whose flush is rejected |
| Faults.UnsyncedPublishLosesExactly | internal/storage/compaction.go:219-229 | if the directory sync behind the manifest rename of a compaction fails, memory still answers, and a restart finds everything but exactly the keys whose new table the cleanup has removed |
| Faults.CompactionIsDurableIff | internal/storage/compaction.go:219-229 | a compaction attempt leaves a disk from which a restart finds the map if and only if that sync did not fail, or the cleanup removed none of the new tables |
| Drift.DriftIsExact | internal/storage/sstable.go:470-516 | however the engine goes on after manifests that could not be synced, in flushes and compactions, any number of them, through further failures, crashes and restarts: readers see what has taken effect, a restart finds exactly the writes that the disk has kept and the one in flight, and it counts at most one level-0 table too many for each unsynced listing |
| Drift.DriftIsHarmless | internal/storage/sstable.go:477-516 | as long as no such cleanup removes a table that the manifest names, a restart finds every effective write and the one in flight, at every moment of such a run |
| Drift.LossIsExact | internal/storage/compaction.go:219-229 | at any time after a cleanup that removed tables named by the manifest, a restart misses exactly the keys in those tables that nobody has written since, up to the next such cleanup |
| DriftSteps.DriftStepKeeps | internal/storage/sstable.go:334-345 | each of these steps keeps: the disk lists what an engine of its own could go on from, with nothing beside it but names of missing tables, repeated names, and tables that say nothing wrong |
| Drift.RestartCountsTwice | internal/storage/sstable.go:487-503 | the next flush that goes through adds the same name to the manifest again, and a restart then counts that table twice |
| Faults.UnsyncedAppendIsHarmlessIff | internal/storage/wal.go:86-100 | an append that reports an error although its line is in the log leaves restart and memory in agreement if and only if the write would not have changed the map |
| Engines.Engine.constructor | internal/storage/engine.go:22-52 | from any disk that recovers to some history of writes, the new engine's readers see exactly that history, the disk is unchanged, and if the log's last line is complete the disk goes on to agree with memory and the engine stands for a state of the machine |
| Engines.ReplayLog | internal/storage/engine.go:40-49 | the loop over the log gives each key its last put, or a tombstone if that is a delete; entries of unknown type change no key |
| EngineState.KnownEntriesCount | internal/storage/engine.go:40-49 | the last entry of a key whose type is known decides: its value if it is a put, a tombstone if it is a delete |
| EngineState.UnknownEntriesDoNot | internal/storage/engine.go:40-49 | a key with entries of unknown type only stays unwritten |
| Engines.Engine.Get | internal/storage/engine.go:54-82 | if the last write to the key, by its position in the history, is a put, returns its value; if it is a delete, or no write has the key, nothing |
| Engines.ServeWrites | internal/storage/engine.go:84-163 | over any sequence of writes to one engine, with any failures: readers see the writes that took effect, and without failures all do and both marks are kept; as long as the log can give the writes back and nothing is left unsynced, every disk state of the whole run recovers to an initial part of them plus at most one in flight, and the run is a run of the machine |
| Engines.OpenEmpty | internal/storage/engine.go:22-52 | an engine opened on an empty directory is valid, bounded and recoverable, shows no writes, and stands for the initial state of the machine |
| Engines.Reopen | internal/storage/engine.go:22-52 | an engine opened on a disk that a modelled engine may have left at any moment stands for exactly the machine state after that crash and restart |
| Engines.LiveOnce | internal/storage/engine.go:22-163 | one life of the engine: from a disk that some run of the machine leaves, with a log that takes appends, every disk state it passes through is again one that some run leaves, crashes included, as long as the log can give the writes back and nothing is left unsynced |
| Engines.EmptyIsOfSomeRun | internal/storage/engine.go:22-30 | the empty directory is such a disk |
| EngineState.MomentsKept | internal/storage/engine.go:84-127 | one more write, effective or not, leaves only disks that recover to a moment of the run |
| Engines.Engine.Log | internal/storage/engine.go:87-102 | the log append: an error changes nothing, or leaves a line behind that is counted as unsynced; success puts the disk one write ahead of memory if the log can give the write back, and then whatever a crash on the way leaves, torn lines included, recovers to the history without or with the write |
| Engines.Engine.LogStep | internal/storage/engine.go:87-102 | the same append is the step of the machine that logs this write |
| Engines.Engine.Put | internal/storage/engine.go:84-106 | the write is added to the history, or nothing changes and an operation has failed; the bounds are kept when nothing fails; if the log can give the write back and nothing is left unsynced, every state the disk goes through recovers to the history before or after, and the call was a run of the machine, each disk state included |
| Engines.Engine.Delete | internal/storage/engine.go:108-127 | the same for a tombstone |
| Engines.Engine.FlushMemTableIfNeeded | internal/storage/engine.go:129-151 | away from the mark nothing happens; at the mark, with encodable entries and no failure, the memtable ends empty and level 0 grows by one table or is compacted away; readers, and every disk state on the way unless something is left unsynced, keep the same history on every exit; the effects are steps of the machine |
| Engines.Engine.SaveMemTable | internal/storage/engine.go:135-139 | on success the tables alone hold all writes; failures come only from failed operations or entries that cannot be encoded |
| Engines.Engine.Truncate | internal/storage/engine.go:141-145 | the log may be emptied or not, with or without an error, and nothing is lost either way |
| Engines.Engine.MaybeCompactIfNeeded | internal/storage/engine.go:153-163 | away from exactly 5 tables nothing happens; at 5, without a failure, level 0 ends empty; readers see the same history, and so do restarts unless a manifest is left unsynced; the effects are steps of the machine |
| EngineState.EmptyDiskRecovers | internal/storage/engine.go:22-30 | an empty data directory recovers to no writes |
| EngineState.LogTorn | internal/storage/wal.go:72-103 | a crash in the middle of an append leaves the replayed log without the write, or with it if the log can give it back |
| EngineState.AppendTraced | internal/storage/engine.go:97-100 | every disk that the append of a write that the log can give back may leave behind, whole or torn, recovers to the history without or with the write |
| EngineState.UnreadableWriteIsRecoveredIff | internal/storage/wal.go:131-182 | a write that the log cannot give back hides all lines behind it: unless two checksums collide, a restart finds the map with the write exactly when it would not have changed the map |
| EngineState.FlushedHolds | internal/storage/engine.go:135-147 | with the memtable's run as newest table, the tables alone hold the history, and so do memtable or log on top of them |
| EngineState.CompactedAnswers | internal/storage/compaction.go:328-339 | the new level 1 alone answers every key as levels 0 and 1 did |
| EngineState.SafeIsTraced | internal/storage/sstable.go:477-516 | a change during which every disk state agrees with the old or the new levels recovers to the same history throughout |
| EngineState.EmptiedRecovers | internal/storage/wal.go:105-129 | with everything in the tables the log may be emptied, and then takes appends again |
| Wals.GetAll | internal/storage/wal.go:131-182 | returns the payloads before the first bad line, with an error exactly when there is a bad line |
| Wals.ReadLine | internal/storage/wal.go:143-170 | a line is accepted exactly if it fits the scanner, is an object of the right form, and its checksum is that of its payload marshalled again |
| Wals.AppendIsReadBackIff | internal/storage/wal.go:72-103 | an appended entry is read back behind everything before it if and only if the file ended with a newline and held no bad line, the entry is valid UTF-8, and its line is at most 65536 bytes long |
| Wals.LoggableIff | internal/storage/wal.go:141-150 | the log can give back exactly the entries in valid UTF-8 whose line, its newline included, is at most 65536 bytes long |
| Wals.InvalidByteIsLost | internal/storage/wal.go:63-71 | a failing input: a value of the one byte 0xFF is read back as U+FFFD, whose text is another one than the text that was checksummed |
| Wals.UnreadableLineHidesTheRest | internal/storage/wal.go:161-170 | behind a line whose checksum no longer fits, or that is too long, nothing is read any more |
| Json.QuoteRoundTrip | internal/storage/wal.go:63-71 | decoding an encoded string replaces each byte that belongs to no UTF-8 character by U+FFFD and changes nothing else, through all escapes |
| Json.RereadSameIff | internal/storage/wal.go:147-170 | an entry comes back as it was, and is marshalled to the text it was checksummed with, if and only if its strings are valid UTF-8 |
| Json.PayloadText | internal/storage/wal.go:31-35 | the payload of a put and of a delete, byte by byte: key, type and value between literal field names |
| Json.AsciiText | internal/storage/wal.go:63-71 | which ASCII characters are escaped in it, and how |
| Json.LongText | internal/storage/wal.go:63-71 | a longer character stands for itself, but for the two line separators |
| Json.BrokenText | internal/storage/wal.go:63-71 | a byte of no character is written as the escape of U+FFFD |
| Json.TextGoesOn | internal/storage/wal.go:63-71 | a string is written one character after the other |
| Json.RuneIsScalar | internal/storage/wal.go:63-71 | what counts as a character are exactly the encodings of the numbers below 0x110000 that are no surrogates |
| Json.FitsIff | internal/storage/wal.go:24-29 | the line, with its eight checksum digits in front of the payload's fields, is scanned exactly if it fits 65536 bytes with its newline |
| Wals.LogRoundTrip | internal/storage/wal.go:131-182 | a log written by completed appends is read back in full and in order if and only if the log can give back each of its entries |
| Wals.TornTailReadsTheRest | internal/storage/wal.go:141-150 | after one crash in the middle of an append all completed entries are read back, and the torn one if its text was complete and the log can give it back |
| Wals.WriteBehindTornTailIsLost | internal/storage/wal.go:73 | a write appended behind a torn line is lost at the next restart, and takes the torn one with it, whatever the log held before: recovery does not repair the log |
| MemTables.MemTable.Put | internal/storage/memtable.go:29-39 | inserts or overwrites the put and returns the number of keys |
| MemTables.MemTable.Delete | internal/storage/memtable.go:41-48 | inserts or overwrites a tombstone and returns the number of keys |
| MemTables.MemTable.Get | internal/storage/memtable.go:20-27 | answers as a scan of the entries would |
| SkipLists.GenerateLevel | internal/storage/memtable_skiplist.go:32-39 | the level of a new node is between 1 and 16 |
| SkipLists.SkipList.Add | internal/storage/memtable_skiplist.go:41-73 | the contents become the old ones with the entry inserted in key order or overwritten, all 16 levels of links stay correct, and the size is the number of keys, for every choice of node levels |
| SkipLists.SkipList.FindPredecessors | internal/storage/memtable_skiplist.go:43-50 | the update array holds, for each level, the last node before the key |
| SkipLists.SkipList.Link | internal/storage/memtable_skiplist.go:66-72 | splicing a node into its levels inserts exactly its entry |
| SkipLists.SkipList.Get | internal/storage/memtable_skiplist.go:75-89 | the search through the levels agrees with a scan of the contents |
| SkipLists.SkipList.Entries | internal/storage/memtable_skiplist.go:92-103 | the walk along the lowest level returns exactly the contents, in byte-wise ascending order of the keys: at the first difference the smaller byte, or the key that ends |
| Base.LessIsBytewise | internal/storage/memtable_skiplist.go:43-50 | the order of keys compares the first byte that differs, and a key comes before its own extensions |
| SkipLists.SkipList.Clear | internal/storage/memtable_skiplist.go:105-111 | the list is empty and valid |
| SkipLists.SkipList.ContentsSorted | internal/storage/memtable_skiplist.go:92-103 | a valid list always holds strictly increasing keys |
| SkipLists.LevelsAreNested | internal/storage/memtable_skiplist.go:15-21 | following the links of a level visits strictly increasing keys, every level is a sublist of the one below, and the lowest holds every node |
| SkipLists.NextTallInserted | internal/storage/memtable_skiplist.go:66-70 | inserting a node captures exactly the links of its levels that jump over its position |
| Base.UpsertLookup | internal/storage/memtable_skiplist.go:41-73 | after a write, its key has the written entry and every other key its old one |
| Base.UpsertSorted | internal/storage/memtable_skiplist.go:41-73 | a write keeps keys strictly increasing and adds a key exactly when it was absent |
| Base.SameLookupsSameRun | internal/storage/memtable_skiplist.go:92-103 | sorted runs that answer every key alike are equal, so the contents are determined by the answers |
| Tables.WritePaddedString | internal/storage/block_based_table.go:92-104 | succeeds exactly for 1 to 64 bytes without NUL, and then writes the bytes and nothing else |
| Tables.EncodeDataBlock | internal/storage/block_based_table.go:62-90 | succeeds exactly for at most 31 strictly sorted encodable entries, and yields the block laid out byte by byte with its checksum |
| Tables.ReadBlock | internal/storage/block_based_table.go:140-175 | returns the block at the index, parsed from its page, or the error of the first check that fails: range, size, checksum, count, entries |
| Tables.ReadChecksum | internal/storage/block_based_table.go:148-151 | the loop recomposes the stored checksum from its eight bytes |
| Tables.BlockRoundTrip | internal/storage/block_based_table.go:62-175 | reading an encoded block gives back its entries, puts and tombstones told apart |
| Tables.IndexRoundTrip | internal/storage/block_based_table.go:106-136 | opening a written file recovers the first key of every block |
| Tables.TableRoundTrip | internal/storage/block_based_table.go:30-175 | for every accepted list, the file opens and its blocks together hold exactly the list, tombstones without value |
| TableFiles.WriteBlockBasedTable | internal/storage/block_based_table.go:30-60 | accepts exactly at most 1953 entries, in byte-wise ascending order, with keys and put values of 1 to 64 bytes without 0; and then data page b is at byte 4096 * (b + 1), entry j in it has its key at 128 + 128 * j and its value at 192 + 128 * j, the count is at byte 8 behind the checksum of all the rest, and the index page has the number of pages at byte 0 and the first key of page b at 64 + 64 * b; all other bytes are 0 |
| TableFiles.OpenBlockBasedTable | internal/storage/block_based_table.go:106-136 | opens exactly the files of 4096 * (n + 1) bytes with n <= 63 at byte 0 and n ascending non-empty keys from byte 64 on, each filled up with zeros, and returns these keys |
| TableFormat.AcceptedIff | internal/storage/block_based_table.go:30-41 | what the writer demands, in numbers: order, lengths and bytes |
| TableFormat.DataBlockHolds | internal/storage/block_based_table.go:62-90 | where checksum, count, keys and values stand in a data page, and that all other bytes are 0 |
| TableFormat.TableFileHolds | internal/storage/block_based_table.go:30-60 | where index keys and data pages stand in a file |
| TableFormat.ParsedIffReads | internal/storage/block_based_table.go:140-175 | a page is read as these entries if and only if its checksum fits, its count is theirs and at most 31, and each slot holds its key and value, filled up with zeros, the keys not empty and ascending |
| TableFormat.IndexedIffOpens | internal/storage/block_based_table.go:106-136 | an index page is read as these keys if and only if file size, count and fields are theirs |
| TableFiles.Search | internal/storage/block_based_table.go:178-186 | binary search finds the least index at which a monotone predicate holds |
| TableFiles.LookupInChunk | internal/storage/block_based_table.go:178-186 | only the last block whose first key is not behind the key can hold it |
| TableFiles.Get | internal/storage/block_based_table.go:177-192 | two binary searches over an intact file answer exactly as a scan of its entries; only a damaged block makes them fail |
| Bloom.BitOrSets | internal/storage/bloom_filter.go:58 | setting a bit sets that bit and no other |
| Bloom.BloomFilter.Add | internal/storage/bloom_filter.go:53-60 | sets exactly the bits (h1 + i * h2) mod 2^32 mod 2096 for i < 5, for any hashes h1 and h2 of the key, and keeps the others |
| Bloom.FoundIn | internal/storage/bloom_filter.go:62-71 | true exactly when for all i < 5 the bit (h1 + i * h2) mod 2^32 mod 2096 is set |
| Bloom.FoundIff | internal/storage/bloom_filter.go:62-71 | the lookup and the setting of bits agree with this arithmetic, and with bit idx mod 8 of byte idx / 8 |
| Bloom.AddsIff | internal/storage/bloom_filter.go:53-60 | the same for what an addition changes |
| Bloom.AddedIsFound | internal/storage/bloom_filter.go:53-71 | an added key is found, and everything found before still is |
| Bloom.BloomFilterForEntries | internal/storage/bloom_filter.go:35-41 | a bit is set exactly when it is one of these five for some entry's key |
| Bloom.FilterCovers | internal/storage/bloom_filter.go:35-41 | every key of the entries is found |
| Bloom.NotFoundNotThere | internal/storage/bloom_filter.go:62-71 | a key that is not found is not among the entries: no false negatives |
| Bloom.SidecarRoundTrip | internal/storage/bloom_filter.go:73-147 | reading a written sidecar gives back the filter |
| Bloom.SidecarLayout | internal/storage/bloom_filter.go:95-106 | the 294 bytes of a sidecar: magic, version, the three parameters, the checksum of the bits, the bits |
| Bloom.SidecarAccepted | internal/storage/bloom_filter.go:121-147 | whatever is accepted as a sidecar agrees with what would be written for its filter in every byte that is inspected |
| Stores.SstableStore.constructor | internal/storage/sstable.go:51-66 | a restart brings back exactly the levels, tables, order and ranges that the disk agrees with, whatever filters can be read |
| Stores.SstableStore.SearchTable | internal/storage/sstable.go:541-565 | one table behind its range and its filter answers as a scan of its entries |
| Stores.SstableStore.GetKey | internal/storage/sstable.go:518-569 | with ranges and filters, present or absent, the answer equals the newest-first scan of all of level 0 and then all of level 1 |
| StoreState.OutOfRange | internal/storage/sstable.go:162-164 | a key outside a recorded range is not in the table |
| Stores.SstableStore.PruneTables | internal/storage/compaction.go:93-115 | exactly the tables whose file is there are kept, in order; at most filters without a table go, and nothing at all when no table is missing |
| Stores.SstableStore.PruneLevels | internal/storage/sstable.go:116-144 | pruning intact levels keeps tables, order and recorded ranges |
| Stores.SstableStore.LoadFilters | internal/storage/sstable.go:69-84 | the filters loaded are exactly those sidecars of listed tables that can be read, and each covers its table |
| Stores.SstableStore.LoadLevelFilters | internal/storage/sstable.go:71-80 | the same for one level: a table has a filter if and only if its sidecar is there and is accepted, and then that one |
| Stores.SstableStore.SaveLevel0SSTable | internal/storage/sstable.go:311-347 | on success level 0 has one more table holding exactly the entries and level 1 is unchanged; on failure nothing in memory changes; unless a manifest is left unsynced, every disk state on the way agrees with the levels before or after; errors only for a failed operation or entries that cannot be encoded |
| Stores.SstableStore.AppendTableToManifest | internal/storage/sstable.go:477-516 | manifest and memory are updated separately and end naming the same tables in the same order; an error leaves memory alone, and the disk too unless the manifest was left unsynced |
| Stores.SstableStore.RegisterBloomFilter | internal/storage/sstable.go:87-104 | if the sidecar of the table can be read, its filter is in level 0 afterwards; tables, ranges and answers do not change, and every filter covers its table |
| StoreIO.WriteSortedSSTableFile | internal/storage/sstable.go:366-410 | on success table and filter are in place and hold the entries; whatever happens, only the files of this name change |
| StoreIO.RewriteManifest | internal/storage/sstable.go:412-475 | on success the manifest on disk reads back as the given levels; an error leaves the disk unchanged, or a manifest behind that is counted as unsynced; no other file changes |
| StoreIO.RemoveSSTableAndBloom | internal/storage/sstable.go:106-114 | only the files of this name change, however far the removal gets, and both are gone if nothing fails |
| StoreState.FlushAgrees | internal/storage/sstable.go:477-516 | once its file is in place, the new table can become the newest of level 0 and everything else stays as it is |
| StoreState.NewNameIsNew | internal/storage/sstable.go:292-301 | the name of the next level-0 table is one that no level lists |
| StoreState.UnlistedFiles | internal/storage/sstable.go:366-410 | while only files of an unlisted table change, every disk state agrees with the levels |
| StoreState.PublishedSafely | internal/storage/compaction.go:335-352 | work before the manifest rename, the rename, and work after it leave only disks that agree with the old or the new levels |
| StoreState.RangesAscend | internal/storage/compaction.go:263-264 | after a compaction the recorded ranges are the exact first and last keys of their tables, pairwise disjoint and ascending |
| Naming.AtoiDecimal | internal/storage/sstable.go:268-280 | parsing a printed number gives the number, up to the largest int |
| Naming.DecimalDigits | internal/storage/sstable.go:292-301 | a printed number has the digit n / 10^k mod 10 at place k, and no zero in front |
| Naming.ValueDigits | internal/storage/sstable.go:274 | a parsed number has the digits it is written with |
| Naming.AtoiIs | internal/storage/sstable.go:274 | a number may have a sign, must have a digit, and must fit 64 bits |
| Naming.TableIndexOfName | internal/storage/sstable.go:268-280 | the index of a generated name is its number |
| Naming.NameIs | internal/storage/sstable.go:268-280 | the names with index n are exactly sst-, text that parses to n, and .db; the generated one has the digits of n |
| Naming.GetNextSSTableIndex | internal/storage/sstable.go:282-290 | one more than the largest index in use |
| Naming.FreshName | internal/storage/sstable.go:282-301 | the name with the next index is none of the listed ones |
| Naming.NamesDiffer | internal/storage/sstable.go:268-301 | different numbers give different names |
| Manifests.PrintManifest | internal/storage/sstable.go:435-459 | the loops print for each level [, L, its number, ] and a newline, then a line for each table, its name or in level 1 with a range its name, a tab, the first key quoted, a tab, the last key quoted, and then a blank line |
| Manifests.GetAllSSTables | internal/storage/sstable.go:168-239 | such text, for arbitrary levels, plain table names and keys, and behind any lines that are no headers, is read as exactly these levels; any text is read line by line, up to the first line that is rejected |
| Manifests.LinesAreText | internal/storage/sstable.go:435-459 | the printed lines, joined, are this text |
| Manifests.TextReadBack | internal/storage/sstable.go:168-239 | this text is read back as its levels, tables and ranges |
| Manifests.HeaderIff | internal/storage/sstable.go:194 | a line is a header exactly if it is [L, at least one digit, and ] |
| Manifests.RangeLineIff | internal/storage/sstable.go:245-266 | a level-1 line with a tab is accepted exactly if it has three fields, the first not empty, and the others are quoted keys that are not in the wrong order |
| Manifests.RangeLineRoundTrip | internal/storage/sstable.go:245-266 | a printed level-1 line is read back as its table and range for arbitrary keys, exactly when the range is not inverted |
| Manifests.ManifestRoundTrip | internal/storage/sstable.go:168-475 | what is printed for levels is read back as the same levels, tables and level-1 ranges in the same order, for arbitrary key strings |
| Heaps.BeforeAsymmetric | internal/storage/compaction.go:72-82 | the order of heap items is asymmetric |
| Heaps.NotBeforeTransitive | internal/storage/compaction.go:72-82 | and its complement is transitive, so a least item is least among all |
| Heaps.SstableHeap.Push | internal/storage/compaction.go:84 | adds exactly the item and restores the heap |
| Heaps.SstableHeap.Pop | internal/storage/compaction.go:85-91 | removes exactly one item, which no remaining item goes before |
| Heaps.SstableHeap.Init | internal/storage/compaction.go:215 | makes a heap of the same items |
| Readers.SstableReader.Advance | internal/storage/compaction.go:35-56 | hands out the first unread entry across block boundaries, or reports the end exactly when none is left; it fails only on a block that cannot be read |
| Readers.BlocksOfRun | internal/storage/compaction.go:35-56 | the blocks of an intact file, read in turn, are exactly its entries in order |
| Merge.LeastAnswers | internal/storage/compaction.go:272-291 | the first item popped for a key is the answer of the newest-first lookup for that key |
| Merge.MergeStep | internal/storage/compaction.go:272-308 | popping, emitting unless the key was emitted last, and advancing keeps: emitted and unread entries together answer as the sources did, and emitted keys strictly increase |
| Merge.MergeEnds | internal/storage/compaction.go:310-313 | with all sources read, the emitted run alone answers as the sources did |
| Merge.MergedKeys | internal/storage/compaction.go:272-308 | the emitted run holds every key of the sources exactly once and no other |
| Mergers.Merger.AddTable | internal/storage/compaction.go:173-204 | the table's entries become the last source and its first entry joins the heap; an empty table is left out |
| Mergers.Merger.PopLeast | internal/storage/compaction.go:273 | takes the head of a source that no other head goes before |
| Mergers.Merger.MoveOn | internal/storage/compaction.go:294-307 | the popped source moves on by one entry and the heap again holds all heads |
| Mergers.Merger.Exhausted | internal/storage/compaction.go:272 | an empty heap means that every source has been read to its end |
| Mergers.UnreadDrops | internal/storage/compaction.go:294-297 | each round leaves one unread entry less, which is why the loop ends |
| Compactions.Output.FreshTableName | internal/storage/compaction.go:247-258 | the loop ends with a generated name that no level-1 file has |
| Compactions.Output.FlushChunk | internal/storage/compaction.go:241-270 | a non-empty chunk becomes a new table under a fresh name with its exact range; the encoder never rejects it: an error means that an operation failed |
| Compactions.Output.Take | internal/storage/compaction.go:275-292 | emits an item with a new key, starting a new table when the chunk is full, and drops one whose key was emitted last |
| Compactions.AddTables | internal/storage/compaction.go:173-204 | the non-empty tables of a level whose files are there become sources, in order; missing ones are skipped |
| Compactions.MergeAll | internal/storage/compaction.go:272-313 | the new tables together hold a sorted run that answers every key as the sources did, all but the last with exactly 1953 entries |
| Compactions.SourcesAnswer | internal/storage/compaction.go:206-213 | leaving out empty tables, the sources answer as levels 0 and 1 |
| Compactions.PublishAgrees | internal/storage/compaction.go:320-333 | the new levels agree with the files the merge has put in place |
| Compactions.Publish | internal/storage/compaction.go:320-340 | on success manifest and memory name exactly the new tables with their ranges; an error leaves memory alone, and the disk too unless the manifest was left unsynced |
| Compactions.Discard | internal/storage/compaction.go:219-229 | the cleanup removes only tables that did not exist when the compaction began, and all of those if nothing fails |
| Compactions.RemoveSources | internal/storage/compaction.go:342-352 | the merged tables are gone, with their filters, if no removal fails; every disk state on the way agrees with the new levels |
| Compactions.CompactSSTables | internal/storage/compaction.go:128-356 | with fewer than two level-0 tables nothing but filters may change; otherwise success leaves level 0 empty and a level 1 of new names that alone answers every key as both levels did, in full tables with recorded ranges, and if nothing fails the merged files are gone; an error means that an operation failed, and leaves levels and every table file as they were; unless a manifest is left unsynced, every disk state on the way agrees with the levels before or after |
| Lsm.ScanChunks | internal/storage/sstable.go:541-566 | searching consecutive pieces of a sorted run, last piece first, is searching the run |
| Lsm.PiecesAscend | internal/storage/compaction.go:232-285 | consecutive pieces of a sorted run cover disjoint ascending key ranges |
| Refinement.StartedIsAbstract | internal/storage/engine.go:22-52 | a restarted engine stands for an idle machine state that satisfies the invariant, with the log, tables, memtable and history at hand |
| Refinement.LogModel | internal/storage/engine.go:87-102 | a log append that succeeds is the logging step |
| Refinement.ApplyModel | internal/storage/engine.go:103 | the memtable update is the applying step, and the write takes effect in both histories |
| Refinement.SaveModel | internal/storage/sstable.go:311-347 | the table written and listed by a flush are the two steps of the machine that write and list it |
| Refinement.TruncateModel | internal/storage/engine.go:141-145 | the truncation, succeeding or failing, with the log emptied or not, is the step of the machine of that outcome |
| Refinement.CompactModel | internal/storage/compaction.go:128-356 | a compaction that succeeds is a run of the machine through start, one step for each new table, publication and all removals, and ends with exactly the files listed afterwards |
| Refinement.RunGoesOn | internal/storage/engine.go:22-163 | what is reached from the end of a run is the end of a run, so that all theorems about runs apply to the engine |
| Refinement.RunSurvivesCrash | internal/storage/engine.go:22-52 | and so is what a crash and a restart make of it |
| Refinement.AppendIsFollowed | internal/storage/wal.go:72-103 | every disk that an append may leave, whole, torn or untouched, is that of the machine before or after its logging step |
| Refinement.SafeIsFollowed | internal/storage/sstable.go:477-516 | every disk state during a flush or a compaction is that of a machine state on the way |
| Refinement.DiskTellsOne | internal/storage/engine.go:22-30 | what a disk tells is determined: the tables it names, in order, and the run of each file |
| Refinement.RestartIsCrashAndRecover | internal/storage/engine.go:22-52 | the state of the engine that starts on such a disk is that of the machine's crash and restart |

## Left out

- cmd/server, cmd/client, cmd/gen: HTTP, retries, metrics and test generation hold no storage property.
- saveLevel0SSTable and writeSSTableFile: the map-taking variants are used by tests only and sort before calling the same writer.
- Temporary files, chmod, fsync and file handles: a file appears by one atomic rename or not at all; leftover temporary files are not part of the model.
- Lookups on unreadable files: getKey logs and skips such a table (internal/storage/sstable.go:549-558); here listed files can be read.
- Stores.SstableStore.SaveLevel0SSTable: does not model table numbers that overflow a Go int; it requires fewer level-0 tables than that, and so do Engines.Engine.Put and Engines.Engine.Delete.
- Json.Unquoted: does not join surrogate escapes, which the encoder never writes; unknown fields, white space and field order of a log line's object are not part of the model.
- Text outside ASCII in the manifest: trimming removes ASCII white space only, which is all that generated lines can end in.
- Drift.DriftIsExact: its runs write what the log can give back, and leave no append unsynced; what these do to a restart is said by EngineState.UnreadableWriteIsRecoveredIff and Faults.UnsyncedAppendIsHarmlessIff, for the restart that follows.
- Marks.RestartIsBoundedIff: the equivalence is about runs without a further failure; one failed flush at the mark passes it from any state.
- Engines.LiveOnce: says what the disks are when it starts on a log that takes appends; behind a torn line the engine runs, but Wals.WriteBehindTornTailIsLost says what becomes of its next writes.
- Levels above 1: getKey never reads them and nothing creates them; the levels of a store are 0 and 1.
- Mutexes: each locked section is one method call, or one step of the step machine; memtable and store reads of one Get are two.
- Logging, and skip list level probabilities: a node's level is any number from 1 to 16.
- Array identity of a node's next pointers: each node's links are a sequence field that is updated in place.
