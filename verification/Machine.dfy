// The engine as a step machine: one step per durable or published effect, with crashes in between.

module Machine {
  import opened Base
  import opened Lsm
  import opened Tables
  import Wals

  const FLUSH_THRESHOLD: nat := MAX_ENTRIES
  const COMPACTION_THRESHOLD: nat := 5

  // A write is the entry it leaves behind; a delete leaves a tombstone without value.
  type Write = e: Entry | e.Type == Put || (e.Type == Delete && e.V == []) witness Entry([], [], Delete)

  // ---------- The abstract map ----------

  // The last write to the key, straight from the list of writes.
  function LastWrite(writes: seq<Write>, key: bytes): Option<StorageEntry> {
    if writes == [] then None
    else if writes[|writes| - 1].K == key then Some(writes[|writes| - 1].Stored())
    else LastWrite(writes[..|writes| - 1], key)
  }

  // The write at i is the one that counts, if no later one is to its key.
  ghost predicate LastAt(writes: seq<Write>, i: int, key: bytes) {
    0 <= i < |writes| && writes[i].K == key && forall j :: i < j < |writes| ==> writes[j].K != key
  }

  lemma {:induction false} LastWriteAt(writes: seq<Write>, i: nat, key: bytes)
    requires LastAt(writes, i, key)
    ensures LastWrite(writes, key) == Some(StorageEntry(writes[i].Type, writes[i].V))
  {
    var n := |writes| - 1;
    if i < n {
      LastWriteAt(writes[..n], i, key);
    }
  }

  lemma {:induction false} NeverWritten(writes: seq<Write>, key: bytes)
    requires forall i :: 0 <= i < |writes| ==> writes[i].K != key
    ensures LastWrite(writes, key) == None
  {
    if writes != [] {
      NeverWritten(writes[..|writes| - 1], key);
    }
  }

  // What a reader of the map sees: a tombstone and an absent key look alike.
  function Visible(answer: Option<StorageEntry>): Option<bytes> {
    if answer.Some? && answer.value.Type != Delete then Some(answer.value.Value) else None
  }

  // Applying the writes one after the other to an empty table, as recovery does.
  function Replay(writes: seq<Write>): Run {
    if writes == [] then [] else Upsert(Replay(writes[..|writes| - 1]), writes[|writes| - 1])
  }

  lemma {:induction false} ReplayIsLastWrite(writes: seq<Write>, key: bytes)
    ensures Sorted(Replay(writes)) && Lookup(Replay(writes), key) == LastWrite(writes, key)
  {
    if writes != [] {
      var init, w := writes[..|writes| - 1], writes[|writes| - 1];
      ReplayIsLastWrite(init, key);
      UpsertSorted(Replay(init), w);
      UpsertLookup(Replay(init), w, key);
    }
  }

  // ---------- State ----------

  // A table is identified by its level and its name.
  datatype Id = Id(level: nat, name: bytes)

  // The durable state: log, table files, and the two lists of the manifest.
  datatype Disk = Disk(wal: seq<Write>, files: map<Id, Run>, l0: seq<bytes>, l1: seq<bytes>)

  datatype Pc =
    | Idle
    | Logged(w: Write)
    | Applied
    | TableWritten(name: bytes)
    | Listed
    | Truncated
    | Cleared
    | Compacting(chunks: seq<Run>, written: seq<bytes>)
    | Published(stale: set<Id>)
    | Down

  // done is the history of writes that have taken effect: the abstract map.
  datatype State = State(disk: Disk, mem: Run, l0: seq<bytes>, l1: seq<bytes>, pc: Pc, done: seq<Write>)

  function Ids(level: nat, names: seq<bytes>): set<Id> {
    set i | 0 <= i < |names| :: Id(level, names[i])
  }

  // The runs of the listed tables, in order.
  function Runs(files: map<Id, Run>, level: nat, names: seq<bytes>): (runs: seq<Run>)
    ensures |runs| == |names|
  {
    seq(|names|, i requires 0 <= i < |names| =>
      if Id(level, names[i]) in files then files[Id(level, names[i])] else [])
  }

  function Stored(files: map<Id, Run>, l0: seq<bytes>, l1: seq<bytes>, key: bytes): Option<StorageEntry> {
    StoreLookup(Runs(files, 0, l0), Runs(files, 1, l1), key)
  }

  function Overlay(mem: Run, files: map<Id, Run>, l0: seq<bytes>, l1: seq<bytes>, key: bytes): Option<StorageEntry> {
    if Lookup(mem, key).Some? then Lookup(mem, key) else Stored(files, l0, l1, key)
  }

  // What a Get sees of the store, and of the whole engine.
  function StoreView(s: State, key: bytes): Option<StorageEntry> {
    Stored(s.disk.files, s.l0, s.l1, key)
  }

  function View(s: State, key: bytes): Option<StorageEntry> {
    Overlay(s.mem, s.disk.files, s.l0, s.l1, key)
  }

  // Listed tables whose file is gone are dropped on restart.
  function Pruned(files: map<Id, Run>, level: nat, names: seq<bytes>): seq<bytes> {
    if names == [] then []
    else
      var init, last := Pruned(files, level, names[..|names| - 1]), names[|names| - 1];
      if Id(level, last) in files then init + [last] else init
  }

  // What the engine would answer after restarting from this disk.
  function Recovered(d: Disk, key: bytes): Option<StorageEntry> {
    Overlay(Replay(d.wal), d.files, Pruned(d.files, 0, d.l0), Pruned(d.files, 1, d.l1), key)
  }

  // The one write that may be durable without having taken effect in memory.
  function InFlight(pc: Pc): seq<Write> {
    if pc.Logged? then [pc.w] else []
  }

  // ---------- Compaction, as a relation between runs ----------

  // The new level 1 answers alone as levels 0 and 1 did together, in tables that are full but for the last.
  ghost predicate Compacts(chunks: seq<Run>, l0: seq<Run>, l1: seq<Run>) {
    && Sorted(Flatten(chunks))
    && (forall key :: Lookup(Flatten(chunks), key) == StoreLookup(l0, l1, key))
    && (forall i :: 0 <= i < |chunks| ==> 1 <= |chunks[i]| <= 1953)
    && (forall i :: 0 <= i < |chunks| - 1 ==> |chunks[i]| == 1953)
  }

  // ---------- Steps ----------

  ghost predicate Init(s: State) {
    s == State(Disk([], map[], [], []), [], [], [], Idle, [])
  }

  // Put or Delete appends an entry to the log that the log can give back.
  ghost predicate LogWrite(s: State, s': State, w: Write) {
    s.pc.Idle? && Wals.Loggable(w) && s' == s.(disk := s.disk.(wal := s.disk.wal + [w]), pc := Logged(w))
  }

  // The memtable takes the write; from here on readers see it.
  ghost predicate ApplyWrite(s: State, s': State) {
    s.pc.Logged? && s' == s.(mem := Upsert(s.mem, s.pc.w), pc := Applied, done := s.done + [s.pc.w])
  }

  // The memtable does not hold exactly the threshold: no flush.
  ghost predicate SkipFlush(s: State, s': State) {
    s.pc.Applied? && |s.mem| != FLUSH_THRESHOLD && s' == s.(pc := Idle)
  }

  // A flush that fails before its table is listed; the table file may be left behind.
  ghost predicate FlushFails(s: State, s': State, name: bytes, left: bool) {
    && s.pc.Applied? && |s.mem| == FLUSH_THRESHOLD && name !in s.l0
    && s' == s.(pc := Idle, disk := if left then s.disk.(files := s.disk.files[Id(0, name) := s.mem]) else s.disk)
  }

  // The new table is renamed into place under a name that is not listed; it may replace a file of that name
  // that an earlier crash left behind.
  ghost predicate WriteTable(s: State, s': State, name: bytes) {
    && s.pc.Applied? && |s.mem| == FLUSH_THRESHOLD && Writable(s.mem)
    && name !in s.l0
    && s' == s.(pc := TableWritten(name), disk := s.disk.(files := s.disk.files[Id(0, name) := s.mem]))
  }

  // The manifest cannot be replaced: the new table is removed again, or left behind.
  ghost predicate ListingFails(s: State, s': State, left: bool) {
    && s.pc.TableWritten?
    && s' == s.(pc := Idle,
                disk := if left then s.disk else s.disk.(files := s.disk.files - {Id(0, s.pc.name)}))
  }

  // The manifest is renamed into place; readers wait for the store's lock until memory agrees with it.
  ghost predicate ListTable(s: State, s': State) {
    && s.pc.TableWritten?
    && s' == s.(pc := Listed, disk := s.disk.(l0 := s.disk.l0 + [s.pc.name]), l0 := s.l0 + [s.pc.name])
  }

  ghost predicate TruncateWal(s: State, s': State) {
    s.pc.Listed? && s' == s.(pc := Truncated, disk := s.disk.(wal := []))
  }

  // Truncation reports an error; the log may have been emptied all the same.
  ghost predicate TruncateFails(s: State, s': State, emptied: bool) {
    s.pc.Listed? && s' == s.(pc := Idle, disk := if emptied then s.disk.(wal := []) else s.disk)
  }

  ghost predicate ClearMem(s: State, s': State) {
    s.pc.Truncated? && s' == s.(pc := Cleared, mem := [])
  }

  ghost predicate SkipCompaction(s: State, s': State) {
    s.pc.Cleared? && |s.l0| != COMPACTION_THRESHOLD && s' == s.(pc := Idle)
  }

  ghost predicate StartCompaction(s: State, s': State, chunks: seq<Run>) {
    && s.pc.Cleared? && |s.l0| == COMPACTION_THRESHOLD
    && Compacts(chunks, Runs(s.disk.files, 0, s.l0), Runs(s.disk.files, 1, s.l1))
    && s' == s.(pc := Compacting(chunks, []))
  }

  // The next chunk goes to a level-1 file whose name was never used by a listed table nor by any file.
  ghost predicate WriteChunk(s: State, s': State, name: bytes) {
    && s.pc.Compacting? && |s.pc.written| < |s.pc.chunks|
    && name !in s.l1 && Id(1, name) !in s.disk.files
    && s' == s.(pc := Compacting(s.pc.chunks, s.pc.written + [name]),
                disk := s.disk.(files := s.disk.files[Id(1, name) := s.pc.chunks[|s.pc.written|]]))
  }

  // Any error before publication: some of the new tables are removed, others may be left behind.
  ghost predicate CompactionFails(s: State, s': State, removed: set<Id>) {
    && s.pc.Compacting? && removed <= Ids(1, s.pc.written)
    && s' == s.(pc := Idle, disk := s.disk.(files := s.disk.files - removed))
  }

  ghost predicate Publish(s: State, s': State) {
    && s.pc.Compacting? && |s.pc.written| == |s.pc.chunks|
    && s' == s.(pc := Published(Ids(0, s.l0) + Ids(1, s.l1)),
                disk := s.disk.(l0 := [], l1 := s.pc.written), l0 := [], l1 := s.pc.written)
  }

  // An old table's file is removed, or its removal fails and is only logged.
  ghost predicate RemoveOld(s: State, s': State, id: Id, removed: bool) {
    && s.pc.Published? && id in s.pc.stale
    && s' == s.(pc := Published(s.pc.stale - {id}),
                disk := if removed then s.disk.(files := s.disk.files - {id}) else s.disk)
  }

  ghost predicate FinishCompaction(s: State, s': State) {
    s.pc.Published? && s.pc.stale == {} && s' == s.(pc := Idle)
  }

  // A crash loses the volatile state. A logged write will be replayed, so it takes effect here.
  ghost predicate Crash(s: State, s': State) {
    && !s.pc.Down?
    && s' == State(s.disk, [], [], [], Down, s.done + InFlight(s.pc))
  }

  ghost predicate Recover(s: State, s': State) {
    && s.pc.Down?
    && s' == s.(mem := Replay(s.disk.wal), l0 := Pruned(s.disk.files, 0, s.disk.l0),
                l1 := Pruned(s.disk.files, 1, s.disk.l1), pc := Idle)
  }

  // The steps of a flush and of a write that succeed, and those that fail.
  ghost predicate WriteStep(s: State, s': State) {
    || (exists w :: LogWrite(s, s', w)) || ApplyWrite(s, s') || SkipFlush(s, s')
    || (exists n :: WriteTable(s, s', n)) || ListTable(s, s') || TruncateWal(s, s') || ClearMem(s, s')
  }

  ghost predicate CompactionStep(s: State, s': State) {
    || SkipCompaction(s, s') || (exists chunks :: StartCompaction(s, s', chunks)) || (exists n :: WriteChunk(s, s', n))
    || Publish(s, s') || (exists id, r :: RemoveOld(s, s', id, r)) || FinishCompaction(s, s')
  }

  ghost predicate FailureStep(s: State, s': State) {
    || (exists n, left :: FlushFails(s, s', n, left)) || (exists left :: ListingFails(s, s', left))
    || (exists emptied :: TruncateFails(s, s', emptied)) || (exists removed :: CompactionFails(s, s', removed))
  }

  // What happens while the engine is up.
  ghost predicate UpStep(s: State, s': State) {
    WriteStep(s, s') || CompactionStep(s, s') || FailureStep(s, s')
  }

  ghost predicate Next(s: State, s': State) {
    UpStep(s, s') || Crash(s, s') || Recover(s, s')
  }

  // ---------- Steps after which the disk may know more or less than memory ----------

  // The append of any write at all, with whatever a reader will then make of the log.
  ghost predicate LogAnyWrite(s: State, s': State, w: Write) {
    s.pc.Idle? && s' == s.(disk := s.disk.(wal := s'.disk.wal), pc := Logged(w))
  }

  // An append that reports an error, although its line, or a part of it, may be in the file.
  ghost predicate LogFails(s: State, s': State) {
    s.pc.Idle? && s' == s.(disk := s.disk.(wal := s'.disk.wal))
  }

  // rewriteManifestFromLevels renames the manifest and then fails to sync the directory. The flush takes this for
  // a table that was not listed, and removes it again, if it can.
  ghost predicate ListingUnsynced(s: State, s': State, left: bool) {
    && s.pc.TableWritten?
    && s' == s.(pc := Idle,
                disk := s.disk.(l0 := s.disk.l0 + [s.pc.name],
                                files := if left then s.disk.files else s.disk.files - {Id(0, s.pc.name)}))
  }

  // A compaction takes it for a result that was not published: it keeps its old lists in memory and removes its new
  // tables, as far as the removals succeed and no crash comes in between.
  ghost predicate PublishUnsynced(s: State, s': State, removed: set<Id>) {
    && s.pc.Compacting? && |s.pc.written| == |s.pc.chunks| && removed <= Ids(1, s.pc.written)
    && s' == s.(pc := Idle, disk := s.disk.(l0 := [], l1 := s.pc.written, files := s.disk.files - removed))
  }

  ghost predicate UnsyncedStep(s: State, s': State) {
    || LogFails(s, s') || (exists left :: ListingUnsynced(s, s', left))
    || (exists removed :: PublishUnsynced(s, s', removed))
  }

  // All that can happen while the engine is up.
  ghost predicate LiveStep(s: State, s': State) {
    UpStep(s, s') || (exists w :: LogAnyWrite(s, s', w)) || UnsyncedStep(s, s')
  }

  ghost predicate IsRun(trace: seq<State>) {
    |trace| > 0 && Init(trace[0]) && forall i :: 0 <= i < |trace| - 1 ==> Next(trace[i], trace[i + 1])
  }
}
