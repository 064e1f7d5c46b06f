// What memory and its tables keep while the engine is up, whatever becomes of log and manifest.

module Memory {
  import opened Base
  import opened Lsm
  import opened Tables
  import opened Machine

  // ---------- The invariant ----------

  ghost predicate AllThere(files: map<Id, Run>, level: nat, names: seq<bytes>) {
    forall i :: 0 <= i < |names| ==> Id(level, names[i]) in files
  }

  // Every table file, listed or not, holds a sorted run.
  ghost predicate FilesSorted(files: map<Id, Run>) {
    forall id :: id in files ==> Sorted(files[id])
  }

  // Readers see the writes that have taken effect.
  ghost predicate ViewIsMap(s: State) {
    forall key :: View(s, key) == LastWrite(s.done, key)
  }

  ghost predicate StoreIsMap(s: State) {
    forall key :: StoreView(s, key) == LastWrite(s.done, key)
  }

  ghost predicate ChunksOnDisk(s: State, chunks: seq<Run>, written: seq<bytes>) {
    && |written| <= |chunks|
    && Compacts(chunks, Runs(s.disk.files, 0, s.l0), Runs(s.disk.files, 1, s.l1))
    && (forall i :: 0 <= i < |written| ==>
         Id(1, written[i]) in s.disk.files && s.disk.files[Id(1, written[i])] == chunks[i])
    && (forall i :: 0 <= i < |written| ==> written[i] !in s.l1)
  }

  ghost predicate PcInv(s: State) {
    match s.pc
    case TableWritten(n) => n !in s.l0 && Id(0, n) in s.disk.files && s.disk.files[Id(0, n)] == s.mem
    case Listed => StoreIsMap(s)
    case Truncated => StoreIsMap(s)
    case Cleared => s.mem == []
    case Compacting(chunks, written) => s.mem == [] && ChunksOnDisk(s, chunks, written)
    case Published(stale) => s.mem == [] && stale !! Ids(0, s.l0) + Ids(1, s.l1)
    case _ => true
  }

  // Neither the log nor the manifest is spoken of.
  ghost predicate Live(s: State) {
    && !s.pc.Down? && Sorted(s.mem) && FilesSorted(s.disk.files)
    && AllThere(s.disk.files, 0, s.l0) && AllThere(s.disk.files, 1, s.l1)
    && ViewIsMap(s) && PcInv(s)
  }

  // ---------- Files that are not listed do not matter ----------

  ghost predicate ReadBy(s: State, id: Id) {
    (id.level == 0 && id.name in s.l0) || (id.level == 1 && id.name in s.l1)
  }

  // A step that changes neither list in memory.
  ghost predicate ListsStay(s: State, s': State) {
    s'.l0 == s.l0 && s'.l1 == s.l1
  }

  lemma OnlyTwoStepsList(s: State, s': State)
    requires LiveStep(s, s') && !ListTable(s, s') && !Publish(s, s')
    ensures ListsStay(s, s')
  {}

  // No step overwrites or removes a table that readers go to before the step.
  lemma ReadTablesAreSafe(s: State, s': State, id: Id)
    requires Live(s) && LiveStep(s, s') && ReadBy(s, id)
    ensures id in s.disk.files && id in s'.disk.files && s'.disk.files[id] == s.disk.files[id]
  {
    hide Compacts, Writable, ViewIsMap, FilesSorted, Upsert;
    if !Publish(s, s') && !ListTable(s, s') { OnlyTwoStepsList(s, s'); }
  }

  // Whatever changes on disk, the listed tables hold the runs they held.
  lemma ReadRunsStay(s: State, s': State)
    requires Live(s) && LiveStep(s, s')
    ensures AllThere(s'.disk.files, 0, s.l0) && Runs(s'.disk.files, 0, s.l0) == Runs(s.disk.files, 0, s.l0)
    ensures AllThere(s'.disk.files, 1, s.l1) && Runs(s'.disk.files, 1, s.l1) == Runs(s.disk.files, 1, s.l1)
  {
    forall i | 0 <= i < |s.l0|
      ensures Id(0, s.l0[i]) in s'.disk.files && s'.disk.files[Id(0, s.l0[i])] == s.disk.files[Id(0, s.l0[i])]
    {
      ReadTablesAreSafe(s, s', Id(0, s.l0[i]));
    }
    forall i | 0 <= i < |s.l1|
      ensures Id(1, s.l1[i]) in s'.disk.files && s'.disk.files[Id(1, s.l1[i])] == s.disk.files[Id(1, s.l1[i])]
    {
      ReadTablesAreSafe(s, s', Id(1, s.l1[i]));
    }
    hide LiveStep, Live;
  }

  // ---------- The store's answer ----------

  // A listed table that holds the memtable answers for its keys, and for no others.
  lemma ListTableAnswers(s: State, s': State, key: bytes)
    requires Live(s) && ListTable(s, s')
    ensures AllThere(s'.disk.files, 0, s'.l0)
    ensures StoreView(s', key) == View(s, key) == LastWrite(s.done, key)
  {
    assert Runs(s.disk.files, 0, s'.l0) == Runs(s.disk.files, 0, s.l0) + [s.mem];
    ScanSnoc(Runs(s.disk.files, 0, s.l0), s.mem, key);
  }

  // The new level 1 answers as both levels did.
  lemma PublishAnswers(s: State, s': State, key: bytes)
    requires Live(s) && Publish(s, s')
    ensures AllThere(s'.disk.files, 1, s'.l1) && Runs(s'.disk.files, 1, s'.l1) == s.pc.chunks
    ensures StoreView(s', key) == StoreView(s, key)
  {
    ScanChunks(s.pc.chunks, key);
    assert Runs(s'.disk.files, 1, s'.l1) == s.pc.chunks && Runs(s'.disk.files, 0, s'.l0) == [];
    assert Lookup(Flatten(s.pc.chunks), key)
        == StoreLookup(Runs(s.disk.files, 0, s.l0), Runs(s.disk.files, 1, s.l1), key);
  }

  // The store's answer changes only when a flush lists its table, and then to the current value of the key
  // or not at all; a whole compaction leaves it as it is.
  lemma StoreAnswerSteps(s: State, s': State, key: bytes)
    requires Live(s) && LiveStep(s, s')
    ensures AllThere(s'.disk.files, 0, s'.l0) && AllThere(s'.disk.files, 1, s'.l1)
    ensures StoreView(s', key) == if ListTable(s, s') then LastWrite(s.done, key) else StoreView(s, key)
  {
    ReadRunsStay(s, s');
    if ListTable(s, s') {
      ListTableAnswers(s, s', key);
    } else if Publish(s, s') {
      PublishAnswers(s, s', key);
    } else {
      OnlyTwoStepsList(s, s');
    }
  }

  // ---------- All steps ----------

  // Only two steps touch the memtable, and only one of them the history.
  lemma MemoryStays(s: State, s': State)
    requires LiveStep(s, s') && !ApplyWrite(s, s')
    ensures s'.done == s.done && !s.pc.Down? && !s'.pc.Down?
    ensures s'.mem == s.mem || ClearMem(s, s')
  {}

  // A file holds what it held, or the memtable, or the next chunk.
  lemma WhatFilesHold(s: State, s': State, id: Id)
    requires LiveStep(s, s') && id in s'.disk.files
    ensures || (id in s.disk.files && s'.disk.files[id] == s.disk.files[id]) || s'.disk.files[id] == s.mem
            || WritesChunk(s, s'.disk.files[id])
  {
    hide Compacts, Writable;
  }

  ghost predicate WritesChunk(s: State, run: Run) {
    s.pc.Compacting? && |s.pc.written| < |s.pc.chunks| && run == s.pc.chunks[|s.pc.written|]
  }

  lemma FilesStaySorted(s: State, s': State)
    requires Live(s) && LiveStep(s, s')
    ensures FilesSorted(s'.disk.files)
  {
    hide ViewIsMap, StoreIsMap, LiveStep;
    forall id | id in s'.disk.files ensures Sorted(s'.disk.files[id]) {
      WhatFilesHold(s, s', id);
      if WritesChunk(s, s'.disk.files[id]) {
        PieceSorted(s.pc.chunks, |s.pc.written|);
      }
    }
  }

  lemma ViewKept(s: State, s': State, key: bytes)
    requires Live(s) && LiveStep(s, s')
    ensures View(s', key) == LastWrite(s'.done, key)
  {
    StoreAnswerSteps(s, s', key);
    assert View(s, key) == LastWrite(s.done, key);
    if ApplyWrite(s, s') {
      UpsertLookup(s.mem, s.pc.w, key);
      assert s'.done[..|s.done|] == s.done;
    } else {
      MemoryStays(s, s');
      if ClearMem(s, s') {
        assert StoreView(s, key) == LastWrite(s.done, key);
      }
    }
  }

  lemma CompactionSteps(s: State, s': State)
    requires LiveStep(s, s')
    ensures s'.pc.Compacting? ==>
              ListsStay(s, s') && (StartCompaction(s, s', s'.pc.chunks) || exists n :: WriteChunk(s, s', n))
    ensures s'.pc.Published? ==> Publish(s, s') || exists id, r :: RemoveOld(s, s', id, r)
  {
    hide Compacts, Writable;
  }

  lemma HowReached(s: State, s': State)
    requires LiveStep(s, s')
    ensures s'.pc.Listed? ==> ListTable(s, s')
    ensures s'.pc.Truncated? ==> TruncateWal(s, s')
    ensures s'.pc.Cleared? ==> ClearMem(s, s')
    ensures s'.pc.Compacting? ==> s.pc.Compacting? || (s.pc.Cleared? && |s.l0| == COMPACTION_THRESHOLD)
    ensures s'.pc.Published? ==> Publish(s, s') || s.pc.Published?
  {
    CompactionSteps(s, s');
    hide LiveStep, Compacts;
  }

  lemma StoreKept(s: State, s': State)
    requires Live(s) && LiveStep(s, s') && (s'.pc.Listed? || s'.pc.Truncated?)
    ensures StoreIsMap(s')
  {
    HowReached(s, s');
    hide LiveStep;
    forall key ensures StoreView(s', key) == LastWrite(s'.done, key) {
      StoreAnswerSteps(s, s', key);
      assert s.pc.Listed? ==> StoreView(s, key) == LastWrite(s.done, key);
    }
  }

  lemma ChunksKept(s: State, s': State)
    requires Live(s) && LiveStep(s, s') && s'.pc.Compacting?
    ensures s'.mem == [] && ChunksOnDisk(s', s'.pc.chunks, s'.pc.written)
  {
    hide Compacts, ViewIsMap, FilesSorted, StoreIsMap;
    ReadRunsStay(s, s');
    CompactionSteps(s, s');
    hide LiveStep;
  }

  // The old tables are no longer read.
  lemma StaleKept(s: State, s': State)
    requires Live(s) && LiveStep(s, s') && s'.pc.Published?
    ensures s'.mem == [] && s'.pc.stale !! Ids(0, s'.l0) + Ids(1, s'.l1)
  {
    hide Compacts, ViewIsMap, FilesSorted, StoreIsMap;
    CompactionSteps(s, s');
    hide LiveStep;
    if Publish(s, s') {
      forall id | id in Ids(1, s'.l1) ensures id !in s'.pc.stale {
        var i :| 0 <= i < |s'.l1| && id == Id(1, s'.l1[i]);
        assert s'.l1[i] !in s.l1;
      }
    }
  }

  lemma PcKept(s: State, s': State)
    requires Live(s) && LiveStep(s, s')
    ensures PcInv(s')
  {
    match s'.pc
    case Listed => StoreKept(s, s');
    case Truncated => StoreKept(s, s');
    case Compacting(_, _) => ChunksKept(s, s');
    case Published(_) => StaleKept(s, s');
    case _ =>
  }

  // Every step keeps the invariant: failures, writes that the log cannot give back, and effects that were left
  // unsynced included.
  lemma LiveStepKeeps(s: State, s': State)
    requires Live(s) && LiveStep(s, s')
    ensures Live(s')
  {
    FilesStaySorted(s, s');
    PcKept(s, s');
    StoreAnswerSteps(s, s', []);
    forall key ensures View(s', key) == LastWrite(s'.done, key) { ViewKept(s, s', key); }
    if ApplyWrite(s, s') {
      UpsertSorted(s.mem, s.pc.w);
    } else {
      MemoryStays(s, s');
    }
  }

  // Every step but the memtable's own update leaves what readers see untouched: in particular a flush does so
  // at each of its points, and so does every failing exit of a flush or a compaction.
  lemma OnlyWritesChangeTheView(s: State, s': State, key: bytes)
    requires Live(s) && LiveStep(s, s') && !ApplyWrite(s, s')
    ensures View(s', key) == View(s, key)
  {
    ViewKept(s, s', key);
    MemoryStays(s, s');
    assert View(s, key) == LastWrite(s.done, key);
  }

  // ---------- The start ----------

  lemma {:induction false} PrunedThere(files: map<Id, Run>, level: nat, names: seq<bytes>)
    ensures AllThere(files, level, Pruned(files, level, names))
  {
    if names != [] {
      PrunedThere(files, level, names[..|names| - 1]);
    }
  }

  // What the engine is after a restart, with the history that the disk tells.
  function Restarted(d: Disk, writes: seq<Write>): State {
    State(d, Replay(d.wal), Pruned(d.files, 0, d.l0), Pruned(d.files, 1, d.l1), Idle, writes)
  }

  // Whatever the disk holds, the restarted engine is up with the invariant, for the map that the disk tells.
  lemma RestartIsLive(d: Disk, writes: seq<Write>)
    requires FilesSorted(d.files) && forall key :: LastWrite(writes, key) == Recovered(d, key)
    ensures Live(Restarted(d, writes))
  {
    ReplayIsLastWrite(d.wal, []);
    PrunedThere(d.files, 0, d.l0);
    PrunedThere(d.files, 1, d.l1);
    forall key ensures View(Restarted(d, writes), key) == LastWrite(writes, key) {
      assert LastWrite(writes, key) == Recovered(d, key);
    }
  }

  // ---------- Runs ----------

  // Steps of the single active writer, without a crash.
  ghost predicate LiveRun(trace: seq<State>) {
    && |trace| > 0 && Live(trace[0])
    && forall i :: 0 <= i < |trace| - 1 ==> LiveStep(trace[i], trace[i + 1])
  }

  lemma {:induction false} LiveRunKeeps(trace: seq<State>, i: nat)
    requires LiveRun(trace) && i < |trace|
    ensures Live(trace[i])
  {
    if i > 0 {
      LiveRunKeeps(trace, i - 1);
      LiveStepKeeps(trace[i - 1], trace[i]);
    }
  }
}
