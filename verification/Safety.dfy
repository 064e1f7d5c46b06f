// What every step of the engine keeps, and what follows for whole runs.

module Safety {
  import opened Base
  import opened Lsm
  import opened Tables
  import opened Machine
  import opened Memory

  // ---------- The invariant ----------

  // Every listed table has its file, and memory and manifest list the same tables in the same order.
  ghost predicate ListsAgree(s: State) {
    && AllThere(s.disk.files, 0, s.disk.l0) && AllThere(s.disk.files, 1, s.disk.l1)
    && (!s.pc.Down? ==> s.l0 == s.disk.l0 && s.l1 == s.disk.l1)
  }

  // The log over the listed tables holds the writes that have taken effect, and the write in flight.
  ghost predicate DiskIsMap(s: State) {
    forall key :: Overlay(Replay(s.disk.wal), s.disk.files, s.disk.l0, s.disk.l1, key)
               == LastWrite(s.done + InFlight(s.pc), key)
  }

  // From its truncation on, the log is empty until the flush is over, and a compaction that follows.
  ghost predicate LogInv(s: State) {
    s.pc.Truncated? || s.pc.Cleared? || s.pc.Compacting? ==> s.disk.wal == []
  }

  ghost predicate Inv(s: State) {
    FilesSorted(s.disk.files) && ListsAgree(s) && DiskIsMap(s) && LogInv(s) && (!s.pc.Down? ==> Live(s))
  }

  lemma {:induction false} NothingPruned(files: map<Id, Run>, level: nat, names: seq<bytes>)
    requires AllThere(files, level, names)
    ensures Pruned(files, level, names) == names
  {
    if names != [] {
      NothingPruned(files, level, names[..|names| - 1]);
    }
  }

  // ---------- Each step ----------

  // What each step does to log and history, and that memory and manifest go on naming the same tables.
  lemma DiskFollows(s: State, s': State)
    requires UpStep(s, s') && ListsAgree(s) && LogInv(s)
    ensures s'.l0 == s'.disk.l0 && s'.l1 == s'.disk.l1 && !s'.pc.Down? && LogInv(s')
    ensures (exists w :: LogWrite(s, s', w)) || s'.done + InFlight(s'.pc) == s.done + InFlight(s.pc)
    ensures || (exists w :: LogWrite(s, s', w)) || s'.disk.wal == s.disk.wal
            || (s.pc.Listed? && s'.disk.wal == [] && s'.done == s.done)
    ensures ListTable(s, s') ==> InFlight(s.pc) == []
  {
    hide Compacts, Writable, AllThere, Upsert;
    assert s.done + [] == s.done;
  }

  lemma LogDiskIsMap(s: State, s': State, w: Write, key: bytes)
    requires Inv(s) && LogWrite(s, s', w)
    ensures Overlay(Replay(s'.disk.wal), s'.disk.files, s'.disk.l0, s'.disk.l1, key) == LastWrite(s'.done + [w], key)
  {
    assert s'.disk.wal[..|s.disk.wal|] == s.disk.wal && (s.done + [w])[..|s.done|] == s.done;
    assert s.done + [] == s.done;
    ReplayIsLastWrite(s.disk.wal, key);
    UpsertLookup(Replay(s.disk.wal), w, key);
    assert Overlay(Replay(s.disk.wal), s.disk.files, s.disk.l0, s.disk.l1, key)
        == LastWrite(s.done + InFlight(s.pc), key);
  }

  // A restart would find the same history after the step, and the logged write, too.
  lemma DiskKept(s: State, s': State, key: bytes)
    requires Inv(s) && UpStep(s, s')
    ensures Overlay(Replay(s'.disk.wal), s'.disk.files, s'.disk.l0, s'.disk.l1, key) ==
            LastWrite(s'.done + InFlight(s'.pc), key)
  {
    if w :| LogWrite(s, s', w) {
      LogDiskIsMap(s, s', w, key);
    } else {
      DiskFollows(s, s');
      StoreAnswerSteps(s, s', key);
      assert Overlay(Replay(s.disk.wal), s.disk.files, s.disk.l0, s.disk.l1, key)
          == LastWrite(s.done + InFlight(s.pc), key);
      assert s.done + [] == s.done;
      if s.pc.Listed? {
        assert StoreView(s, key) == LastWrite(s.done, key);
      }
    }
  }

  lemma CrashKeeps(s: State, s': State)
    requires Inv(s) && Crash(s, s')
    ensures Inv(s')
  {
    assert s'.done + InFlight(s'.pc) == s.done + InFlight(s.pc);
  }

  lemma RecoverKeeps(s: State, s': State)
    requires Inv(s) && Recover(s, s')
    ensures Inv(s')
  {
    NothingPruned(s.disk.files, 0, s.disk.l0);
    NothingPruned(s.disk.files, 1, s.disk.l1);
    ReplayIsLastWrite(s.disk.wal, []);
    assert s'.done + InFlight(s'.pc) == s.done + InFlight(s.pc) == s.done;
    forall key ensures View(s', key) == LastWrite(s'.done, key) {
      assert Overlay(Replay(s.disk.wal), s.disk.files, s.disk.l0, s.disk.l1, key)
          == LastWrite(s.done + InFlight(s.pc), key);
    }
  }

  // ---------- All steps, all runs ----------

  lemma UpStepKeeps(s: State, s': State)
    requires Inv(s) && UpStep(s, s')
    ensures Inv(s')
  {
    LiveStepKeeps(s, s');
    DiskFollows(s, s');
    forall key
      ensures Overlay(Replay(s'.disk.wal), s'.disk.files, s'.disk.l0, s'.disk.l1, key) ==
              LastWrite(s'.done + InFlight(s'.pc), key)
    {
      DiskKept(s, s', key);
    }
  }

  lemma NextKeeps(s: State, s': State)
    requires Inv(s) && Next(s, s')
    ensures Inv(s')
  {
    if UpStep(s, s') { UpStepKeeps(s, s'); }
    else if Crash(s, s') { CrashKeeps(s, s'); }
    else { RecoverKeeps(s, s'); }
  }

  lemma InitHolds(s: State)
    requires Init(s)
    ensures Inv(s)
  {
    assert s.done + InFlight(s.pc) == [];
  }

  lemma {:induction false} RunKeeps(trace: seq<State>, i: nat)
    requires IsRun(trace) && i < |trace|
    ensures Inv(trace[i])
  {
    if i == 0 {
      InitHolds(trace[0]);
    } else {
      RunKeeps(trace, i - 1);
      NextKeeps(trace[i - 1], trace[i]);
    }
  }

  // Main result. However a run interleaves writes, flushes, compactions, failures, crashes and restarts,
  // a restart from any point finds exactly the writes that have taken effect, together with the one write
  // that was logged but not yet applied; and while the engine is up, readers see exactly the former.
  lemma RecoveryIsExact(trace: seq<State>, i: nat, key: bytes)
    requires IsRun(trace) && i < |trace|
    ensures Recovered(trace[i].disk, key) == LastWrite(trace[i].done + InFlight(trace[i].pc), key)
    ensures !trace[i].pc.Down? ==> View(trace[i], key) == LastWrite(trace[i].done, key)
    ensures |InFlight(trace[i].pc)| <= 1
  {
    RunKeeps(trace, i);
    var s := trace[i];
    NothingPruned(s.disk.files, 0, s.disk.l0);
    NothingPruned(s.disk.files, 1, s.disk.l1);
    assert Overlay(Replay(s.disk.wal), s.disk.files, s.disk.l0, s.disk.l1, key)
        == LastWrite(s.done + InFlight(s.pc), key);
    if !s.pc.Down? {
      assert View(s, key) == LastWrite(s.done, key);
    }
  }

  lemma {:induction false} HistoryGrows(trace: seq<State>, i: nat, j: nat)
    requires IsRun(trace) && i <= j < |trace|
    ensures trace[i].done <= trace[j].done
  {
    if i < j {
      hide Next, Init;
      HistoryGrows(trace, i, j - 1);
    }
  }

  lemma {:induction false} UnwrittenSince(writes: seq<Write>, n: nat, key: bytes)
    requires n <= |writes| && forall k :: n <= k < |writes| ==> writes[k].K != key
    ensures LastWrite(writes, key) == LastWrite(writes[..n], key)
  {
    if n < |writes| {
      UnwrittenSince(writes[..|writes| - 1], n, key);
      assert writes[..|writes| - 1][..n] == writes[..n];
    } else {
      assert writes[..n] == writes;
    }
  }

  // Nothing that took effect is ever undone. A key that nobody has written since keeps its value through all that
  // comes later, flushes, compactions, failures, crashes and restarts: for readers, and for a restart.
  lemma EffectiveWritesStay(trace: seq<State>, i: nat, j: nat, key: bytes)
    requires IsRun(trace) && i <= j < |trace|
    ensures trace[i].done <= trace[j].done
    ensures var writes := trace[j].done + InFlight(trace[j].pc);
            (forall k :: |trace[i].done| <= k < |writes| ==> writes[k].K != key) ==>
              && Recovered(trace[j].disk, key) == LastWrite(trace[i].done, key)
              && (!trace[j].pc.Down? ==> View(trace[j], key) == LastWrite(trace[i].done, key))
  {
    var n, done := |trace[i].done|, trace[j].done;
    var writes := done + InFlight(trace[j].pc);
    HistoryGrows(trace, i, j);
    RecoveryIsExact(trace, j, key);
    if forall k :: n <= k < |writes| ==> writes[k].K != key {
      forall k | n <= k < |done| ensures done[k].K != key { assert writes[k] == done[k]; }
      UnwrittenSince(writes, n, key);
      UnwrittenSince(done, n, key);
      assert writes[..n] == trace[i].done == done[..n];
    }
  }

  ghost predicate CrashLoop(trace: seq<State>) {
    && |trace| > 0 && Inv(trace[0])
    && forall i :: 0 <= i < |trace| - 1 ==> Crash(trace[i], trace[i + 1]) || Recover(trace[i], trace[i + 1])
  }

  // However often the engine crashes and restarts in a row, the disk stays as it is, and whenever the engine is up
  // readers find what was there before the first crash, with the write that was on its way.
  lemma {:induction false} CrashLoopLosesNothing(trace: seq<State>, i: nat, key: bytes)
    requires CrashLoop(trace) && 0 < i < |trace|
    ensures Inv(trace[i]) && trace[i].disk == trace[0].disk
    ensures trace[i].done == trace[0].done + InFlight(trace[0].pc) && InFlight(trace[i].pc) == []
    ensures !trace[i].pc.Down? ==> View(trace[i], key) == LastWrite(trace[0].done + InFlight(trace[0].pc), key)
  {
    if i > 1 {
      CrashLoopLosesNothing(trace, i - 1, key);
    }
    assert Next(trace[i - 1], trace[i]);
    NextKeeps(trace[i - 1], trace[i]);
    assert trace[i - 1].done + [] == trace[i - 1].done;
    if !trace[i].pc.Down? {
      assert View(trace[i], key) == LastWrite(trace[i].done, key);
    }
  }

  // A compaction that fails, with or without its manifest renamed into place, leaves the lists in memory and every
  // file as they were, but for tables it has written itself, none of which readers go to; and no lookup changes.
  // Unless the manifest was renamed, that goes for the manifest and a restart, too.
  lemma FailedCompactionKeepsTables(s: State, s': State, removed: set<Id>, key: bytes)
    requires Inv(s) && (CompactionFails(s, s', removed) || PublishUnsynced(s, s', removed))
    ensures s'.l0 == s.l0 && s'.l1 == s.l1
    ensures forall id :: id in s.disk.files && id !in s'.disk.files ==> id in Ids(1, s.pc.written) && !ReadBy(s, id)
    ensures forall id :: id in s'.disk.files ==> id in s.disk.files && s'.disk.files[id] == s.disk.files[id]
    ensures StoreView(s', key) == StoreView(s, key) && View(s', key) == View(s, key)
    ensures CompactionFails(s, s', removed) ==>
              && s'.disk.l0 == s.disk.l0 && s'.disk.l1 == s.disk.l1
              && Recovered(s'.disk, key) == Recovered(s.disk, key)
  {
    hide Live, Lookup, DiskIsMap;
    FailedIsLive(s, s', removed);
    hide LiveStep;
    StoreAnswerSteps(s, s', key);
    if CompactionFails(s, s', removed) {
      FailedRecovers(s, s', removed, key);
    }
    forall id | id in s.disk.files && id !in s'.disk.files ensures !ReadBy(s, id) {}
  }

  lemma FailedIsLive(s: State, s': State, removed: set<Id>)
    requires Inv(s) && (CompactionFails(s, s', removed) || PublishUnsynced(s, s', removed))
    ensures Live(s) && LiveStep(s, s') && !ListTable(s, s')
  {}

  lemma FailedRecovers(s: State, s': State, removed: set<Id>, key: bytes)
    requires Inv(s) && CompactionFails(s, s', removed) && StoreView(s', key) == StoreView(s, key)
    requires AllThere(s'.disk.files, 0, s'.l0) && AllThere(s'.disk.files, 1, s'.l1)
    ensures Recovered(s'.disk, key) == Recovered(s.disk, key)
  {
    hide Live, DiskIsMap, Lookup;
    NothingPruned(s.disk.files, 0, s.disk.l0);
    NothingPruned(s.disk.files, 1, s.disk.l1);
    NothingPruned(s'.disk.files, 0, s.disk.l0);
    NothingPruned(s'.disk.files, 1, s.disk.l1);
  }

  ghost predicate ListedIn(s: State, id: Id) {
    (id.level == 0 && id.name in s.disk.l0) || (id.level == 1 && id.name in s.disk.l1)
  }

  // A table that a step makes the manifest name has its file before the step, and keeps it unless the step is
  // cleaning up behind a manifest that could not be synced.
  lemma NewlyListed(s: State, s': State, id: Id)
    requires Inv(s) && LiveStep(s, s') && ListedIn(s', id) && !ListedIn(s, id)
    ensures id in s.disk.files && (id in s'.disk.files ==> s'.disk.files[id] == s.disk.files[id])
    ensures id in s'.disk.files || UnsyncedStep(s, s')
  {
    hide DiskIsMap, ViewIsMap, StoreIsMap, Compacts, FilesSorted;
    ManifestSteps(s, s');
    hide LiveStep;
  }

  lemma ManifestSteps(s: State, s': State)
    requires LiveStep(s, s')
    ensures || (s'.disk.l0 == s.disk.l0 && s'.disk.l1 == s.disk.l1) || ListTable(s, s') || Publish(s, s')
            || (UnsyncedStep(s, s') && !s.pc.Idle?)
  {
    hide Compacts, Writable;
  }

  // No step overwrites or removes a table that the manifest names before or after it, but for one: the cleanup
  // behind a manifest that was renamed and could not be synced removes new tables that the manifest now names.
  lemma ListedTablesAreSafe(s: State, s': State, id: Id)
    requires Inv(s) && (LiveStep(s, s') || Crash(s, s') || Recover(s, s')) && (ListedIn(s, id) || ListedIn(s', id))
    ensures id in s.disk.files && (id in s'.disk.files ==> s'.disk.files[id] == s.disk.files[id])
    ensures id in s'.disk.files || (UnsyncedStep(s, s') && !ListedIn(s, id))
  {
    if LiveStep(s, s') {
      if ListedIn(s, id) {
        ReadTablesAreSafe(s, s', id);
      } else {
        NewlyListed(s, s', id);
      }
    }
  }

}
