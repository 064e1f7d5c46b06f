// The engine: log, memtable and tables together, and what a crash at any moment leaves behind.

module Engines {
  import opened Base
  import opened Lsm
  import opened Tables
  import opened Disks
  import opened StoreState
  import opened Stores
  import opened Compactions
  import opened Machine
  import opened EngineState
  import opened Refinement
  import opened MemTables
  import Bounds
  import Naming
  import Safety
  import Wals

  class Engine {
    const memTable: MemTable
    const store: SstableStore
    // All writes that have taken effect.
    ghost var done: seq<Write>
    // The state of the step machine that stands for this engine.
    ghost var model: State

    // Memory over tables holds exactly the last writes.
    ghost predicate Valid()
      reads this, memTable, memTable.kv, memTable.kv.Repr, store, store.disk
    {
      memTable.Valid() && store.Valid() && Holds(memTable.kv.Contents, store.levels, store.runs, done)
    }

    // So do the log and the tables on disk, and the log takes appends.
    ghost predicate Durable()
      reads this, store, store.disk
    {
      && RecoversWith(store.env, store.disk.now, store.levels, store.runs, done)
      && LogOk(store.env, store.disk.now.wal)
    }

    // The disk holds one write more than memory.
    ghost predicate Logged(w: Write)
      reads this, store, store.disk
    {
      && RecoversWith(store.env, store.disk.now, store.levels, store.runs, done + [w])
      && LogOk(store.env, store.disk.now.wal)
    }

    // Every disk state since then recovers to the writes before or to those now.
    ghost predicate TracedSince(seen: set<DiskState>, before: seq<Write>)
      reads this, store, store.disk
    {
      Traced(store.env, seen, store.disk.seen, before, done)
    }

    // Every disk state since then is that of a machine state on the way from this one.
    ghost predicate FollowedSince(seen: set<DiskState>, s: State)
      reads store, store.disk
    {
      Followed(store.env, seen, store.disk.seen, s)
    }

    // The machine state says what log, tables and memory hold.
    ghost predicate AbstractedBy(s: State)
      reads this, memTable, memTable.kv, store, store.disk
    {
      Abstracts(s, LogOf(store.env, store.disk.now.wal), store.levels, store.runs, memTable.kv.Contents, done)
    }

    // So does the engine's own, between operations, and the disk agrees.
    ghost predicate Modelled()
      reads this, memTable, memTable.kv, store, store.disk
    {
      Durable() && AbstractedBy(model) && model.pc.Idle?
    }

    // And what has happened since was a run of the machine from this state on, each disk on the way included.
    ghost predicate ModelledFrom(seen: set<DiskState>, s: State)
      reads this, memTable, memTable.kv, store, store.disk
    {
      Modelled() && Reaches(s, model) && FollowedSince(seen, s)
    }

    // Below both marks, with nothing in memory that a table could not store, and a manifest that can be added to.
    ghost predicate Bounded()
      reads this, memTable.kv, store, store.disk
    {
      && |memTable.kv.Contents| < 1953 && Bounds.AllWritable(memTable.kv.Contents)
      && |TablesAt(store.levels, 0)| < 5 && store.Published()
    }

    // NewEngine: from any disk that recovers to some writes, readers see exactly these writes. The log
    // is not repaired, so the engine is durable only if its last line was complete.
    constructor (env: Env, disk: Disks.Disk, ghost writes: seq<Write>)
      requires env.quoting.Lawful() && disk.Valid() && Recovers(env, disk.now, writes)
      modifies disk
      ensures Valid() && done == writes && store.env == env && store.disk == disk
      ensures disk.now == old(disk.now) && disk.seen == old(disk.seen) && disk.faults == old(disk.faults)
      ensures store.Published() && (LogOk(env, disk.now.wal) ==> Durable() && Modelled())
      ensures AbstractedBy(model) && model.pc.Idle?
      ensures memTable.kv.Contents == Replay(LogOf(env, disk.now.wal))
      ensures fresh(memTable) && fresh(memTable.kv) && fresh(memTable.kv.Repr) && fresh(store)
    {
      hide Abstracts, Holds, FilesAgree, ManifestOk, LogOf, LogOk, Replay;
      ghost var known, runs :| RecoversWith(env, disk.now, known, runs, writes);
      memTable := new MemTable();
      store := new SstableStore(env, disk, known, runs);
      done := writes;
      new;
      SameHolds(Replay(LogOf(env, disk.now.wal)), known, store.levels, store.runs, writes);
      Restore();
      StartModel();
    }

    method StartModel()
      requires Valid() && memTable.kv.Contents == Replay(LogOf(store.env, store.disk.now.wal))
      modifies this`model
      ensures Valid() && AbstractedBy(model) && model.pc.Idle?
    {
      ListedSorted();
      hide Abstracts, FilesAgree, LogOf;
      model := StartedIsAbstract(LogOf(store.env, store.disk.now.wal), store.levels, store.runs, done);
    }

    lemma ListedSorted()
      requires store.Valid()
      ensures LevelsOk(store.levels) && forall p :: Lists(store.levels, p) ==> Sorted(RunAt(store.runs, p))
    {
      forall p | Lists(store.levels, p) ensures Sorted(RunAt(store.runs, p)) {
        assert TableOk(store.env, store.disk.now, p, RunAt(store.runs, p));
      }
    }

    // Loads the log into memory, up to the first line that cannot be read.
    method Restore()
      requires memTable.Valid() && memTable.kv.Contents == [] && store.Valid()
      requires Holds(Replay(LogOf(store.env, store.disk.now.wal)), store.levels, store.runs, done)
      modifies memTable.kv, memTable.kv.Repr
      ensures Valid() && fresh(memTable.kv.Repr - old(memTable.kv.Repr))
      ensures store.Published() && LogOk(store.env, store.disk.now.wal) ==> Durable()
      ensures memTable.kv.Contents == Replay(LogOf(store.env, store.disk.now.wal))
    {
      hide Holds, LogOk;
      var entries, err := Wals.GetAll(store.env.crc32, store.disk.now.wal);
      ReplayLog(memTable, entries);
    }

    // A reader sees the value of the last write to the key, and nothing if that was a delete or there was none.
    method Get(key: bytes) returns (r: Option<bytes>)
      requires Valid()
      ensures forall i :: LastAt(done, i, key) ==>
                r == if done[i].Type == EntryType.Put then Some(done[i].V) else None
      ensures (forall i :: 0 <= i < |done| ==> done[i].K != key) ==> r == None
      ensures r == Visible(LastWrite(done, key))
    {
      forall i | LastAt(done, i, key)
        ensures LastWrite(done, key) == Some(StorageEntry(done[i].Type, done[i].V))
      {
        LastWriteAt(done, i, key);
      }
      if forall i :: 0 <= i < |done| ==> done[i].K != key {
        NeverWritten(done, key);
      }
      assert Stacked(memTable.kv.Contents, store.levels, store.runs, key) == LastWrite(done, key);
      var entry := memTable.Get(key);
      if entry.Some? {
        return if entry.value.Type == EntryType.Delete then None else Some(entry.value.Value);
      }
      entry := store.GetKey(key);
      if entry.Some? {
        return if entry.value.Type == EntryType.Delete then None else Some(entry.value.Value);
      }
      return None;
    }

    ghost predicate NothingUnsynced(faults: FaultCount)
      reads store.disk
    {
      store.disk.faults.unsynced == faults.unsynced
    }

    // The write goes to the log first. An error leaves everything as it was, or a line that was not synced.
    method Log(w: Write) returns (ok: bool)
      requires Valid()
      modifies store.disk
      ensures Valid() && (store.Published() <==> old(store.Published()))
      ensures !ok && NothingUnsynced(old(store.disk.faults)) ==> store.disk.now == old(store.disk.now)
      ensures ok ==> NothingUnsynced(old(store.disk.faults))
      ensures Grew(old(store.disk.faults), store.disk.faults)
      ensures !ok ==> store.disk.faults.failed > old(store.disk.faults.failed)
      ensures ok && old(Durable()) && Wals.Loggable(w) ==>
                Logged(w) && LogOf(store.env, store.disk.now.wal) == old(LogOf(store.env, store.disk.now.wal)) + [w]
      ensures old(Durable()) && Wals.Loggable(w) ==>
                Traced(store.env, old(store.disk.seen), store.disk.seen, done, done + [w])
      ensures forall d :: d in store.disk.seen ==>
                d in old(store.disk.seen) || AppendLeaves(old(store.disk.now), Wals.NewWALEntry(store.env.crc32, w), d)
    {
      ghost var d, seen, durable := store.disk.now, store.disk.seen, Durable() && Wals.Loggable(w);
      ok := store.disk.Append(Wals.NewWALEntry(store.env.crc32, w));
      SameFilesAgree(store.env, d, store.disk.now, store.levels, store.runs);
      if durable {
        AppendTraced(store.env, seen, store.disk.seen, d, store.levels, store.runs, done, w);
        LogGrows(store.env, d.wal, w);
        if ok {
          LoggedRecovers(store.env, d, store.disk.now, store.levels, store.runs, done, [w]);
        }
      }
    }

    // The same, as a step of the machine.
    method LogStep(w: Write) returns (ok: bool, ghost s: State)
      requires Valid()
      modifies store.disk
      ensures Valid() && (store.Published() <==> old(store.Published()))
      ensures !ok && NothingUnsynced(old(store.disk.faults)) ==> store.disk.now == old(store.disk.now)
      ensures ok ==> NothingUnsynced(old(store.disk.faults))
      ensures Grew(old(store.disk.faults), store.disk.faults)
      ensures !ok ==> store.disk.faults.failed > old(store.disk.faults.failed)
      ensures ok && old(Durable()) && Wals.Loggable(w) ==> Logged(w)
      ensures old(Durable()) && Wals.Loggable(w) ==>
                Traced(store.env, old(store.disk.seen), store.disk.seen, done, done + [w])
      ensures ok && old(Modelled()) && Wals.Loggable(w) ==>
                Reaches(model, s) && AbstractedBy(s) && s.pc == Pc.Logged(w)
      ensures old(Modelled()) && Wals.Loggable(w) ==> FollowedSince(old(store.disk.seen), model)
    {
      hide Abstracts, Reaches, Holds, Traced, LogOf, SstableStore.Valid, SstableStore.Published;
      hide DiskAgrees, AppendLeaves, Wals.Loggable;
      ghost var d, log := store.disk.now, LogOf(store.env, store.disk.now.wal);
      ok := Log(w);
      s := model;
      if old(Modelled()) && Wals.Loggable(w) {
        s := LogModel(model, log, store.levels, store.runs, memTable.kv.Contents, done, w);
        AppendIsFollowed(store.env, old(store.disk.seen), store.disk.seen, d, store.levels, store.runs,
                         memTable.kv.Contents, done, w, model, s);
      }
    }

    method Put(key: bytes, value: bytes)
      requires Valid() && |TablesAt(store.levels, 0)| < 0x7FFF_FFFF_FFFF_FFFF
      modifies this, memTable.kv, memTable.kv.Repr, store, store.disk
      ensures Valid() && fresh(memTable.kv.Repr - old(memTable.kv.Repr))
      ensures Grew(old(store.disk.faults), store.disk.faults)
      // without a failure the write takes effect; a write that fails to be logged leaves no effect
      ensures || done == old(done) + [Entry(key, value, EntryType.Put)]
              || (done == old(done) && store.disk.faults.failed > old(store.disk.faults.failed))
      ensures old(Bounded()) && EntryWritable(PutEntry(key, value)) && store.disk.faults == old(store.disk.faults) ==>
                Bounded()
      // if the log can give the write back and no effect was left unsynced, no crash loses or invents anything
      ensures old(Durable()) && Wals.Loggable(PutEntry(key, value)) && NothingUnsynced(old(store.disk.faults)) ==>
                && Durable()
                && Traced(store.env, old(store.disk.seen), store.disk.seen,
                          old(done), old(done) + [PutEntry(key, value)])
      // and what the engine did was a run of the machine
      ensures old(Modelled()) && Wals.Loggable(PutEntry(key, value)) && NothingUnsynced(old(store.disk.faults)) ==>
                ModelledFrom(old(store.disk.seen), old(model))
    {
      hide Abstracts, Reaches, Followed, Holds, Traced, RecoversWith, LogOk, LogOf;
      hide SstableStore.Valid, SstableStore.Published, Wals.Loggable, EntryWritable, DiskAgrees;
      ghost var modelled := Modelled() && Wals.Loggable(PutEntry(key, value));
      DurableIsPublished();
      var logged, s := LogStep(PutEntry(key, value));
      if !logged {
        ReachesItself(model);
      } else {
        ghost var seen := store.disk.seen;
        ghost var s' := TakePut(key, value, s);
        if modelled {
          ReachesJoin(model, s, s');
          if NothingUnsynced(old(store.disk.faults)) {
            FollowedJoin(store.env, old(store.disk.seen), seen, store.disk.seen, model, s);
          }
        }
        model := s';
        if old(Durable()) && Wals.Loggable(PutEntry(key, value)) && NothingUnsynced(old(store.disk.faults)) {
          TracedTwice(store.env, old(store.disk.seen), seen, store.disk.seen, old(done), done);
        }
      }
    }

    lemma NoneSince(seen: set<DiskState>, s: State)
      ensures Followed(store.env, seen, seen, s)
    {}

    lemma DurableIsPublished()
      ensures Durable() ==> store.Published()
    {}

    // The memtable takes the logged write and is flushed if that has filled it.
    method TakePut(key: bytes, value: bytes, ghost s: State) returns (ghost s': State)
      requires Valid() && |TablesAt(store.levels, 0)| < 0x7FFF_FFFF_FFFF_FFFF
      modifies this, memTable.kv, memTable.kv.Repr, store, store.disk
      ensures Valid() && fresh(memTable.kv.Repr - old(memTable.kv.Repr))
      ensures done == old(done) + [PutEntry(key, value)] && Grew(old(store.disk.faults), store.disk.faults)
      ensures old(Bounded()) && EntryWritable(PutEntry(key, value)) && store.disk.faults == old(store.disk.faults) ==>
                Bounded()
      ensures old(Logged(PutEntry(key, value))) && NothingUnsynced(old(store.disk.faults)) ==>
                Durable() && TracedSince(old(store.disk.seen), done)
      ensures model == old(model)
      ensures old(AbstractedBy(s)) && s.pc == Pc.Logged(PutEntry(key, value)) ==>
                Reaches(s, s') && AbstractedBy(s') && s'.pc == Idle
      ensures old(AbstractedBy(s)) && s.pc == Pc.Logged(PutEntry(key, value)) && old(store.Published())
              && NothingUnsynced(old(store.disk.faults)) ==>
                FollowedSince(old(store.disk.seen), s)
    {
      hide Abstracts, Reaches, Holds, RecoversWith, LogOk, LogOf, SstableStore.Valid, SstableStore.Published;
      var count, applied := ApplyPut(key, value, s);
      s' := FlushMemTableIfNeeded(count, applied);
      if old(AbstractedBy(s)) && s.pc == Pc.Logged(PutEntry(key, value)) {
        ReachesJoin(s, applied, s');
        if old(store.Published()) && NothingUnsynced(old(store.disk.faults)) {
          NoneSince(old(store.disk.seen), s);
          FollowedJoin(store.env, old(store.disk.seen), old(store.disk.seen), store.disk.seen, s, applied);
        }
      }
    }

    method ApplyPut(key: bytes, value: bytes, ghost s: State) returns (count: nat, ghost s': State)
      requires Valid()
      modifies this`done, memTable.kv, memTable.kv.Repr
      ensures Valid() && fresh(memTable.kv.Repr - old(memTable.kv.Repr)) && count == |memTable.kv.Contents|
      ensures memTable.kv.Contents == Upsert(old(memTable.kv.Contents), PutEntry(key, value))
      ensures count <= old(|memTable.kv.Contents|) + 1
      ensures old(Bounds.AllWritable(memTable.kv.Contents)) && EntryWritable(PutEntry(key, value)) ==>
                Bounds.AllWritable(memTable.kv.Contents)
      ensures done == old(done) + [PutEntry(key, value)]
      ensures old(AbstractedBy(s)) && s.pc == Pc.Logged(PutEntry(key, value)) ==>
                Reaches(s, s') && AbstractedBy(s') && s'.pc == Applied
    {
      hide Abstracts, Reaches, Holds, LogOf, SstableStore.Valid;
      HoldsAfterWrite(memTable.kv.Contents, store.levels, store.runs, done, PutEntry(key, value));
      WriteBounded(memTable.kv.Contents, PutEntry(key, value));
      s' := s;
      if AbstractedBy(s) && s.pc == Pc.Logged(PutEntry(key, value)) {
        s' := ApplyModel(s, LogOf(store.env, store.disk.now.wal), store.levels, store.runs,
                         memTable.kv.Contents, done, PutEntry(key, value));
      }
      count := memTable.Put(key, value);
      done := done + [PutEntry(key, value)];
    }

    method Delete(key: bytes)
      requires Valid() && |TablesAt(store.levels, 0)| < 0x7FFF_FFFF_FFFF_FFFF
      modifies this, memTable.kv, memTable.kv.Repr, store, store.disk
      ensures Valid() && fresh(memTable.kv.Repr - old(memTable.kv.Repr))
      ensures Grew(old(store.disk.faults), store.disk.faults)
      // without a failure the write takes effect; a write that fails to be logged leaves no effect
      ensures || done == old(done) + [Entry(key, [], EntryType.Delete)]
              || (done == old(done) && store.disk.faults.failed > old(store.disk.faults.failed))
      ensures old(Bounded()) && EntryWritable(DeleteEntry(key)) && store.disk.faults == old(store.disk.faults) ==>
                Bounded()
      // if the log can give the write back and no effect was left unsynced, no crash loses or invents anything
      ensures old(Durable()) && Wals.Loggable(DeleteEntry(key)) && NothingUnsynced(old(store.disk.faults)) ==>
                && Durable()
                && Traced(store.env, old(store.disk.seen), store.disk.seen, old(done), old(done) + [DeleteEntry(key)])
      // and what the engine did was a run of the machine
      ensures old(Modelled()) && Wals.Loggable(DeleteEntry(key)) && NothingUnsynced(old(store.disk.faults)) ==>
                ModelledFrom(old(store.disk.seen), old(model))
    {
      hide Abstracts, Reaches, Followed, Holds, Traced, RecoversWith, LogOk, LogOf;
      hide SstableStore.Valid, SstableStore.Published, Wals.Loggable, EntryWritable, DiskAgrees;
      ghost var modelled := Modelled() && Wals.Loggable(DeleteEntry(key));
      DurableIsPublished();
      var logged, s := LogStep(DeleteEntry(key));
      if !logged {
        ReachesItself(model);
      } else {
        ghost var seen := store.disk.seen;
        ghost var s' := TakeDelete(key, s);
        if modelled {
          ReachesJoin(model, s, s');
          if NothingUnsynced(old(store.disk.faults)) {
            FollowedJoin(store.env, old(store.disk.seen), seen, store.disk.seen, model, s);
          }
        }
        model := s';
        if old(Durable()) && Wals.Loggable(DeleteEntry(key)) && NothingUnsynced(old(store.disk.faults)) {
          TracedTwice(store.env, old(store.disk.seen), seen, store.disk.seen, old(done), done);
        }
      }
    }

    // The memtable takes the logged write and is flushed if that has filled it.
    method TakeDelete(key: bytes, ghost s: State) returns (ghost s': State)
      requires Valid() && |TablesAt(store.levels, 0)| < 0x7FFF_FFFF_FFFF_FFFF
      modifies this, memTable.kv, memTable.kv.Repr, store, store.disk
      ensures Valid() && fresh(memTable.kv.Repr - old(memTable.kv.Repr))
      ensures done == old(done) + [DeleteEntry(key)] && Grew(old(store.disk.faults), store.disk.faults)
      ensures old(Bounded()) && EntryWritable(DeleteEntry(key)) && store.disk.faults == old(store.disk.faults) ==>
                Bounded()
      ensures old(Logged(DeleteEntry(key))) && NothingUnsynced(old(store.disk.faults)) ==>
                Durable() && TracedSince(old(store.disk.seen), done)
      ensures model == old(model)
      ensures old(AbstractedBy(s)) && s.pc == Pc.Logged(DeleteEntry(key)) ==>
                Reaches(s, s') && AbstractedBy(s') && s'.pc == Idle
      ensures old(AbstractedBy(s)) && s.pc == Pc.Logged(DeleteEntry(key)) && old(store.Published())
              && NothingUnsynced(old(store.disk.faults)) ==>
                FollowedSince(old(store.disk.seen), s)
    {
      hide Abstracts, Reaches, Holds, RecoversWith, LogOk, LogOf, SstableStore.Valid, SstableStore.Published;
      var count, applied := ApplyDelete(key, s);
      s' := FlushMemTableIfNeeded(count, applied);
      if old(AbstractedBy(s)) && s.pc == Pc.Logged(DeleteEntry(key)) {
        ReachesJoin(s, applied, s');
        if old(store.Published()) && NothingUnsynced(old(store.disk.faults)) {
          NoneSince(old(store.disk.seen), s);
          FollowedJoin(store.env, old(store.disk.seen), old(store.disk.seen), store.disk.seen, s, applied);
        }
      }
    }

    method ApplyDelete(key: bytes, ghost s: State) returns (count: nat, ghost s': State)
      requires Valid()
      modifies this`done, memTable.kv, memTable.kv.Repr
      ensures Valid() && fresh(memTable.kv.Repr - old(memTable.kv.Repr)) && count == |memTable.kv.Contents|
      ensures memTable.kv.Contents == Upsert(old(memTable.kv.Contents), DeleteEntry(key))
      ensures count <= old(|memTable.kv.Contents|) + 1
      ensures old(Bounds.AllWritable(memTable.kv.Contents)) && EntryWritable(DeleteEntry(key)) ==>
                Bounds.AllWritable(memTable.kv.Contents)
      ensures done == old(done) + [DeleteEntry(key)]
      ensures old(AbstractedBy(s)) && s.pc == Pc.Logged(DeleteEntry(key)) ==>
                Reaches(s, s') && AbstractedBy(s') && s'.pc == Applied
    {
      hide Abstracts, Reaches, Holds, LogOf, SstableStore.Valid;
      HoldsAfterWrite(memTable.kv.Contents, store.levels, store.runs, done, DeleteEntry(key));
      WriteBounded(memTable.kv.Contents, DeleteEntry(key));
      s' := s;
      if AbstractedBy(s) && s.pc == Pc.Logged(DeleteEntry(key)) {
        s' := ApplyModel(s, LogOf(store.env, store.disk.now.wal), store.levels, store.runs,
                         memTable.kv.Contents, done, DeleteEntry(key));
      }
      count := memTable.Delete(key);
      done := done + [DeleteEntry(key)];
    }

    lemma WriteBounded(mem: Run, w: Write)
      requires Sorted(mem)
      ensures |Upsert(mem, w)| <= |mem| + 1
      ensures Bounds.AllWritable(mem) && EntryWritable(w) ==> Bounds.AllWritable(Upsert(mem, w))
    {
      UpsertSorted(mem, w);
      if Bounds.AllWritable(mem) && EntryWritable(w) {
        Bounds.WritableUpsert(mem, w);
      }
    }

    // Exactly at the mark the memtable moves to level 0. Nothing a reader sees changes at any point, and neither
    // does what a restart would find.
    method FlushMemTableIfNeeded(count: nat, ghost s: State) returns (ghost s': State)
      requires Valid() && count == |memTable.kv.Contents| && |TablesAt(store.levels, 0)| < 0x7FFF_FFFF_FFFF_FFFF
      modifies memTable.kv, memTable.kv.Repr, store, store.disk
      ensures Valid() && fresh(memTable.kv.Repr - old(memTable.kv.Repr))
      ensures Grew(old(store.disk.faults), store.disk.faults)
      ensures count != 1953 ==>
                && store.disk.now == old(store.disk.now) && store.levels == old(store.levels)
                && memTable.kv.Contents == old(memTable.kv.Contents)
      ensures memTable.kv.Contents == old(memTable.kv.Contents) || memTable.kv.Contents == []
      ensures count == 1953 && old(Bounds.AllWritable(memTable.kv.Contents))
              && old(store.Published()) && store.disk.faults == old(store.disk.faults) ==>
                && memTable.kv.Contents == []
                && |TablesAt(store.levels, 0)| == AfterTrigger(old(|TablesAt(store.levels, 0)|) + 1)
      ensures old(store.Published()) && NothingUnsynced(old(store.disk.faults)) ==> store.Published()
      ensures old(Durable()) && NothingUnsynced(old(store.disk.faults)) ==>
                Durable() && TracedSince(old(store.disk.seen), done)
      ensures old(AbstractedBy(s)) && s.pc == Applied ==> Reaches(s, s') && AbstractedBy(s') && s'.pc == Idle
      ensures old(AbstractedBy(s)) && s.pc == Applied && old(store.Published())
              && NothingUnsynced(old(store.disk.faults)) ==>
                FollowedSince(old(store.disk.seen), s)
    {
      hide Abstracts, Reaches, Holds, RecoversWith, LogOk, LogOf, SstableStore.Valid, SstableStore.Published, TablesAt;
      hide Bounds.AllWritable, MemTable.Valid, Followed;
      if count != Machine.FLUSH_THRESHOLD {
        s' := GivenUp(s);
        NoneSince(store.disk.seen, s);
        return;
      }
      assert |memTable.kv.Contents| <= MAX_ENTRIES;
      var err, saved := SaveMemTable(s);
      s' := saved;
      if err.Some? {
        return;
      }
      ghost var seen := store.disk.seen;
      var truncated, cut := Truncate(saved);
      s' := cut;
      if old(AbstractedBy(s)) && s.pc == Applied {
        ReachesJoin(s, saved, cut);
        if old(store.Published()) && NothingUnsynced(old(store.disk.faults)) {
          FollowedJoin(store.env, old(store.disk.seen), seen, store.disk.seen, s, saved);
        }
      }
      if !truncated {
        return;
      }
      seen := store.disk.seen;
      s' := ClearAndCompact(cut);
      if old(AbstractedBy(s)) && s.pc == Applied {
        ReachesJoin(s, cut, s');
        if old(store.Published()) && NothingUnsynced(old(store.disk.faults)) {
          FollowedJoin(store.env, old(store.disk.seen), seen, store.disk.seen, s, cut);
        }
      }
    }

    // The machine skips the flush, or gives it up.
    lemma GivenUp(s: State) returns (s': State)
      ensures AbstractedBy(s) && s.pc == Applied ==> Reaches(s, s') && AbstractedBy(s') && s'.pc == Idle
    {
      s' := s;
      if AbstractedBy(s) && s.pc == Applied {
        s' := NoFlushModel(s, LogOf(store.env, store.disk.now.wal), store.levels, store.runs, memTable.kv.Contents,
                           done);
      }
    }

    // The end of a flush: the memtable is emptied, and level 0 looked at.
    method ClearAndCompact(ghost s: State) returns (ghost s': State)
      requires Valid() && Holds([], store.levels, store.runs, done)
      modifies memTable.kv, memTable.kv.Repr, store, store.disk
      ensures Valid() && fresh(memTable.kv.Repr - old(memTable.kv.Repr)) && memTable.kv.Contents == []
      ensures Grew(old(store.disk.faults), store.disk.faults)
      ensures store.disk.faults == old(store.disk.faults) ==>
                |TablesAt(store.levels, 0)| == AfterTrigger(old(|TablesAt(store.levels, 0)|))
      ensures old(store.Published()) && NothingUnsynced(old(store.disk.faults)) ==> store.Published()
      ensures old(Durable()) && NothingUnsynced(old(store.disk.faults)) ==>
                Durable() && TracedSince(old(store.disk.seen), done)
      ensures old(AbstractedBy(s)) && s.pc == Truncated ==> Reaches(s, s') && AbstractedBy(s') && s'.pc == Idle
      ensures old(AbstractedBy(s)) && s.pc == Truncated && old(store.Published())
              && NothingUnsynced(old(store.disk.faults)) ==>
                FollowedSince(old(store.disk.seen), s)
    {
      hide Abstracts, Reaches, Followed, Holds, RecoversWith, LogOk, LogOf, SstableStore.Valid, SstableStore.Published;
      ghost var cleared := s;
      if AbstractedBy(s) && s.pc == Truncated {
        cleared := ClearModel(s, LogOf(store.env, store.disk.now.wal), store.levels, store.runs,
                              memTable.kv.Contents, done);
      }
      memTable.Clear();
      s' := MaybeCompactIfNeeded(cleared);
      if old(AbstractedBy(s)) && s.pc == Truncated {
        ReachesJoin(s, cleared, s');
        if old(store.Published()) && NothingUnsynced(old(store.disk.faults)) {
          NoneSince(old(store.disk.seen), s);
          FollowedJoin(store.env, old(store.disk.seen), old(store.disk.seen), store.disk.seen, s, cleared);
        }
      }
    }

    // Exactly at its mark, level 0 is emptied.
    function AfterTrigger(count: nat): nat {
      if count == 5 then 0 else count
    }

    // On success the tables alone hold all writes.
    method SaveMemTable(ghost s: State) returns (err: Option<Error>, ghost s': State)
      requires Valid() && |TablesAt(store.levels, 0)| < 0x7FFF_FFFF_FFFF_FFFF
      requires |memTable.kv.Contents| == 1953
      modifies store, store.disk
      ensures Valid() && Grew(old(store.disk.faults), store.disk.faults)
      ensures err.None? ==>
                && Holds([], store.levels, store.runs, done)
                && |TablesAt(store.levels, 0)| == old(|TablesAt(store.levels, 0)|) + 1
      ensures err.Some? && Bounds.AllWritable(memTable.kv.Contents) && |memTable.kv.Contents| <= MAX_ENTRIES
              && old(store.Published()) ==>
                store.disk.faults.failed > old(store.disk.faults.failed)
      ensures old(store.Published()) && NothingUnsynced(old(store.disk.faults)) ==> store.Published()
      ensures old(Durable()) && NothingUnsynced(old(store.disk.faults)) ==>
                Durable() && TracedSince(old(store.disk.seen), done)
      ensures old(AbstractedBy(s)) && s.pc == Applied ==>
                Reaches(s, s') && AbstractedBy(s') && s'.pc == if err.None? then Listed else Idle
      ensures old(AbstractedBy(s)) && s.pc == Applied && old(store.Published())
              && NothingUnsynced(old(store.disk.faults)) ==>
                FollowedSince(old(store.disk.seen), s)
    {
      ghost var levels, runs, wal, abstracted := store.levels, store.runs, store.disk.now.wal, AbstractedBy(s);
      ghost var mem, log, durable := memTable.kv.Contents, Replay(LogOf(store.env, wal)), Durable();
      var entries := memTable.Entries();
      err := store.SaveLevel0SSTable(entries);
      assert |RunsAt(store.levels, store.runs, 0)| == |TablesAt(store.levels, 0)|;
      assert |RunsAt(levels, runs, 0)| == |TablesAt(levels, 0)|;
      WritesNormal(mem);
      if err.None? {
        FlushedHolds(mem, levels, runs, store.levels, store.runs, done, mem);
        if durable {
          FlushedHolds(mem, levels, runs, store.levels, store.runs, done, log);
        }
      }
      if durable && NothingUnsynced(old(store.disk.faults)) {
        SafeIsTraced(store.env, old(store.disk.seen), store.disk.seen, wal, levels, runs, store.levels, store.runs,
                     done);
      }
      s' := s;
      if abstracted && s.pc == Applied {
        s' := SavedModel(s, LogOf(store.env, wal), levels, runs, mem, err);
        if old(store.Published()) && NothingUnsynced(old(store.disk.faults)) {
          SafeIsFollowed(store.env, old(store.disk.seen), store.disk.seen, wal, levels, runs, store.levels, store.runs,
                         mem, done, s, s');
        }
      }
    }

    lemma SavedModel(s: State, log: seq<Write>, levels: Levels, runs: RunMap, mem: Run, err: Option<Error>)
      returns (s': State)
      requires Abstracts(s, log, levels, runs, mem, done) && s.pc == Applied && |mem| == Machine.FLUSH_THRESHOLD
      requires LevelsOk(levels) && LevelsOk(store.levels)
      requires err.Some? ==> store.levels == levels && store.runs == runs
      requires err.None? ==> Writable(mem) && SstableStore.OneTableMore(store.levels, levels)
      requires err.None? ==> RunsAt(store.levels, store.runs, 0) == RunsAt(levels, runs, 0) + [mem]
      requires err.None? ==> RunsAt(store.levels, store.runs, 1) == RunsAt(levels, runs, 1)
      ensures Reaches(s, s') && Abstracts(s', log, store.levels, store.runs, mem, done)
      ensures s'.pc == if err.None? then Listed else Idle
    {
      if err.Some? {
        s' := NoFlushModel(s, log, levels, runs, mem, done);
      } else {
        NewNameIsNew(levels);
        s' := SaveModel(s, log, levels, runs, mem, done, store.levels, store.runs,
                        Naming.TableName(|TablesAt(levels, 0)| + 1));
      }
    }

    // The log may be emptied even when an error is reported; either way nothing is lost.
    method Truncate(ghost s: State) returns (ok: bool, ghost s': State)
      requires Valid() && Holds([], store.levels, store.runs, done)
      modifies store.disk
      ensures Valid() && (store.Published() <==> old(store.Published()))
      ensures Grew(old(store.disk.faults), store.disk.faults) && NothingUnsynced(old(store.disk.faults))
      ensures !ok ==> store.disk.faults.failed > old(store.disk.faults.failed)
      ensures ok && store.Published() ==> Durable()
      ensures old(Durable()) ==> Durable()
      ensures old(store.Published() || Durable()) ==> TracedSince(old(store.disk.seen), done)
      ensures old(AbstractedBy(s)) && s.pc == Listed ==>
                Reaches(s, s') && AbstractedBy(s') && s'.pc == if ok then Truncated else Idle
      ensures old(AbstractedBy(s)) && s.pc == Listed && old(store.Published()) ==>
                FollowedSince(old(store.disk.seen), s)
    {
      hide Abstracts, Reaches, Holds, RecoversWith, LogOk, LogOf, Traced, FilesAgree, ManifestOk;
      ghost var log := LogOf(store.env, store.disk.now.wal);
      ok := EmptyLog();
      s' := s;
      if old(AbstractedBy(s)) && s.pc == Listed {
        s' := TruncateModel(s, log, store.levels, store.runs, memTable.kv.Contents, done,
                            LogOf(store.env, store.disk.now.wal), ok);
        if old(store.Published()) && store.disk.seen != old(store.disk.seen) {
          PassedNow(store.env, store.disk.now, store.levels, store.runs, memTable.kv.Contents, done, s, s');
        }
      }
    }

    method EmptyLog() returns (ok: bool)
      requires Valid() && Holds([], store.levels, store.runs, done)
      modifies store.disk
      ensures Valid() && (store.Published() <==> old(store.Published()))
      ensures Grew(old(store.disk.faults), store.disk.faults) && NothingUnsynced(old(store.disk.faults))
      ensures !ok ==> store.disk.faults.failed > old(store.disk.faults.failed)
      ensures ok && store.Published() ==> Durable()
      ensures old(Durable()) ==> Durable()
      ensures old(store.Published() || Durable()) ==> TracedSince(old(store.disk.seen), done)
      ensures || LogOf(store.env, store.disk.now.wal) == []
              || (!ok && LogOf(store.env, store.disk.now.wal) == old(LogOf(store.env, store.disk.now.wal)))
      ensures store.disk.seen == old(store.disk.seen) || store.disk.seen == old(store.disk.seen) + {store.disk.now}
    {
      ghost var d := store.disk.now;
      ghost var d' := d.(wal := Wals.WalFile([], false));
      if store.Published() {
        EmptiedRecovers(store.env, d, d', store.levels, store.runs, done);
      }
      SameFilesAgree(store.env, d, d', store.levels, store.runs);
      ok := store.disk.TryUnsure(store.disk.now.(wal := Wals.WalFile([], false)));
      assert LogOf(store.env, d'.wal) == [];
    }

    // Exactly at the mark levels 0 and 1 are merged; readers and restarts find the same writes.
    method MaybeCompactIfNeeded(ghost s: State) returns (ghost s': State)
      requires Valid()
      modifies store, store.disk
      ensures Valid() && Grew(old(store.disk.faults), store.disk.faults)
      ensures |old(TablesAt(store.levels, 0))| != 5 ==>
                store.levels == old(store.levels) && store.disk.now == old(store.disk.now)
      ensures store.disk.faults == old(store.disk.faults) ==>
                |TablesAt(store.levels, 0)| == AfterTrigger(old(|TablesAt(store.levels, 0)|))
      ensures old(store.Published()) && NothingUnsynced(old(store.disk.faults)) ==> store.Published()
      ensures old(Durable()) && NothingUnsynced(old(store.disk.faults)) ==>
                Durable() && TracedSince(old(store.disk.seen), done)
      ensures old(AbstractedBy(s)) && s.pc == Cleared ==> Reaches(s, s') && AbstractedBy(s') && s'.pc == Idle
      ensures old(AbstractedBy(s)) && s.pc == Cleared && old(store.Published())
              && NothingUnsynced(old(store.disk.faults)) ==>
                FollowedSince(old(store.disk.seen), s)
    {
      s' := s;
      ghost var levels, runs, wal, durable := store.levels, store.runs, store.disk.now.wal, Durable();
      if |TablesAt(store.levels, 0)| != COMPACTION_THRESHOLD {
        s' := CompactedModel(s, LogOf(store.env, wal), levels, runs, false);
        return;
      }
      var err := CompactSSTables(store);
      assert |RunsAt(store.levels, store.runs, 0)| == |TablesAt(store.levels, 0)|;
      CompactionAnswers(levels, runs, err);
      HoldsOverSame(memTable.kv.Contents, levels, runs, store.levels, store.runs, done);
      if durable && NothingUnsynced(old(store.disk.faults)) {
        HoldsOverSame(Replay(LogOf(store.env, wal)), levels, runs, store.levels, store.runs, done);
        SafeIsTraced(store.env, old(store.disk.seen), store.disk.seen, wal, levels, runs, store.levels, store.runs,
                     done);
      }
      s' := CompactedModel(s, LogOf(store.env, wal), levels, runs, err.None?);
      if old(AbstractedBy(s)) && s.pc == Cleared && old(store.Published()) && NothingUnsynced(old(store.disk.faults)) {
        SafeIsFollowed(store.env, old(store.disk.seen), store.disk.seen, wal, levels, runs, store.levels, store.runs,
                       memTable.kv.Contents, done, s, s');
      }
    }

    lemma CompactedModel(s: State, log: seq<Write>, levels: Levels, runs: RunMap, compacted: bool) returns (s': State)
      requires LevelsOk(levels) && LevelsOk(store.levels)
      requires !compacted ==> store.levels == levels && store.runs == runs
      requires compacted ==>
                 && |TablesAt(levels, 0)| == COMPACTION_THRESHOLD && Renamed(store.levels, levels)
                 && Compacts(RunsAt(store.levels, store.runs, 1), RunsAt(levels, runs, 0), RunsAt(levels, runs, 1))
      ensures Abstracts(s, log, levels, runs, memTable.kv.Contents, done) && s.pc == Cleared ==>
                && Reaches(s, s') && s'.pc == Idle
                && Abstracts(s', log, store.levels, store.runs, memTable.kv.Contents, done)
    {
      s' := s;
      if Abstracts(s, log, levels, runs, memTable.kv.Contents, done) && s.pc == Cleared {
        if compacted {
          s' := CompactModel(s, log, levels, runs, memTable.kv.Contents, done, store.levels, store.runs);
        } else {
          s' := NoCompactionModel(s, log, levels, runs, memTable.kv.Contents, done);
        }
      }
    }

    lemma CompactionAnswers(levels: Levels, runs: RunMap, err: Option<Error>)
      requires err.Some? ==> store.levels == levels && store.runs == runs
      requires err.None? ==>
                 && RunsAt(store.levels, store.runs, 0) == []
                 && Compacts(RunsAt(store.levels, store.runs, 1), RunsAt(levels, runs, 0), RunsAt(levels, runs, 1))
      ensures SameAnswers(levels, runs, store.levels, store.runs)
    {
      if err.None? {
        CompactedAnswers(levels, runs, store.levels, store.runs);
      }
    }
  }

  lemma SameHolds(mem: Run, levels: Levels, levels': Levels, runs: RunMap, writes: seq<Write>)
    requires Holds(mem, levels, runs, writes) && SameTables(levels', levels)
    ensures Holds(mem, levels', runs, writes)
  {
    SameTablesAt(levels', levels, 0);
    SameTablesAt(levels', levels, 1);
    HoldsOverSame(mem, levels, runs, levels', runs, writes);
  }

  // Recovery: the log's entries go to the memtable one by one; entries of unknown type are skipped.
  method ReplayLog(mem: MemTable, entries: seq<Entry>)
    requires mem.Valid() && mem.kv.Contents == []
    modifies mem.kv, mem.kv.Repr
    ensures mem.Valid() && fresh(mem.kv.Repr - old(mem.kv.Repr))
    ensures forall i :: LastKnownAt(entries, i) ==>
              Lookup(mem.kv.Contents, entries[i].K) ==
              Some(StorageEntry(entries[i].Type, if entries[i].Type == EntryType.Put then entries[i].V else []))
    ensures forall key :: (forall i :: 0 <= i < |entries| && entries[i].K == key ==> entries[i].Type.Other?) ==>
              Lookup(mem.kv.Contents, key) == None
    ensures mem.kv.Contents == Replay(Writes(entries))
  {
    for i := 0 to |entries|
      invariant mem.Valid() && fresh(mem.kv.Repr - old(mem.kv.Repr))
      invariant mem.kv.Contents == Replay(Writes(entries[..i]))
    {
      ReplayStep(entries, i);
      match entries[i].Type
      case Delete =>
        var count := mem.Delete(entries[i].K);
      case Put =>
        var count := mem.Put(entries[i].K, entries[i].V);
      case Other(_) =>
    }
    assert entries[..|entries|] == entries;
    forall i | LastKnownAt(entries, i)
      ensures Lookup(mem.kv.Contents, entries[i].K) ==
              Some(StorageEntry(entries[i].Type, if entries[i].Type == EntryType.Put then entries[i].V else []))
    {
      KnownEntriesCount(entries, i);
      ReplayIsLastWrite(Writes(entries), entries[i].K);
    }
    forall key | forall i :: 0 <= i < |entries| && entries[i].K == key ==> entries[i].Type.Other?
      ensures Lookup(mem.kv.Contents, key) == None
    {
      UnknownEntriesDoNot(entries, key);
      ReplayIsLastWrite(Writes(entries), key);
    }
  }

  lemma ReplayStep(entries: seq<Entry>, i: nat)
    requires i < |entries|
    ensures Replay(Writes(entries[..i + 1])) ==
            if Effect(entries[i]) == [] then Replay(Writes(entries[..i]))
            else Upsert(Replay(Writes(entries[..i])), Effect(entries[i])[0])
  {
    var before := Writes(entries[..i]);
    assert entries[..i + 1][..i] == entries[..i];
    if Effect(entries[i]) == [] {
      assert before + [] == before;
    } else {
      assert Effect(entries[i]) == [Effect(entries[i])[0]];
      ReplayGrows(before, Effect(entries[i])[0]);
    }
  }

  // A fresh engine on an empty directory stands for the machine's initial state, so that all its runs are runs of
  // the machine.
  method OpenEmpty(env: Env) returns (e: Engine)
    requires env.quoting.Lawful()
    ensures fresh(e) && fresh(e.memTable.kv) && fresh(e.memTable.kv.Repr) && fresh(e.store) && fresh(e.store.disk)
    ensures e.Valid() && e.Modelled() && e.Bounded() && Recoverable(e) && Init(e.model) && e.done == []
  {
    hide Abstracts, FilesAgree, Holds, LogOf, Recovers, Replay;
    EmptyDiskRecovers(env);
    var disk := new Disks.Disk(EMPTY);
    e := new Engine(env, disk, []);
    EmptyEngine(e);
    FirstMoment(env);
  }

  const EMPTY: DiskState := DiskState(map[], map[], None, Wals.WalFile([], false))

  lemma EmptyEngine(e: Engine)
    requires e.Valid() && e.Modelled() && e.store.Published() && e.store.disk.now == EMPTY && e.done == []
    requires e.memTable.kv.Contents == Replay(LogOf(e.store.env, EMPTY.wal))
    ensures Init(e.model) && e.Bounded()
  {
    assert LogOf(e.store.env, EMPTY.wal) == [];
    assert e.store.levels == [];
    EmptyIsInit(e.model, e.store.levels, e.store.runs);
  }

  lemma FirstMoment(env: Env)
    requires Recovers(env, EMPTY, [])
    ensures AllMoments(env, {EMPTY}, [])
  {
    var none: seq<Write> := [];
    assert none[..0] + none == none;
    assert Recovers(env, EMPTY, none[..0] + none);
  }

  // Main result. Writers are served one after the other. Whatever they write and whatever fails, readers see the
  // writes that have taken effect, and without failures these are all of them. As long as the log can give the
  // writes back and no log line or manifest is left unsynced, the disk only ever goes through moments of the run:
  // at each of them a restart finds an initial part of the writes that have taken effect, and at most the one on
  // its way. (Level-0 numbers are finite: serving stops when they are used up.)
  method ServeWrites(e: Engine, ops: seq<Write>) returns (served: nat)
    requires e.Valid()
    modifies e, e.memTable.kv, e.memTable.kv.Repr, e.store, e.store.disk
    ensures e.Valid() && Grew(old(e.store.disk.faults), e.store.disk.faults)
    ensures served <= |ops| && (served < |ops| ==> |TablesAt(e.store.levels, 0)| >= 0x7FFF_FFFF_FFFF_FFFF)
    ensures e.store.disk.faults == old(e.store.disk.faults) ==> e.done == old(e.done) + ops[..served]
    ensures e.store.disk.faults == old(e.store.disk.faults) && old(e.Bounded()) && Bounds.AllWritable(ops) ==>
              e.Bounded()
    ensures old(Recoverable(e)) && Wals.AllLoggable(ops) && e.NothingUnsynced(old(e.store.disk.faults)) ==>
              Recoverable(e)
    ensures old(e.Modelled()) && Wals.AllLoggable(ops) && e.NothingUnsynced(old(e.store.disk.faults)) ==>
              e.ModelledFrom(old(e.store.disk.seen), old(e.model))
  {
    NothingSoFar(e);
    hide Engine.Modelled, Engine.ModelledFrom, Engine.Valid, Engine.Durable, Engine.Bounded, Recoverable, TablesAt;
    hide EntryWritable, Wals.Loggable, AllMoments, Abstracts;
    served := 0;
    assert e.done + ops[..0] == e.done;
    while served < |ops| && |TablesAt(e.store.levels, 0)| < 0x7FFF_FFFF_FFFF_FFFF
      invariant 0 <= served <= |ops|
      invariant e.Valid() && Grew(old(e.store.disk.faults), e.store.disk.faults)
      invariant fresh(e.memTable.kv.Repr - old(e.memTable.kv.Repr))
      invariant e.store.disk.faults == old(e.store.disk.faults) ==> e.done == old(e.done) + ops[..served]
      invariant e.store.disk.faults == old(e.store.disk.faults) && old(e.Bounded()) && Bounds.AllWritable(ops) ==>
                  e.Bounded()
      invariant old(Recoverable(e)) && Wals.AllLoggable(ops) && e.NothingUnsynced(old(e.store.disk.faults)) ==>
                  Recoverable(e)
      invariant old(e.Modelled()) && Wals.AllLoggable(ops) && e.NothingUnsynced(old(e.store.disk.faults)) ==>
                  e.ModelledFrom(old(e.store.disk.seen), old(e.model))
      decreases |ops| - served
    {
      ServeOne(e, ops[served], old(e.store.disk.seen), old(e.model));
      assert ops[..served + 1] == ops[..served] + [ops[served]];
      served := served + 1;
    }
  }

  lemma NothingSoFar(e: Engine)
    ensures e.Modelled() ==> e.ModelledFrom(e.store.disk.seen, e.model)
  {
    ReachesItself(e.model);
  }

  // The disk agrees with memory and takes further writes, and has only been through moments of the run.
  ghost predicate Recoverable(e: Engine)
    reads e, e.store, e.store.disk
  {
    e.Durable() && AllMoments(e.store.env, e.store.disk.seen, e.done)
  }

  method ServeOne(e: Engine, w: Write, ghost since: set<DiskState>, ghost start: State)
    requires e.Valid() && |TablesAt(e.store.levels, 0)| < 0x7FFF_FFFF_FFFF_FFFF
    modifies e, e.memTable.kv, e.memTable.kv.Repr, e.store, e.store.disk
    ensures e.Valid() && Grew(old(e.store.disk.faults), e.store.disk.faults)
    ensures fresh(e.memTable.kv.Repr - old(e.memTable.kv.Repr))
    ensures e.store.disk.faults == old(e.store.disk.faults) ==> e.done == old(e.done) + [w]
    ensures e.store.disk.faults == old(e.store.disk.faults) && old(e.Bounded()) && EntryWritable(w) ==> e.Bounded()
    ensures old(Recoverable(e)) && Wals.Loggable(w) && e.NothingUnsynced(old(e.store.disk.faults)) ==> Recoverable(e)
    ensures old(e.ModelledFrom(since, start)) && Wals.Loggable(w) && e.NothingUnsynced(old(e.store.disk.faults)) ==>
              e.ModelledFrom(since, start)
  {
    hide Engine.Modelled, Reaches, Followed, Engine.Valid, Engine.Durable, AllMoments, Traced, Engine.Bounded;
    hide EntryWritable, Wals.Loggable;
    ghost var done, seen, recoverable := e.done, e.store.disk.seen, Recoverable(e) && Wals.Loggable(w);
    if w.Type == EntryType.Put {
      assert w == Entry(w.K, w.V, EntryType.Put);
      e.Put(w.K, w.V);
    } else {
      assert w == Entry(w.K, [], EntryType.Delete);
      e.Delete(w.K);
    }
    if old(e.ModelledFrom(since, start)) && e.ModelledFrom(seen, old(e.model)) {
      ReachesJoin(start, old(e.model), e.model);
      FollowedJoin(e.store.env, since, seen, e.store.disk.seen, start, old(e.model));
    }
    if recoverable && e.NothingUnsynced(old(e.store.disk.faults)) {
      MomentsKept(e.store.env, seen, e.store.disk.seen, done, w, e.done);
    }
  }

  // ---------- From crash to crash ----------

  // A restart on a disk that a modelled engine may have left is the machine's own crash and restart.
  method Reopen(env: Env, disk: Disks.Disk, ghost m: State) returns (e: Engine)
    requires env.quoting.Lawful() && disk.Valid() && DiskIs(env, disk.now, m)
    modifies disk
    ensures fresh(e) && fresh(e.memTable.kv) && fresh(e.memTable.kv.Repr) && fresh(e.store)
    ensures e.store.disk == disk && e.store.env == env
    ensures disk.now == old(disk.now) && disk.seen == old(disk.seen) && disk.faults == old(disk.faults)
    ensures e.Valid() && e.AbstractedBy(e.model) && e.model == CrashedAndUp(m) && e.done == m.done + InFlight(m.pc)
    ensures LogOk(env, disk.now.wal) ==> e.Modelled()
  {
    ShownRecovers(env, disk.now, m);
    hide DiskIs, Abstracts, FilesAgree, ManifestOk, Holds, LogOf, LogOk, Replay, Recovers;
    e := new Engine(env, disk, m.done + InFlight(m.pc));
    RestartIsCrashAndRecover(env, disk.now, m, e.store.levels, e.store.runs, e.model);
  }

  // The directory in which nothing was ever done.
  lemma EmptyIsOfSomeRun(env: Env)
    ensures OfSomeRun(env, EMPTY) && LogOk(env, EMPTY.wal)
  {
    var s := State(Machine.Disk([], map[], [], []), [], [], [], Idle, []);
    Safety.InitHolds(s);
    assert LogOf(env, EMPTY.wal) == [];
    assert DiskShows(env, EMPTY, [], map[], s);
    assert IsRun([s]);
    assert EndsRun(s) by { assert [s][|[s]| - 1] == s; }
  }

  // Main result. One life of the engine, from a restart to whatever crash: if the disk it starts on is one that a
  // run of the machine leaves, up to m, with a log that takes appends, then so is each disk it passes through, as
  // long as the log can give the writes back and nothing is left unsynced. By induction this goes for any number of
  // lives: what is proved about the machine's runs, with all their crashes, is true of the engine's.
  method LiveOnce(env: Env, disk: Disks.Disk, ghost m: State, ops: seq<Write>) returns (e: Engine, served: nat)
    requires env.quoting.Lawful() && disk.Valid() && DiskIs(env, disk.now, m)
    modifies disk
    ensures e.Valid() && e.store.disk == disk && e.store.env == env && Grew(old(disk.faults), disk.faults)
    ensures EndsRun(m) && LogOk(env, old(disk.now.wal)) && Wals.AllLoggable(ops)
            && e.NothingUnsynced(old(disk.faults)) ==>
              && e.Modelled() && EndsRun(e.model)
              && (forall d :: d in disk.seen ==> d in old(disk.seen) || OfSomeRun(env, d))
  {
    ghost var atRun := EndsRun(m) && LogOk(env, disk.now.wal);
    e := Reopen(env, disk, m);
    if atRun {
      RunSurvivesCrash(m);
    }
    hide Engine.Modelled, DiskIs, Reaches, EndsRun, Engine.Valid, Abstracts, TablesAt, Wals.Loggable, LogOk;
    ghost var start := e.model;
    served := ServeWrites(e, ops);
    if atRun && Wals.AllLoggable(ops) && e.NothingUnsynced(old(disk.faults)) {
      RunGoesOn(start, e.model);
      AllOfSomeRun(env, old(disk.seen), disk.seen, start);
    }
  }

  lemma AllOfSomeRun(env: Env, seen: set<DiskState>, seen': set<DiskState>, s: State)
    requires EndsRun(s) && Followed(env, seen, seen', s)
    ensures forall d :: d in seen' ==> d in seen || OfSomeRun(env, d)
  {
    hide Reaches, EndsRun, DiskIs;
    forall d | d in seen' && d !in seen ensures OfSomeRun(env, d) {
      var m :| Reaches(s, m) && DiskIs(env, d, m);
      RunGoesOn(s, m);
    }
  }
}
