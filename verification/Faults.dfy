// Where durability ends: a manifest that was renamed into place but whose directory could not be synced.

module Faults {
  import opened Base
  import opened Lsm
  import opened Machine
  import opened Memory
  import opened Safety
  import Wals

  // The key went to a new table that was removed.
  ghost predicate LostWith(s: State, removed: set<Id>, key: bytes)
    requires s.pc.Compacting? && |s.pc.written| == |s.pc.chunks|
  {
    exists i :: 0 <= i < |s.pc.chunks| && Id(1, s.pc.written[i]) in removed && Lookup(s.pc.chunks[i], key).Some?
  }

  // What a restart finds of the new level 1.
  function KeptChunks(chunks: seq<Run>, written: seq<bytes>, removed: set<Id>): seq<Run>
    requires |chunks| == |written|
  {
    if chunks == [] then []
    else
      var n := |chunks| - 1;
      var init := KeptChunks(chunks[..n], written[..n], removed);
      if Id(1, written[n]) in removed then init else init + [chunks[n]]
  }

  lemma {:induction false} KeptAreRead(files: map<Id, Run>, chunks: seq<Run>, written: seq<bytes>, removed: set<Id>)
    requires |chunks| == |written|
    requires forall i :: 0 <= i < |written| ==> Id(1, written[i]) in files && files[Id(1, written[i])] == chunks[i]
    ensures Runs(files - removed, 1, Pruned(files - removed, 1, written)) == KeptChunks(chunks, written, removed)
  {
    if chunks != [] {
      var n := |chunks| - 1;
      KeptAreRead(files, chunks[..n], written[..n], removed);
    }
  }

  lemma {:induction false} KeptAnswer(chunks: seq<Run>, written: seq<bytes>, removed: set<Id>, j: nat, key: bytes)
    requires |chunks| == |written| && j < |chunks|
    requires forall i :: 0 <= i < |chunks| && i != j ==> Lookup(chunks[i], key) == None
    ensures ScanNewest(KeptChunks(chunks, written, removed), key) ==
            if Id(1, written[j]) in removed then None else Lookup(chunks[j], key)
  {
    var n := |chunks| - 1;
    var init := KeptChunks(chunks[..n], written[..n], removed);
    ScanSnoc(init, chunks[n], key);
    if j < n {
      KeptAnswer(chunks[..n], written[..n], removed, j, key);
    } else {
      NoneKept(chunks[..n], written[..n], removed, key);
    }
  }

  lemma {:induction false} NoneKept(chunks: seq<Run>, written: seq<bytes>, removed: set<Id>, key: bytes)
    requires |chunks| == |written| && forall i :: 0 <= i < |chunks| ==> Lookup(chunks[i], key) == None
    ensures ScanNewest(KeptChunks(chunks, written, removed), key) == None
  {
    if chunks != [] {
      var n := |chunks| - 1;
      NoneKept(chunks[..n], written[..n], removed, key);
      ScanSnoc(KeptChunks(chunks[..n], written[..n], removed), chunks[n], key);
    }
  }

  // Exactly which keys the fault costs: readers still see everything, and a restart finds everything but the keys
  // in new tables that were removed.
  lemma UnsyncedPublishLosesExactly(s: State, s': State, removed: set<Id>, key: bytes)
    requires Inv(s) && PublishUnsynced(s, s', removed)
    ensures View(s', key) == LastWrite(s'.done, key)
    ensures Recovered(s'.disk, key) == if LostWith(s, removed, key) then None else LastWrite(s'.done, key)
    ensures LostWith(s, removed, key) ==> LastWrite(s'.done, key).Some?
  {
    var chunks, written, files := s.pc.chunks, s.pc.written, s.disk.files;
    assert View(s, key) == LastWrite(s.done, key);
    assert LiveStep(s, s');
    ViewKept(s, s', key);
    KeptAreRead(files, chunks, written, removed);
    assert Recovered(s'.disk, key) == ScanNewest(KeptChunks(chunks, written, removed), key);
    assert Lookup(Flatten(chunks), key) == StoreLookup(Runs(files, 0, s.l0), Runs(files, 1, s.l1), key);
    ScanChunks(chunks, key);
    if j :| 0 <= j < |chunks| && Lookup(chunks[j], key).Some? {
      OnePieceHolds(chunks, j, key);
      KeptAnswer(chunks, written, removed, j, key);
      ScanHit(chunks, j, key);
    } else {
      NoneKept(chunks, written, removed, key);
      ScanMiss(chunks, key);
    }
  }

  ghost predicate Durable(s: State) {
    forall key :: Recovered(s.disk, key) == LastWrite(s.done, key)
  }

  // A compaction attempt that ends in one of the ways it can end; removed are the new tables that its cleanup removed.
  ghost predicate CompactionEnds(s: State, s': State, removed: set<Id>) {
    || (Publish(s, s') && removed == {})
    || CompactionFails(s, s', removed)
    || PublishUnsynced(s, s', removed)
  }

  // Exactly when a compaction attempt leaves a disk from which a restart finds the map: unless the directory could
  // not be synced behind the manifest's rename and the cleanup removed a table that the manifest now names.
  lemma CompactionIsDurableIff(s: State, s': State, removed: set<Id>)
    requires Inv(s) && CompactionEnds(s, s', removed)
    ensures Durable(s') <==> !PublishUnsynced(s, s', removed) || removed == {}
  {
    if PublishUnsynced(s, s', removed) {
      forall key
        ensures Recovered(s'.disk, key) == if LostWith(s, removed, key) then None else LastWrite(s'.done, key)
      {
        UnsyncedPublishLosesExactly(s, s', removed, key);
      }
      if removed != {} {
        RemovedLosesAKey(s, s', removed);
      }
    } else {
      EndIsDurable(s, s', removed);
    }
  }

  lemma RemovedLosesAKey(s: State, s': State, removed: set<Id>)
    requires Inv(s) && PublishUnsynced(s, s', removed) && removed != {}
    ensures !Durable(s')
  {
    var id :| id in removed;
    var i :| 0 <= i < |s.pc.written| && id == Id(1, s.pc.written[i]);
    var chunk := s.pc.chunks[i];
    PieceSorted(s.pc.chunks, i);
    LookupHit(chunk, 0);
    assert LostWith(s, removed, chunk[0].K);
    UnsyncedPublishLosesExactly(s, s', removed, chunk[0].K);
    assert Recovered(s'.disk, chunk[0].K) != LastWrite(s'.done, chunk[0].K);
  }

  lemma EndIsDurable(s: State, s': State, removed: set<Id>)
    requires Inv(s) && (Publish(s, s') || CompactionFails(s, s', removed))
    ensures Durable(s')
  {
    assert UpStep(s, s');
    UpStepKeeps(s, s');
    NothingPruned(s'.disk.files, 0, s'.disk.l0);
    NothingPruned(s'.disk.files, 1, s'.disk.l1);
    assert s'.done + InFlight(s'.pc) == s'.done;
    forall key ensures Recovered(s'.disk, key) == LastWrite(s'.done, key) {
      assert Overlay(Replay(s'.disk.wal), s'.disk.files, s'.disk.l0, s'.disk.l1, key)
          == LastWrite(s'.done + InFlight(s'.pc), key);
    }
  }

  // An append that reports an error although its line has reached the log: the write is not applied, and Put returns.
  ghost predicate AppendUnsynced(s: State, s': State, w: Write) {
    s.pc.Idle? && Wals.Loggable(w) && s' == s.(disk := s.disk.(wal := s.disk.wal + [w]))
  }

  // Exactly when that is harmless: the write would not have changed the map.
  lemma UnsyncedAppendIsHarmlessIff(s: State, s': State, w: Write)
    requires Inv(s) && AppendUnsynced(s, s', w)
    ensures forall key :: View(s', key) == LastWrite(s'.done, key)
    ensures (forall key :: Recovered(s'.disk, key) == LastWrite(s'.done, key))
            <==> LastWrite(s.done, w.K) == Some(w.Stored())
  {
    var logged := s'.(pc := Logged(w));
    assert LogWrite(s, logged, w);
    UpStepKeeps(s, logged);
    NothingPruned(s.disk.files, 0, s.disk.l0);
    NothingPruned(s.disk.files, 1, s.disk.l1);
    assert (s.done + [w])[..|s.done|] == s.done && s.done + InFlight(Logged(w)) == s.done + [w];
    forall key
      ensures Recovered(s'.disk, key) == (if key == w.K then Some(w.Stored()) else LastWrite(s.done, key))
      ensures View(s', key) == LastWrite(s'.done, key)
    {
      assert Overlay(Replay(logged.disk.wal), logged.disk.files, logged.disk.l0, logged.disk.l1, key)
          == LastWrite(logged.done + InFlight(logged.pc), key);
      assert View(s, key) == LastWrite(s.done, key);
    }
    assert Recovered(s'.disk, w.K) == Some(w.Stored());
  }
}
