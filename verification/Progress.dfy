// No state of a run is stuck: in particular, a compaction at its mark always has a result to write.

module Progress {
  import opened Base
  import opened Lsm
  import opened Tables
  import opened Machine
  import opened Memory

  // ---------- One run that answers for many ----------

  // The entries of a newer run on top of an older one.
  function Onto(base: Run, run: Run): Run
    decreases run
  {
    if run == [] then base else Onto(Upsert(base, run[0]), run[1..])
  }

  lemma {:induction false} OntoAnswers(base: Run, run: Run, key: bytes)
    requires Sorted(base) && Sorted(run)
    ensures Sorted(Onto(base, run))
    ensures Lookup(Onto(base, run), key) == if Lookup(run, key).Some? then Lookup(run, key) else Lookup(base, key)
    decreases run
  {
    if run != [] {
      UpsertSorted(base, run[0]);
      UpsertLookup(base, run[0], key);
      OntoAnswers(Upsert(base, run[0]), run[1..], key);
      NotInTail(run);
    }
  }

  function Stack(runs: seq<Run>): Run {
    if runs == [] then [] else Onto(Stack(runs[..|runs| - 1]), runs[|runs| - 1])
  }

  lemma {:induction false} StackAnswers(runs: seq<Run>, key: bytes)
    requires forall i :: 0 <= i < |runs| ==> Sorted(runs[i])
    ensures Sorted(Stack(runs)) && Lookup(Stack(runs), key) == ScanNewest(runs, key)
  {
    if runs != [] {
      StackAnswers(runs[..|runs| - 1], key);
      OntoAnswers(Stack(runs[..|runs| - 1]), runs[|runs| - 1], key);
    }
  }

  lemma {:induction false} ScanAppend(older: seq<Run>, newer: seq<Run>, key: bytes)
    ensures ScanNewest(older + newer, key) == StoreLookup(newer, older, key)
  {
    if newer == [] {
      assert older + newer == older;
    } else {
      assert (older + newer)[..|older + newer| - 1] == older + newer[..|newer| - 1];
      ScanAppend(older, newer[..|newer| - 1], key);
    }
  }

  // ---------- Cut into full tables ----------

  // The size of the last piece.
  function Rest(n: nat): (r: nat)
    requires n > 0
    ensures 1 <= r <= FLUSH_THRESHOLD && r <= n && (n - r) % FLUSH_THRESHOLD == 0
    ensures n % FLUSH_THRESHOLD == 0 ==> r == FLUSH_THRESHOLD
  {
    assert FLUSH_THRESHOLD == 1953;
    if n % FLUSH_THRESHOLD == 0 then FLUSH_THRESHOLD else n % FLUSH_THRESHOLD
  }

  function Cut(run: Run): seq<Run>
    decreases |run|
  {
    if run == [] then [] else Cut(run[..|run| - Rest(|run|)]) + [run[|run| - Rest(|run|)..]]
  }

  lemma {:induction false} CutIsFull(run: Run)
    ensures Flatten(Cut(run)) == run
    ensures forall i :: 0 <= i < |Cut(run)| ==> 1 <= |Cut(run)[i]| <= FLUSH_THRESHOLD
    ensures forall i :: 0 <= i < |Cut(run)| - 1 ==> |Cut(run)[i]| == FLUSH_THRESHOLD
    ensures |run| % FLUSH_THRESHOLD == 0 ==> forall i :: 0 <= i < |Cut(run)| ==> |Cut(run)[i]| == FLUSH_THRESHOLD
    decreases |run|
  {
    if run != [] {
      var n := |run| - Rest(|run|);
      CutIsFull(run[..n]);
      FlattenGrows(Cut(run[..n]), run[n..], Cut(run));
      assert run[..n] + run[n..] == run;
    }
  }

  lemma CompactsExist(l0: seq<Run>, l1: seq<Run>) returns (chunks: seq<Run>)
    requires forall i :: 0 <= i < |l0| ==> Sorted(l0[i])
    requires forall i :: 0 <= i < |l1| ==> Sorted(l1[i])
    ensures Compacts(chunks, l0, l1)
  {
    var merged := Stack(l1 + l0);
    chunks := Cut(merged);
    CutIsFull(merged);
    StackAnswers(l1 + l0, []);
    forall key ensures Lookup(Flatten(chunks), key) == StoreLookup(l0, l1, key) {
      StackAnswers(l1 + l0, key);
      ScanAppend(l1, l0, key);
    }
  }

  lemma ListedSorted(s: State, level: nat, names: seq<bytes>, i: nat)
    requires FilesSorted(s.disk.files) && AllThere(s.disk.files, level, names) && i < |names|
    ensures Sorted(Runs(s.disk.files, level, names)[i])
  {}

  // At the mark a compaction can always start, whatever has become of log and manifest.
  lemma CompactionCanStart(s: State) returns (s': State)
    requires Live(s) && s.pc.Cleared? && |s.l0| == COMPACTION_THRESHOLD
    ensures s'.pc.Compacting? && StartCompaction(s, s', s'.pc.chunks)
  {
    var files := s.disk.files;
    forall i | 0 <= i < |s.l0| ensures Sorted(Runs(files, 0, s.l0)[i]) { ListedSorted(s, 0, s.l0, i); }
    forall i | 0 <= i < |s.l1| ensures Sorted(Runs(files, 1, s.l1)[i]) { ListedSorted(s, 1, s.l1, i); }
    var chunks := CompactsExist(Runs(files, 0, s.l0), Runs(files, 1, s.l1));
    s' := s.(pc := Compacting(chunks, []));
  }

  // ---------- Names are never used up ----------

  lemma {:induction false} NameBound(ids: set<Id>) returns (n: nat)
    ensures forall id :: id in ids ==> |id.name| < n
    decreases |ids|
  {
    if ids == {} {
      n := 0;
    } else {
      var id :| id in ids;
      var m := NameBound(ids - {id});
      n := if m > |id.name| then m else |id.name| + 1;
    }
  }

  lemma UnusedName(ids: set<Id>) returns (name: bytes)
    ensures forall level :: Id(level, name) !in ids
  {
    var n := NameBound(ids);
    name := seq(n, _ => 0);
  }

  lemma UnlistedName(s: State) returns (name: bytes)
    ensures name !in s.l0 && name !in s.l1 && Id(1, name) !in s.disk.files
  {
    name := UnusedName(Ids(0, s.l0) + Ids(1, s.l1) + s.disk.files.Keys);
    forall i | 0 <= i < |s.l0| ensures s.l0[i] != name { assert Id(0, s.l0[i]) in Ids(0, s.l0); }
    forall i | 0 <= i < |s.l1| ensures s.l1[i] != name { assert Id(1, s.l1[i]) in Ids(1, s.l1); }
  }

  // ---------- Every operation can go on ----------

  // From every state with the invariant the operation at hand can go on without any failure, a memtable full of
  // entries that no table can store excepted, whose flush fails; and a crashed engine can restart.
  lemma NeverStuck(s: State) returns (s': State)
    requires (s.pc.Down? || Live(s)) && !s.pc.Idle?
    ensures if s.pc.Down? then Recover(s, s') else UpStep(s, s')
    ensures FailureStep(s, s') ==> s.pc.Applied? && |s.mem| == FLUSH_THRESHOLD && !Writable(s.mem)
  {
    match s.pc
    case Logged(w) => s' := s.(mem := Upsert(s.mem, w), pc := Applied, done := s.done + [w]);
    case Applied => s' := AppliedGoesOn(s);
    case TableWritten(name) =>
      s' := s.(pc := Listed, disk := s.disk.(l0 := s.disk.l0 + [name]), l0 := s.l0 + [name]);
      assert ListTable(s, s');
    case Listed =>
      s' := s.(pc := Truncated, disk := s.disk.(wal := []));
      assert TruncateWal(s, s');
    case Truncated =>
      s' := s.(pc := Cleared, mem := []);
      assert ClearMem(s, s');
    case Cleared => s' := ClearedGoesOn(s);
    case Compacting(_, _) => s' := CompactingGoesOn(s);
    case Published(_) => s' := PublishedGoesOn(s);
    case Down =>
      s' := s.(mem := Replay(s.disk.wal), l0 := Pruned(s.disk.files, 0, s.disk.l0),
               l1 := Pruned(s.disk.files, 1, s.disk.l1), pc := Idle);
  }

  lemma AppliedGoesOn(s: State) returns (s': State)
    requires Live(s) && s.pc.Applied?
    ensures UpStep(s, s')
    ensures FailureStep(s, s') ==> |s.mem| == FLUSH_THRESHOLD && !Writable(s.mem)
  {
    if |s.mem| != FLUSH_THRESHOLD {
      s' := s.(pc := Idle);
      assert SkipFlush(s, s');
    } else {
      var name := UnlistedName(s);
      if Writable(s.mem) {
        s' := s.(pc := TableWritten(name), disk := s.disk.(files := s.disk.files[Id(0, name) := s.mem]));
        assert WriteTable(s, s', name);
      } else {
        s' := s.(pc := Idle);
        assert FlushFails(s, s', name, false);
      }
    }
  }

  lemma ClearedGoesOn(s: State) returns (s': State)
    requires Live(s) && s.pc.Cleared?
    ensures CompactionStep(s, s') && !FailureStep(s, s')
  {
    if |s.l0| == COMPACTION_THRESHOLD {
      s' := CompactionCanStart(s);
    } else {
      s' := s.(pc := Idle);
      assert SkipCompaction(s, s');
    }
  }

  lemma CompactingGoesOn(s: State) returns (s': State)
    requires Live(s) && s.pc.Compacting?
    ensures CompactionStep(s, s') && !FailureStep(s, s')
  {
    var n := |s.pc.written|;
    if n < |s.pc.chunks| {
      var name := UnlistedName(s);
      s' := s.(pc := Compacting(s.pc.chunks, s.pc.written + [name]),
               disk := s.disk.(files := s.disk.files[Id(1, name) := s.pc.chunks[n]]));
      assert WriteChunk(s, s', name);
    } else {
      s' := s.(pc := Published(Ids(0, s.l0) + Ids(1, s.l1)),
               disk := s.disk.(l0 := [], l1 := s.pc.written), l0 := [], l1 := s.pc.written);
      assert Publish(s, s');
    }
  }

  lemma PublishedGoesOn(s: State) returns (s': State)
    requires s.pc.Published?
    ensures CompactionStep(s, s') && !FailureStep(s, s')
  {
    if s.pc.stale == {} {
      s' := s.(pc := Idle);
      assert FinishCompaction(s, s');
    } else {
      var id :| id in s.pc.stale;
      s' := s.(pc := Published(s.pc.stale - {id}), disk := s.disk.(files := s.disk.files - {id}));
      assert RemoveOld(s, s', id, true);
    }
  }
}
