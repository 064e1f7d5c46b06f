// What the engine's memory, log and tables have to agree on, step by step.

module EngineState {
  import opened Base
  import opened Lsm
  import opened Tables
  import opened Disks
  import opened StoreState
  import opened Machine
  import Json
  import Wals

  // ---------- The log, replayed ----------

  predicate IsWrite(e: Entry) {
    e.Type == Put || (e.Type == Delete && e.V == [])
  }

  function PutEntry(key: bytes, value: bytes): Write {
    Entry(key, value, Put)
  }

  function DeleteEntry(key: bytes): Write {
    Entry(key, [], Delete)
  }

  // What recovery makes of a logged entry: entries of unknown type are skipped, deletes lose their value.
  function Effect(e: Entry): seq<Write> {
    match e.Type
    case Put => [e]
    case Delete => [Entry(e.K, [], Delete)]
    case Other(_) => []
  }

  function Writes(entries: seq<Entry>): seq<Write> {
    if entries == [] then [] else Writes(entries[..|entries| - 1]) + Effect(entries[|entries| - 1])
  }

  // The last entry for its key whose type is known.
  ghost predicate LastKnownAt(entries: seq<Entry>, i: int) {
    && 0 <= i < |entries| && !entries[i].Type.Other?
    && forall j :: i < j < |entries| && entries[j].K == entries[i].K ==> entries[j].Type.Other?
  }

  // That one counts: the value of a put, or a tombstone. Entries of unknown type change no key.
  lemma {:induction false} KnownEntriesCount(entries: seq<Entry>, i: nat)
    requires LastKnownAt(entries, i)
    ensures LastWrite(Writes(entries), entries[i].K) ==
            Some(StorageEntry(entries[i].Type, if entries[i].Type == Put then entries[i].V else []))
  {
    var n := |entries| - 1;
    EffectCounts(Writes(entries[..n]), entries[n], entries[i].K);
    if i < n {
      KnownEntriesCount(entries[..n], i);
    }
  }

  lemma {:induction false} UnknownEntriesDoNot(entries: seq<Entry>, key: bytes)
    requires forall i :: 0 <= i < |entries| && entries[i].K == key ==> entries[i].Type.Other?
    ensures LastWrite(Writes(entries), key) == None
  {
    if entries != [] {
      var n := |entries| - 1;
      EffectCounts(Writes(entries[..n]), entries[n], key);
      UnknownEntriesDoNot(entries[..n], key);
    }
  }

  lemma EffectCounts(before: seq<Write>, e: Entry, key: bytes)
    ensures LastWrite(before + Effect(e), key) ==
            if e.K == key && !e.Type.Other? then Some(StorageEntry(e.Type, if e.Type == Put then e.V else []))
            else LastWrite(before, key)
  {
    var effect := Effect(e);
    if effect == [] {
      assert before + effect == before;
    } else {
      assert effect == [effect[0]] && (before + effect)[..|before|] == before;
    }
  }

  ghost function LogOf(env: Env, file: Wals.WalFile): seq<Write> {
    Writes(Wals.Readable(env.crc32, file.lines))
  }

  // A log that takes appends: every line is good and terminated.
  ghost predicate LogOk(env: Env, file: Wals.WalFile) {
    !file.open && Wals.AllGood(env.crc32, file.lines)
  }

  lemma LogGrows(env: Env, file: Wals.WalFile, w: Write)
    requires LogOk(env, file) && Wals.Loggable(w)
    ensures LogOf(env, Wals.Appended(file, Wals.NewWALEntry(env.crc32, w))) == LogOf(env, file) + [w]
    ensures LogOk(env, Wals.Appended(file, Wals.NewWALEntry(env.crc32, w)))
  {
    Wals.AppendIsReadBackIff(env.crc32, file, w);
    Wals.LoggableIsGood(env.crc32, w);
    var entries := Wals.Readable(env.crc32, file.lines);
    assert (entries + [w])[..|entries|] == entries;
  }

  // A crash in the middle of an append leaves the log with or without the write.
  lemma LogTorn(env: Env, file: Wals.WalFile, w: Write, whole: bool)
    requires LogOk(env, file) && (whole ==> Wals.Loggable(w))
    ensures LogOf(env, Wals.Torn(file, Wals.NewWALEntry(env.crc32, w), whole)) ==
            LogOf(env, file) + if whole then [w] else []
  {
    Wals.TornTailReadsTheRest(env.crc32, file, w, whole);
    var entries := Wals.Readable(env.crc32, file.lines);
    assert entries + [] == entries && (entries + [w])[..|entries|] == entries;
  }

  // ---------- Memory over tables, against the history of writes ----------

  ghost function Stacked(mem: Run, levels: Levels, runs: RunMap, key: bytes): Option<StorageEntry> {
    if Lookup(mem, key).Some? then Lookup(mem, key)
    else StoreLookup(RunsAt(levels, runs, 0), RunsAt(levels, runs, 1), key)
  }

  // The entries on top of the tables hold exactly the last writes.
  ghost predicate Holds(mem: Run, levels: Levels, runs: RunMap, writes: seq<Write>) {
    forall key :: Stacked(mem, levels, runs, key) == LastWrite(writes, key)
  }

  // A restart from this disk finds exactly these writes.
  ghost predicate RecoversWith(env: Env, d: DiskState, levels: Levels, runs: RunMap, writes: seq<Write>) {
    DiskAgrees(env, d, levels, runs) && Holds(Replay(LogOf(env, d.wal)), levels, runs, writes)
  }

  ghost predicate Recovers(env: Env, d: DiskState, writes: seq<Write>) {
    exists levels, runs :: RecoversWith(env, d, levels, runs, writes)
  }

  // An empty data directory recovers to no writes at all.
  lemma EmptyDiskRecovers(env: Env)
    ensures Recovers(env, DiskState(map[], map[], None, Wals.WalFile([], false)), [])
    ensures LogOk(env, Wals.WalFile([], false))
  {
    var d := DiskState(map[], map[], None, Wals.WalFile([], false));
    assert LogOf(env, d.wal) == [];
    forall key ensures Stacked([], [], map[], key) == None {
      assert RunsAt([], map[], 0) == [] && RunsAt([], map[], 1) == [];
    }
    assert DiskAgrees(env, d, [], map[]);
    assert RecoversWith(env, d, [], map[], []);
  }

  // Every disk state on the way can be recovered, to one history or the other.
  ghost predicate Traced(env: Env, seen: set<DiskState>, seen': set<DiskState>, before: seq<Write>, after: seq<Write>) {
    forall d :: d in seen' ==> d in seen || Recovers(env, d, before) || Recovers(env, d, after)
  }

  lemma TracedTwice(env: Env, s0: set<DiskState>, s1: set<DiskState>, s2: set<DiskState>, before: seq<Write>,
                    after: seq<Write>)
    requires Traced(env, s0, s1, before, after) && Traced(env, s1, s2, after, after)
    ensures Traced(env, s0, s2, before, after)
  {}

  // A moment of a run: some of the writes so far, and at most one more that was on its way.
  ghost predicate Moment(env: Env, d: DiskState, writes: seq<Write>) {
    exists n: nat, more: seq<Write> :: n <= |writes| && |more| <= 1 && Recovers(env, d, writes[..n] + more)
  }

  ghost predicate AllMoments(env: Env, seen: set<DiskState>, writes: seq<Write>) {
    forall d :: d in seen ==> Moment(env, d, writes)
  }

  lemma MomentLater(env: Env, d: DiskState, writes: seq<Write>, writes': seq<Write>)
    requires Moment(env, d, writes) && writes <= writes'
    ensures Moment(env, d, writes')
  {
    var n: nat, more: seq<Write> :| n <= |writes| && |more| <= 1 && Recovers(env, d, writes[..n] + more);
    assert writes'[..n] == writes[..n];
  }

  // Whether the write took effect or not, the disk has only been through moments of the run.
  lemma MomentsKept(env: Env, seen: set<DiskState>, seen': set<DiskState>, writes: seq<Write>, w: Write,
                    writes': seq<Write>)
    requires AllMoments(env, seen, writes) && Traced(env, seen, seen', writes, writes + [w])
    requires writes' == writes || writes' == writes + [w]
    ensures AllMoments(env, seen', writes')
  {
    assert writes <= writes' && writes'[..|writes|] == writes;
    assert writes + [] == writes;
    forall d | d in seen' ensures Moment(env, d, writes') {
      if d in seen {
        MomentLater(env, d, writes, writes');
      } else if Recovers(env, d, writes) {
        assert Recovers(env, d, writes'[..|writes|] + []);
      } else {
        assert Recovers(env, d, writes'[..|writes|] + [w]);
      }
    }
  }

  lemma HoldsAfterWrite(mem: Run, levels: Levels, runs: RunMap, writes: seq<Write>, w: Write)
    requires Sorted(mem) && Holds(mem, levels, runs, writes)
    ensures Holds(Upsert(mem, w), levels, runs, writes + [w])
  {
    assert (writes + [w])[..|writes|] == writes;
    forall key ensures Stacked(Upsert(mem, w), levels, runs, key) == LastWrite(writes + [w], key) {
      UpsertLookup(mem, w, key);
      assert Stacked(mem, levels, runs, key) == LastWrite(writes, key);
    }
  }

  lemma ReplayGrows(log: seq<Write>, w: Write)
    ensures Replay(log + [w]) == Upsert(Replay(log), w) && Sorted(Replay(log))
  {
    assert (log + [w])[..|log|] == log;
    ReplayIsLastWrite(log, w.K);
  }

  lemma WalOnly(env: Env, d: DiskState, d': DiskState, levels: Levels, runs: RunMap)
    requires DiskAgrees(env, d, levels, runs) && d' == d.(wal := d'.wal)
    ensures DiskAgrees(env, d', levels, runs)
  {
    SameFilesAgree(env, d, d', levels, runs);
  }

  // The log without or with one more write at its end.
  lemma LoggedRecovers(env: Env, d: DiskState, d': DiskState, levels: Levels, runs: RunMap, writes: seq<Write>,
                       more: seq<Write>)
    requires RecoversWith(env, d, levels, runs, writes) && d' == d.(wal := d'.wal)
    requires |more| <= 1 && LogOf(env, d'.wal) == LogOf(env, d.wal) + more
    ensures RecoversWith(env, d', levels, runs, writes + more)
  {
    WalOnly(env, d, d', levels, runs);
    if more == [] {
      assert LogOf(env, d.wal) + more == LogOf(env, d.wal) && writes + more == writes;
    } else {
      var w := more[0];
      assert more == [w];
      ReplayGrows(LogOf(env, d.wal), w);
      HoldsAfterWrite(Replay(LogOf(env, d.wal)), levels, runs, writes, w);
    }
  }

  // All that an append may leave on the disk is the history with or without the write.
  lemma AppendTraced(env: Env, seen: set<DiskState>, seen': set<DiskState>, d: DiskState,
                     levels: Levels, runs: RunMap, writes: seq<Write>, w: Write)
    requires LogOk(env, d.wal) && RecoversWith(env, d, levels, runs, writes) && Wals.Loggable(w)
    requires forall x :: x in seen' ==> x in seen || AppendLeaves(d, Wals.NewWALEntry(env.crc32, w), x)
    ensures Traced(env, seen, seen', writes, writes + [w])
  {
    var line := Wals.NewWALEntry(env.crc32, w);
    assert writes + [] == writes;
    forall x | x in seen' && x !in seen ensures Recovers(env, x, writes) || Recovers(env, x, writes + [w]) {
      if x == d {
        assert RecoversWith(env, x, levels, runs, writes);
      } else if x == d.(wal := Wals.Appended(d.wal, line)) {
        LogGrows(env, d.wal, w);
        LoggedRecovers(env, d, x, levels, runs, writes, [w]);
        assert RecoversWith(env, x, levels, runs, writes + [w]);
      } else {
        var whole :| x == d.(wal := Wals.Torn(d.wal, line, whole));
        LogTorn(env, d.wal, w, whole);
        LoggedRecovers(env, d, x, levels, runs, writes, if whole then [w] else []);
        assert RecoversWith(env, x, levels, runs, writes + if whole then [w] else []);
      }
    }
  }

  // A write that the log cannot give back: unless two checksums collide, a restart finds the map with it exactly
  // when it would not have changed the map, and none of the lines that follow in the log.
  lemma UnreadableWriteIsRecoveredIff(env: Env, d: DiskState, d': DiskState, levels: Levels, runs: RunMap,
                                      writes: seq<Write>, w: Write, later: seq<Wals.Line>)
    requires LogOk(env, d.wal) && RecoversWith(env, d, levels, runs, writes) && !Wals.Loggable(w)
    requires Json.FitsScanner(w) ==> env.crc32(Json.Marshal(w)) != env.crc32(Json.Marshal(Json.Reread(w)))
    requires d' == d.(wal := d'.wal)
    requires d'.wal.lines == Wals.Appended(d.wal, Wals.NewWALEntry(env.crc32, w)).lines + later
    ensures RecoversWith(env, d', levels, runs, writes) && !LogOk(env, d'.wal)
    ensures RecoversWith(env, d', levels, runs, writes + [w]) <==> LastWrite(writes, w.K) == Some(w.Stored())
  {
    Wals.UnreadableLineHidesTheRest(env.crc32, d.wal, w, later);
    WalOnly(env, d, d', levels, runs);
    assert (writes + [w])[..|writes|] == writes;
    var log := Replay(LogOf(env, d'.wal));
    if LastWrite(writes, w.K) == Some(w.Stored()) {
      forall key ensures Stacked(log, levels, runs, key) == LastWrite(writes + [w], key) {
        assert Stacked(log, levels, runs, key) == LastWrite(writes, key);
      }
    } else {
      assert Stacked(log, levels, runs, w.K) == LastWrite(writes, w.K) != LastWrite(writes + [w], w.K);
    }
  }

  // ---------- Flush ----------

  // Tables that answer alike hold alike, under any memory.
  ghost predicate SameAnswers(levels: Levels, runs: RunMap, levels': Levels, runs': RunMap) {
    forall key :: StoreLookup(RunsAt(levels, runs, 0), RunsAt(levels, runs, 1), key)
               == StoreLookup(RunsAt(levels', runs', 0), RunsAt(levels', runs', 1), key)
  }

  lemma HoldsOverSame(mem: Run, levels: Levels, runs: RunMap, levels': Levels, runs': RunMap, writes: seq<Write>)
    requires Holds(mem, levels, runs, writes) && SameAnswers(levels, runs, levels', runs')
    ensures Holds(mem, levels', runs', writes)
  {
    forall key ensures Stacked(mem, levels', runs', key) == LastWrite(writes, key) {
      assert Stacked(mem, levels, runs, key) == LastWrite(writes, key);
      assert StoreLookup(RunsAt(levels, runs, 0), RunsAt(levels, runs, 1), key)
          == StoreLookup(RunsAt(levels', runs', 0), RunsAt(levels', runs', 1), key);
    }
  }

  // The memtable's run as the newest table: the tables alone hold the history, and so does anything that held it
  // before on top of them.
  lemma FlushedHolds(mem: Run, levels: Levels, runs: RunMap, levels': Levels, runs': RunMap, writes: seq<Write>,
                     top: Run)
    requires Holds(mem, levels, runs, writes) && Holds(top, levels, runs, writes)
    requires RunsAt(levels', runs', 0) == RunsAt(levels, runs, 0) + [mem]
    requires RunsAt(levels', runs', 1) == RunsAt(levels, runs, 1)
    ensures Holds([], levels', runs', writes) && Holds(top, levels', runs', writes)
  {
    forall key
      ensures Stacked([], levels', runs', key) == LastWrite(writes, key)
      ensures Stacked(top, levels', runs', key) == LastWrite(writes, key)
    {
      ScanSnoc(RunsAt(levels, runs, 0), mem, key);
      assert Stacked(mem, levels, runs, key) == LastWrite(writes, key);
      assert Stacked(top, levels, runs, key) == LastWrite(writes, key);
    }
  }

  // Compaction: level 1 answers alone as both levels did.
  lemma CompactedAnswers(levels: Levels, runs: RunMap, levels': Levels, runs': RunMap)
    requires RunsAt(levels', runs', 0) == []
    requires Compacts(RunsAt(levels', runs', 1), RunsAt(levels, runs, 0), RunsAt(levels, runs, 1))
    ensures SameAnswers(levels, runs, levels', runs')
  {
    forall key
      ensures StoreLookup(RunsAt(levels, runs, 0), RunsAt(levels, runs, 1), key)
           == StoreLookup(RunsAt(levels', runs', 0), RunsAt(levels', runs', 1), key)
    {
      ScanChunks(RunsAt(levels', runs', 1), key);
      assert Lookup(Flatten(RunsAt(levels', runs', 1)), key)
          == StoreLookup(RunsAt(levels, runs, 0), RunsAt(levels, runs, 1), key);
    }
  }

  // States on the way of a change that is safe at both ends recover the same history.
  lemma SafeIsTraced(env: Env, seen: set<DiskState>, seen': set<DiskState>, wal: Wals.WalFile,
                     before: Levels, runs: RunMap, after: Levels, runs': RunMap, writes: seq<Write>)
    requires CrashSafe(env, seen, seen', wal, before, runs, after, runs')
    requires Holds(Replay(LogOf(env, wal)), before, runs, writes)
    requires Holds(Replay(LogOf(env, wal)), after, runs', writes)
    ensures Traced(env, seen, seen', writes, writes)
  {
    forall d | d in seen' && d !in seen ensures Recovers(env, d, writes) {
      if DiskAgrees(env, d, before, runs) {
        assert RecoversWith(env, d, before, runs, writes);
      } else {
        assert RecoversWith(env, d, after, runs', writes);
      }
    }
  }

  // With everything in the tables the log may be emptied, and then it takes appends again.
  lemma EmptiedRecovers(env: Env, d: DiskState, d': DiskState, levels: Levels, runs: RunMap, writes: seq<Write>)
    requires DiskAgrees(env, d, levels, runs) && Holds([], levels, runs, writes)
    requires d' == d.(wal := Wals.WalFile([], false))
    ensures RecoversWith(env, d', levels, runs, writes) && LogOk(env, d'.wal)
  {
    WalOnly(env, d, d', levels, runs);
    assert LogOf(env, d'.wal) == [];
  }

  // ---------- The memtable's entries ----------

  ghost predicate AllWrites(run: Run) {
    forall i :: 0 <= i < |run| ==> IsWrite(run[i])
  }

  lemma WritesUpserted(run: Run, w: Write)
    requires AllWrites(run)
    ensures AllWrites(Upsert(run, w))
  {
    UpsertKeys(run, w);
    forall i | 0 <= i < |Upsert(run, w)| ensures IsWrite(Upsert(run, w)[i]) {
      assert Upsert(run, w)[i] in Upsert(run, w);
    }
  }

  lemma WritesNormal(run: Run)
    requires AllWrites(run)
    ensures NormalRun(run) == run
  {}
}
