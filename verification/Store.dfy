// The table store: lookups, restart, and the flush of a run to level 0.

module Stores {
  import opened Base
  import opened Lsm
  import opened Tables
  import opened TableFiles
  import opened Naming
  import opened Manifests
  import opened Disks
  import opened StoreState
  import opened StoreIO
  import Bloom

  class SstableStore {
    const env: Env
    const disk: Disk
    var levels: Levels
    ghost var runs: RunMap

    // The files of the listed tables hold their runs, with sound ranges and filters.
    ghost predicate Valid()
      reads this, disk`now, disk`seen
    {
      env.quoting.Lawful() && disk.Valid() && FilesAgree(env, disk.now, levels, runs)
    }

    // The manifest names the same tables in the same order with the same ranges.
    ghost predicate Published()
      reads this, disk`now
    {
      ManifestOk(env, disk.now, levels)
    }

    // Restarting on a disk that agrees with some levels and runs brings back exactly those.
    constructor (env: Env, disk: Disk, ghost known: Levels, ghost runs: RunMap)
      requires env.quoting.Lawful() && disk.Valid() && DiskAgrees(env, disk.now, known, runs)
      modifies disk
      ensures Valid() && Published() && this.env == env && this.disk == disk && this.runs == runs
      ensures disk.now == old(disk.now) && disk.seen == old(disk.seen) && disk.faults == old(disk.faults)
      ensures SameTables(levels, known)
      ensures forall j :: 0 <= j < |levels| ==> FiltersLoaded(env, disk.now, levels[j])
    {
      hide FiltersLoaded;
      this.env, this.disk, this.runs := env, disk, runs;
      levels := [];
      new;
      var listed: Levels := [];
      if disk.now.manifest.Some? {
        var parsed := GetAllSSTables(env.quoting, disk.now.manifest.value);
        listed := parsed.value;
      }
      KeptAllTwice(known);
      SameTablesAgree(env, disk.now, known, listed, runs);
      levels := Refreshed(listed, runs);
    }

    // The table store's answer, by definition: every table of level 0, then every table of level 1, newest first.
    ghost function Answer(key: bytes): Option<StorageEntry>
      reads this
    {
      StoreLookup(RunsAt(levels, runs, 0), RunsAt(levels, runs, 1), key)
    }

    // One table of a level, behind its range and its filter.
    method SearchTable(l: SstableLevel, table: bytes, key: bytes) returns (r: Option<StorageEntry>)
      requires table in l.tables && PruningOk(env, l, runs)
      requires TableOk(env, disk.now, Path(l.level, table), RunAt(runs, Path(l.level, table)))
      ensures r == Lookup(RunAt(runs, Path(l.level, table)), key)
    {
      ghost var run := RunAt(runs, Path(l.level, table));
      if l.level == 1 && !MayContain(key, l.keyRanges, table) {
        OutOfRange(l.keyRanges[table], run, key);
        return None;
      }
      if table in l.bloomFilters {
        var found := Bloom.FoundIn(env.hash, l.bloomFilters[table], key);
        if !found {
          Bloom.NotFoundNotThere(env.hash, l.bloomFilters[table], run, key);
          return None;
        }
      }
      var t := OpenBlockBasedTable(disk.now.tables[Path(l.level, table)]);
      var got := Get(env.crc64, t.value, key);
      return got.value;
    }

    method SearchLevel(level: nat, key: bytes) returns (r: Option<StorageEntry>)
      requires Valid() && level <= 1
      ensures r == ScanNewest(RunsAt(levels, runs, level), key)
    {
      FoundLevel(levels, level);
      var found := FindLevel(levels, level);
      if found.None? {
        return None;
      }
      var l := found.value;
      FilesOk(levels, runs);
      r := ScanTables(l, key);
    }

    method ScanTables(l: SstableLevel, key: bytes) returns (r: Option<StorageEntry>)
      requires PruningOk(env, l, runs)
      requires forall t :: t in l.tables ==> TableOk(env, disk.now, Path(l.level, t), RunAt(runs, Path(l.level, t)))
      ensures r == ScanNewest(RunsOf(runs, l.level, l.tables), key)
    {
      ghost var scanned := RunsOf(runs, l.level, l.tables);
      var i := |l.tables|;
      while i > 0
        invariant 0 <= i <= |l.tables|
        invariant forall j :: i <= j < |scanned| ==> Lookup(scanned[j], key) == None
      {
        i := i - 1;
        r := SearchTable(l, l.tables[i], key);
        if r.Some? {
          ScanHit(scanned, i, key);
          return;
        }
      }
      ScanMiss(scanned, key);
      return None;
    }

    // Ranges and filters never change an answer.
    method GetKey(key: bytes) returns (r: Option<StorageEntry>)
      requires Valid()
      ensures r == Answer(key)
    {
      for level := 0 to 2
        invariant level > 0 ==> ScanNewest(RunsAt(levels, runs, 0), key) == None
        invariant level > 1 ==> ScanNewest(RunsAt(levels, runs, 1), key) == None
      {
        r := SearchLevel(level, key);
        if r.Some? {
          return;
        }
      }
      return None;
    }

    // Tables whose file is gone are dropped, and their orphaned filters removed.
    method PruneTables(level: nat, tables: seq<bytes>) returns (pruned: seq<bytes>)
      modifies disk
      ensures pruned == Present(level, tables, old(disk.now.tables))
      ensures disk.now == old(disk.now).(sidecars := disk.now.sidecars) && Grew(old(disk.faults), disk.faults)
      ensures pruned == tables ==>
                disk.now == old(disk.now) && disk.seen == old(disk.seen) && disk.faults == old(disk.faults)
    {
      pruned := [];
      for i := 0 to |tables|
        invariant pruned == Present(level, tables[..i], old(disk.now.tables)) && |pruned| <= i
        invariant disk.now == old(disk.now).(sidecars := disk.now.sidecars) && Grew(old(disk.faults), disk.faults)
        invariant |pruned| == i ==>
                    disk.now == old(disk.now) && disk.seen == old(disk.seen) && disk.faults == old(disk.faults)
      {
        assert tables[..i + 1][..i] == tables[..i];
        var p := Path(level, tables[i]);
        if p in disk.now.tables {
          pruned := pruned + [tables[i]];
        } else {
          var removed := disk.Try(disk.now.(sidecars := disk.now.sidecars - {p}));
        }
      }
      assert tables[..|tables|] == tables;
    }

    method PruneLevels(listed: Levels) returns (pruned: Levels)
      requires |listed| <= 2
      requires forall i, t :: 0 <= i < |listed| && t in listed[i].tables ==> Path(listed[i].level, t) in disk.now.tables
      modifies disk
      ensures disk.now == old(disk.now) && disk.seen == old(disk.seen) && disk.faults == old(disk.faults)
      ensures |pruned| == |listed| && forall i :: 0 <= i < |pruned| ==> pruned[i] == Kept(listed[i])
    {
      pruned := [];
      for i := 0 to |listed|
        invariant disk.now == old(disk.now) && disk.seen == old(disk.seen) && disk.faults == old(disk.faults)
        invariant |pruned| == i && forall j :: 0 <= j < i ==> pruned[j] == Kept(listed[j])
      {
        var l := listed[i];
        AllPresent(l.level, l.tables, disk.now.tables);
        var tables := PruneTables(l.level, l.tables);
        assert l.tables[..|l.tables|] == l.tables;
        pruned := pruned + [SstableLevel(l.level, tables, map[], RangesOf(l, |l.tables|))];
      }
    }

    // Filters that can be read from their sidecars are all in memory; the others are left out, and their tables are
    // always read.
    static ghost predicate FiltersLoaded(env: Env, d: DiskState, l: SstableLevel) {
      forall t :: t in l.tables ==>
        var p := Path(l.level, t);
        if p in d.sidecars && Bloom.DecodeSidecar(env.crc64, d.sidecars[p]).Ok?
        then t in l.bloomFilters && Ok(l.bloomFilters[t]) == Bloom.DecodeSidecar(env.crc64, d.sidecars[p])
        else t !in l.bloomFilters
    }

    method LoadLevelFilters(l: SstableLevel, ghost rs: RunMap) returns (filters: map<bytes, Bloom.Filter>)
      requires forall t :: t in l.tables ==> SidecarOk(env, disk.now, Path(l.level, t), RunAt(rs, Path(l.level, t)))
      ensures FiltersOk(env, l.(bloomFilters := filters), rs)
      ensures FiltersLoaded(env, disk.now, l.(bloomFilters := filters))
    {
      filters := map[];
      for j := 0 to |l.tables|
        invariant FiltersOk(env, l.(bloomFilters := filters), rs)
        invariant forall t :: t in filters ==> t in l.tables[..j]
        invariant FiltersLoaded(env, disk.now, l.(tables := l.tables[..j], bloomFilters := filters))
      {
        assert l.tables[..j + 1] == l.tables[..j] + [l.tables[j]];
        var t := l.tables[j];
        var p := Path(l.level, t);
        if p in disk.now.sidecars {
          var filter := Bloom.DecodeSidecar(env.crc64, disk.now.sidecars[p]);
          if filter.Ok? {
            filters := filters[t := filter.value];
          }
        }
      }
      assert l.tables[..|l.tables|] == l.tables;
    }

    method LoadFilters(listed: Levels, ghost rs: RunMap) returns (loaded: Levels)
      requires forall i, t :: 0 <= i < |listed| && t in listed[i].tables ==>
                 SidecarOk(env, disk.now, Path(listed[i].level, t), RunAt(rs, Path(listed[i].level, t)))
      ensures |loaded| == |listed|
      ensures forall j :: 0 <= j < |listed| ==> Kept(loaded[j]) == Kept(listed[j]) && FiltersOk(env, loaded[j], rs)
      ensures forall j :: 0 <= j < |loaded| ==> FiltersLoaded(env, disk.now, loaded[j])
    {
      loaded := [];
      for i := 0 to |listed|
        invariant |loaded| == i
        invariant forall j :: 0 <= j < i ==> Kept(loaded[j]) == Kept(listed[j]) && FiltersOk(env, loaded[j], rs)
        invariant forall j :: 0 <= j < i ==> FiltersLoaded(env, disk.now, loaded[j])
      {
        var filters := LoadLevelFilters(listed[i], rs);
        loaded := loaded + [listed[i].(bloomFilters := filters)];
      }
    }

    lemma FilesOk(listed: Levels, rs: RunMap)
      requires FilesAgree(env, disk.now, listed, rs)
      ensures forall i, t :: 0 <= i < |listed| && t in listed[i].tables ==>
                TableOk(env, disk.now, Path(listed[i].level, t), RunAt(rs, Path(listed[i].level, t)))
    {
      forall i, t | 0 <= i < |listed| && t in listed[i].tables
        ensures TableOk(env, disk.now, Path(listed[i].level, t), RunAt(rs, Path(listed[i].level, t)))
      {
        TablesOfLevel(listed, i);
        assert Lists(listed, Path(listed[i].level, t));
      }
    }

    // Pruning and reloading filters, as a restart and a compaction do: under an intact disk no table is lost.
    method Refreshed(listed: Levels, ghost rs: RunMap) returns (reloaded: Levels)
      requires FilesAgree(env, disk.now, listed, rs)
      modifies disk
      ensures disk.now == old(disk.now) && disk.seen == old(disk.seen) && disk.faults == old(disk.faults)
      ensures SameTables(reloaded, listed) && FilesAgree(env, disk.now, reloaded, rs)
      ensures forall j :: 0 <= j < |reloaded| ==> FiltersLoaded(env, disk.now, reloaded[j])
    {
      hide FiltersLoaded;
      FilesOk(listed, rs);
      var pruned := PruneLevels(listed);
      reloaded := LoadFilters(pruned, rs);
      KeptAllTwice(listed);
      assert KeptAll(reloaded) == KeptAll(pruned) == KeptAll(KeptAll(listed));
      SameTablesAgree(env, disk.now, listed, reloaded, rs);
    }

    // ---------- Flush ----------

    // The next table of level 0, under the name with the next number.
    static ghost predicate OneTableMore(levels: Levels, before: Levels) {
      && TablesAt(levels, 0) == TablesAt(before, 0) + [TableName(|TablesAt(before, 0)| + 1)]
      && TablesAt(levels, 1) == TablesAt(before, 1)
    }

    // saveLevel0SSTableEntries: on success level 0 has one more table, on failure nothing that is listed in memory
    // has changed; and unless a manifest was left unsynced, the disk agreed at every moment in between with the
    // levels before or after.
    method SaveLevel0SSTable(entries: seq<Entry>) returns (err: Option<Error>)
      requires Valid() && |TablesAt(levels, 0)| < 0x7FFF_FFFF_FFFF_FFFF
      modifies this, disk
      ensures Valid() && disk.now.wal == old(disk.now.wal) && Grew(old(disk.faults), disk.faults)
      ensures err.None? ==> Writable(entries)
      ensures err.None? ==> RunsAt(levels, runs, 0) == old(RunsAt(levels, runs, 0)) + [NormalRun(entries)]
      ensures err.None? ==> RunsAt(levels, runs, 1) == old(RunsAt(levels, runs, 1))
      ensures err.None? ==> OneTableMore(levels, old(levels))
      ensures err.Some? ==> levels == old(levels) && runs == old(runs)
      ensures err.Some? && Writable(entries) && |entries| <= MAX_ENTRIES && old(Published()) ==>
                disk.faults.failed > old(disk.faults.failed)
      ensures old(Published()) && disk.faults.unsynced == old(disk.faults.unsynced) ==> Published()
      ensures old(Published()) && disk.faults.unsynced == old(disk.faults.unsynced) ==>
                CrashSafe(env, old(disk.seen), disk.seen, disk.now.wal, old(levels), old(runs), levels, runs)
    {
      var next := GetNextSSTableIndex(TablesAt(levels, 0));
      NextIsCount(levels, next);
      var name := TableName(next);
      NewNameIsNew(levels);
      err := WriteSortedSSTableFile(env, disk, Path(0, name), entries);
      UnlistedFiles(env, old(disk.seen), disk.seen, old(disk.now), disk.now, levels, runs, Path(0, name));
      if err.None? {
        err := PublishTable(name, NormalRun(entries));
      }
    }

    // Lists a table that is in place; if the manifest cannot be replaced, the table is removed again.
    method PublishTable(name: bytes, ghost run: Run) returns (err: Option<Error>)
      requires Valid() && name == TableName(|TablesAt(levels, 0)| + 1) && !Lists(levels, Path(0, name))
      requires TableOk(env, disk.now, Path(0, name), run)
      modifies this, disk
      ensures Valid() && disk.now.wal == old(disk.now.wal) && Grew(old(disk.faults), disk.faults)
      ensures err.None? ==> RunsAt(levels, runs, 0) == old(RunsAt(levels, runs, 0)) + [run]
      ensures err.None? ==> RunsAt(levels, runs, 1) == old(RunsAt(levels, runs, 1))
      ensures err.None? ==> OneTableMore(levels, old(levels))
      ensures err.Some? ==> levels == old(levels) && runs == old(runs)
      ensures err.Some? && old(Published()) ==> disk.faults.failed > old(disk.faults.failed)
      ensures old(Published()) && disk.faults.unsynced == old(disk.faults.unsynced) ==> Published()
      ensures old(Published()) && disk.faults.unsynced == old(disk.faults.unsynced) ==>
                CrashSafe(env, old(disk.seen), disk.seen, disk.now.wal, old(levels), old(runs), levels, runs)
    {
      err := AppendTableToManifest(name, run);
      if err.Some? {
        ghost var seen, d := disk.seen, disk.now;
        RemoveSSTableAndBloom(disk, Path(0, name));
        UnlistedFiles(env, seen, disk.seen, d, disk.now, levels, runs, Path(0, name));
      } else {
        RegisterBloomFilter(name);
      }
    }

    method ReadManifest() returns (r: Result<Levels>)
      requires env.quoting.Lawful()
      ensures Published() ==> r == Ok(if disk.now.manifest.None? then [] else KeptAll(levels))
    {
      if disk.now.manifest.None? {
        return Ok([]);
      }
      r := GetAllSSTables(env.quoting, disk.now.manifest.value);
    }

    // The manifest as the disk has it, with the table added, is written back.
    method ListTable(name: bytes, ghost levels': Levels, ghost runs': RunMap) returns (err: Option<Error>)
      requires Valid() && levels' == Flushed(levels, name) && FilesAgree(env, disk.now, levels', runs')
      modifies disk
      ensures disk.Valid() && Grew(old(disk.faults), disk.faults) && disk.now.wal == old(disk.now.wal)
      ensures disk.now.tables == old(disk.now.tables) && disk.now.sidecars == old(disk.now.sidecars)
      ensures err.None? ==> disk.seen == old(disk.seen) + {disk.now}
      ensures err.None? && old(Published()) ==> ManifestOk(env, disk.now, levels')
      ensures err.Some? && old(Published()) ==> disk.faults.failed > old(disk.faults.failed)
      ensures err.Some? && disk.faults.unsynced == old(disk.faults.unsynced) ==>
                disk.now == old(disk.now) && disk.seen == old(disk.seen)
    {
      var unreadable := disk.Fault();
      if unreadable {
        return Some(IoFailure);
      }
      var listed := ReadManifest();
      if listed.Err? {
        return Some(listed.error);
      }
      if Published() {
        ListedPrintable(listed.value, name, runs');
      }
      err := RewriteManifest(env, disk, WithTable(listed.value, 0, name));
    }

    // The manifest first; memory follows.
    method AppendTableToManifest(name: bytes, ghost run: Run) returns (err: Option<Error>)
      requires Valid() && name == TableName(|TablesAt(levels, 0)| + 1)
      requires TableOk(env, disk.now, Path(0, name), run)
      modifies this`levels, this`runs, disk
      ensures Valid() && disk.now.wal == old(disk.now.wal) && Grew(old(disk.faults), disk.faults)
      ensures err.None? ==> RunsAt(levels, runs, 0) == old(RunsAt(levels, runs, 0)) + [run]
      ensures err.None? ==> RunsAt(levels, runs, 1) == old(RunsAt(levels, runs, 1))
      ensures err.None? ==> OneTableMore(levels, old(levels))
      ensures err.None? ==> disk.seen == old(disk.seen) + {disk.now} && Lists(levels, Path(0, name))
      ensures err.None? && old(Published()) ==> Published()
      ensures err.Some? ==> levels == old(levels) && runs == old(runs)
      ensures err.Some? && old(Published()) ==> disk.faults.failed > old(disk.faults.failed)
      ensures err.Some? && disk.faults.unsynced == old(disk.faults.unsynced) ==>
                disk.now == old(disk.now) && disk.seen == old(disk.seen)
    {
      ghost var levels', runs' := Flushed(levels, name), runs[Path(0, name) := run];
      FlushAgrees(env, disk.now, levels, runs, name, run);
      err := ListTable(name, levels', runs');
      SameFilesAgree(env, old(disk.now), disk.now, levels, runs);
      SameFilesAgree(env, old(disk.now), disk.now, levels', runs');
      if err.None? {
        FlushedShape(levels, name);
        levels := Flushed(levels, name);
        runs := runs';
      }
    }

    lemma ListedPrintable(listed: Levels, name: bytes, runs': RunMap)
      requires Valid() && FilesAgree(env, disk.now, Flushed(levels, name), runs')
      requires Published() && if disk.now.manifest.None? then listed == [] else listed == KeptAll(levels)
      ensures SameTables(Flushed(listed, name), Flushed(levels, name))
      ensures AllPrintable(Flushed(listed, name))
    {
      KeptAllTwice(levels);
      KeptLevelsOk(levels, listed);
      FlushedSame(listed, levels, name);
      LevelsPrintable(env, disk.now, Flushed(levels, name), runs');
      SamePrintable(Flushed(levels, name), Flushed(listed, name));
    }

    // If the filter of this table of level 0 can be read, it is in memory.
    ghost predicate FilterRegistered(name: bytes)
      reads this, disk
    {
      var p := Path(0, name);
      p in disk.now.sidecars && Bloom.DecodeSidecar(env.crc64, disk.now.sidecars[p]).Ok? ==>
        exists i :: 0 <= i < |levels| && levels[i].level == 0 && name in levels[i].bloomFilters
                    && Ok(levels[i].bloomFilters[name]) == Bloom.DecodeSidecar(env.crc64, disk.now.sidecars[p])
    }

    // Where a level is in the list, or behind its end.
    method PositionOf(level: nat) returns (i: nat)
      ensures i <= |levels| && (i < |levels| ==> levels[i].level == level)
      ensures forall j :: 0 <= j < i ==> levels[j].level != level
    {
      i := 0;
      while i < |levels| && levels[i].level != level
        invariant i <= |levels| && forall j :: 0 <= j < i ==> levels[j].level != level
      {
        i := i + 1;
      }
    }

    // The new table's filter joins those in memory, if it can be read.
    method RegisterBloomFilter(name: bytes)
      requires Valid() && Lists(levels, Path(0, name))
      modifies this`levels
      ensures Valid() && SameTables(levels, old(levels)) && (old(Published()) ==> Published())
      ensures TablesAt(levels, 0) == old(TablesAt(levels, 0)) && TablesAt(levels, 1) == old(TablesAt(levels, 1))
      ensures RunsAt(levels, runs, 0) == old(RunsAt(levels, runs, 0))
      ensures RunsAt(levels, runs, 1) == old(RunsAt(levels, runs, 1))
      ensures FilterRegistered(name)
    {
      var p := Path(0, name);
      if p !in disk.now.sidecars {
        return;
      }
      var filter := Bloom.DecodeSidecar(env.crc64, disk.now.sidecars[p]);
      if filter.Err? {
        return;
      }
      assert TableOk(env, disk.now, p, RunAt(runs, p));
      var i := PositionOf(0);
      if i < |levels| {
        TablesOfLevel(levels, i);
        FilterAdded(env, disk.now, levels, runs, i, name, filter.value);
        levels := levels[i := levels[i].(bloomFilters := levels[i].bloomFilters[name := filter.value])];
        SameTablesAt(levels, old(levels), 0);
        SameTablesAt(levels, old(levels), 1);
      }
    }

    method Install(levels: Levels, ghost runs: RunMap)
      requires env.quoting.Lawful() && disk.Valid() && FilesAgree(env, disk.now, levels, runs)
      modifies this`levels, this`runs
      ensures Valid() && this.levels == levels && this.runs == runs
    {
      this.levels, this.runs := levels, runs;
    }
  }

  lemma FilterAdded(env: Env, d: DiskState, levels: Levels, runs: RunMap, i: nat, name: bytes, f: Bloom.Filter)
    requires FilesAgree(env, d, levels, runs) && i < |levels| && name in levels[i].tables
    requires Bloom.Covers(env.hash, f, RunAt(runs, Path(levels[i].level, name)))
    ensures var levels' := levels[i := levels[i].(bloomFilters := levels[i].bloomFilters[name := f])];
            FilesAgree(env, d, levels', runs) && SameTables(levels', levels)
  {
    var levels' := levels[i := levels[i].(bloomFilters := levels[i].bloomFilters[name := f])];
    forall j | 0 <= j < |levels'| ensures Kept(levels'[j]) == Kept(levels[j]) && FiltersOk(env, levels'[j], runs) {
      assert PruningOk(env, levels[j], runs);
      if j == i {
        assert RangesOf(levels'[i], |levels'[i].tables|) == RangesOf(levels[i], |levels[i].tables|);
      }
    }
    assert KeptAll(levels') == KeptAll(levels);
    SameTablesAgree(env, d, levels, levels', runs);
  }
}
