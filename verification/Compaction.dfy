// Merging levels 0 and 1 into a new level 1.

module Compactions {
  import opened Base
  import opened Lsm
  import opened Tables
  import opened Naming
  import opened Manifests
  import opened Disks
  import opened StoreState
  import opened StoreIO
  import opened Stores
  import opened Heaps
  import opened Merge
  import opened Mergers
  import Machine
  import Wals

  const FLUSH_THRESHOLD: nat := Machine.FLUSH_THRESHOLD

  // Entries as tables hold them: storable, and tombstones without value.
  ghost predicate Clean(run: Run) {
    forall i :: 0 <= i < |run| ==> EntryWritable(run[i]) && Normal(run[i]) == run[i]
  }

  // A new level-1 table is in place, under a name that was not taken before.
  ghost predicate InPlace(env: Env, d: DiskState, taken: set<Path>, table: bytes, run: Run) {
    TableOk(env, d, Path(1, table), run) && Path(1, table) !in taken && IsTableName(table)
  }

  // Table files that are still there, unchanged.
  ghost predicate StillThere(tables: map<Path, bytes>, tables': map<Path, bytes>) {
    forall p :: p in tables ==> p in tables' && tables'[p] == tables[p]
  }

  lemma OthersStillThere(tables: map<Path, bytes>, d: DiskState, d': DiskState, p: Path)
    requires StillThere(tables, d.tables) && OnlyAt(d, d', p) && p !in tables
    ensures StillThere(tables, d'.tables)
  {}

  // So are all new tables, under different names and with their exact ranges.
  ghost predicate AllInPlace(env: Env, d: DiskState, taken: set<Path>, tables: seq<bytes>, chunks: seq<Run>,
                             ranges: map<bytes, KeyRange>) {
    && |tables| == |chunks|
    && (forall i :: 0 <= i < |tables| ==> InPlace(env, d, taken, tables[i], chunks[i]))
    && (forall i, j :: 0 <= i < j < |tables| ==> tables[i] != tables[j])
    && (forall t :: t in ranges <==> t in tables)
    && (forall i :: 0 <= i < |tables| ==> tables[i] in ranges && RangeOk(ranges[tables[i]], chunks[i]))
  }

  // Work on the files of another table leaves them in place.
  lemma OthersInPlace(env: Env, d: DiskState, d': DiskState, taken: set<Path>, tables: seq<bytes>, chunks: seq<Run>,
                      ranges: map<bytes, KeyRange>, name: bytes)
    requires AllInPlace(env, d, taken, tables, chunks, ranges)
    requires Path(1, name) !in d.tables && OnlyAt(d, d', Path(1, name))
    ensures AllInPlace(env, d', taken, tables, chunks, ranges) && name !in tables
  {
    forall i | 0 <= i < |tables| ensures tables[i] != name && InPlace(env, d', taken, tables[i], chunks[i]) {
      assert InPlace(env, d, taken, tables[i], chunks[i]);
    }
  }

  lemma OneMoreInPlace(env: Env, d: DiskState, taken: set<Path>, tables: seq<bytes>, chunks: seq<Run>,
                       ranges: map<bytes, KeyRange>, name: bytes, run: Run, range: KeyRange,
                       tables': seq<bytes>, chunks': seq<Run>, ranges': map<bytes, KeyRange>)
    requires AllInPlace(env, d, taken, tables, chunks, ranges)
    requires name !in tables && InPlace(env, d, taken, name, run) && RangeOk(range, run)
    requires tables' == tables + [name] && chunks' == chunks + [run] && ranges' == ranges[name := range]
    ensures AllInPlace(env, d, taken, tables', chunks', ranges')
  {
    hide InPlace, RangeOk;
  }

  ghost predicate ChunkOk(chunk: seq<Entry>, min: bytes, max: bytes) {
    && Clean(chunk) && Sorted(chunk) && |chunk| <= FLUSH_THRESHOLD
    && (chunk != [] ==> min == chunk[0].K && max == chunk[|chunk| - 1].K)
  }

  ghost predicate Sizes(chunks: seq<Run>, least: nat) {
    forall i :: 0 <= i < |chunks| ==> least <= |chunks[i]| <= FLUSH_THRESHOLD
  }

  lemma SizesGrow(chunks: seq<Run>, grown: seq<Run>, run: Run, least: nat)
    requires Sizes(chunks, least) && grown == chunks + [run] && least <= |run| <= FLUSH_THRESHOLD
    ensures Sizes(grown, least)
  {}

  lemma ChunkGrows(chunk: Run, grown: Run, min: bytes, max: bytes, e: Entry)
    requires ChunkOk(chunk, min, max) && |chunk| < FLUSH_THRESHOLD && EntryWritable(e) && Normal(e) == e
    requires grown == chunk + [e] && (chunk != [] ==> Less(chunk[|chunk| - 1].K, e.K))
    ensures ChunkOk(grown, if chunk == [] then e.K else min, e.K)
  {
    SortedSnoc(chunk, e);
  }

  // What the merge loop and its flushChunk share.
  class Output {
    const store: SstableStore
    var chunk: seq<Entry>
    var chunkMinKey: bytes
    var chunkMaxKey: bytes
    var newTables: seq<bytes>
    var newTableRanges: map<bytes, KeyRange>
    var nextL1Index: nat
    var first: bool
    var currentKey: bytes
    ghost var chunks: seq<Run>
    // The disk as it was at the beginning.
    ghost const seen0: set<DiskState>
    ghost const wal0: Wals.WalFile
    ghost const tables0: map<Path, bytes>
    ghost const faults0: FaultCount
    ghost const published0: bool

    ghost predicate StoreOk()
      reads store, store.disk
    {
      && store.Valid() && store.disk.now.wal == wal0 && StillThere(tables0, store.disk.now.tables)
      && Grew(faults0, store.disk.faults)
    }

    // If the manifest agreed with memory, it still does, and so did every disk state since then.
    ghost predicate Safe()
      reads store, store.disk
    {
      published0 ==> store.Published() && Steady(store.env, seen0, store.disk.seen, wal0, store.levels, store.runs)
    }

    ghost predicate Valid()
      reads this, store, store.disk
    {
      && StoreOk() && Safe() && nextL1Index >= 1
      && AllInPlace(store.env, store.disk.now, tables0.Keys, newTables, chunks, newTableRanges)
      && Sizes(chunks, 1) && ChunkOk(chunk, chunkMinKey, chunkMaxKey)
    }

    ghost predicate Failed()
      reads store.disk
    {
      store.disk.faults.failed > faults0.failed
    }

    // Everything emitted so far.
    ghost function Emitted(): Run
      reads this
    {
      Flatten(chunks) + chunk
    }

    // While merging: the last emitted entry is in the chunk, and all finished chunks are full.
    ghost predicate Open()
      reads this, store, store.disk
    {
      && Valid()
      && (first <==> Emitted() == [])
      && (!first ==> chunk != [] && currentKey == chunk[|chunk| - 1].K)
      && Sizes(chunks, FLUSH_THRESHOLD)
    }

    constructor (store: SstableStore, nextL1Index: nat)
      requires store.Valid() && nextL1Index >= 1
      ensures Open() && this.store == store && Emitted() == []
      ensures seen0 == store.disk.seen && wal0 == store.disk.now.wal && tables0 == store.disk.now.tables
      ensures faults0 == store.disk.faults && published0 == store.Published()
    {
      hide SstableStore.Valid, DiskAgrees;
      seen0, wal0, tables0 := store.disk.seen, store.disk.now.wal, store.disk.now.tables;
      faults0, published0 := store.disk.faults, store.Published();
      this.store, this.nextL1Index := store, nextL1Index;
      chunk, chunkMinKey, chunkMaxKey := [], [], [];
      newTables, newTableRanges, chunks := [], map[], [];
      first, currentKey := true, [];
    }

    // The next number whose name no level-1 file has.
    method FreshTableName() returns (name: bytes)
      requires store.Valid() && nextL1Index >= 1
      modifies this`nextL1Index
      ensures Path(1, name) !in store.disk.now.tables && IsTableName(name) && nextL1Index >= 1
    {
      ghost var left := store.disk.now.tables.Keys;
      while true
        invariant nextL1Index >= 1
        invariant forall n :: n >= nextL1Index && Path(1, TableName(n)) in store.disk.now.tables ==>
                    Path(1, TableName(n)) in left
        decreases |left|
      {
        name := TableName(nextL1Index);
        ghost var tried := nextL1Index;
        nextL1Index := nextL1Index + 1;
        if Path(1, name) !in store.disk.now.tables {
          return;
        }
        forall n | n >= nextL1Index && Path(1, TableName(n)) in store.disk.now.tables
          ensures Path(1, TableName(n)) in left - {Path(1, name)}
        {
          if TableName(n) == name { NamesDiffer(n, tried); }
        }
        left := left - {Path(1, name)};
      }
    }

    // Reading on may fail, which changes nothing.
    method ReadFault() returns (failed: bool)
      requires Open()
      modifies store.disk`faults
      ensures Open() && (failed ==> Failed())
    {
      failed := store.disk.Fault();
    }

    // flushChunk: the chunk becomes a table of its own, under a name that nothing else has.
    method FlushChunk() returns (err: Option<Error>)
      requires Valid()
      modifies this, store.disk
      ensures Valid()
      ensures err.None? ==> chunk == [] && chunks == old(chunks) + (if old(chunk) == [] then [] else [old(chunk)])
      ensures err.Some? ==> chunks == old(chunks) && Failed()
      ensures first == old(first) && currentKey == old(currentKey)
    {
      if chunk == [] {
        return None;
      }
      var unreadable := store.disk.Fault();
      if unreadable {
        return Some(IoFailure);
      }
      var name := FreshTableName();
      ListedIsThere(name);
      err := WriteSortedSSTableFile(store.env, store.disk, Path(1, name), chunk);
      UnlistedFiles(store.env, old(store.disk.seen), store.disk.seen, old(store.disk.now), store.disk.now,
                    store.levels, store.runs, Path(1, name));
      OthersStillThere(tables0, old(store.disk.now), store.disk.now, Path(1, name));
      OthersInPlace(store.env, old(store.disk.now), store.disk.now, tables0.Keys, newTables, chunks, newTableRanges,
                    name);
      if err.None? {
        NewTable(name);
      }
    }

    lemma ListedIsThere(name: bytes)
      requires store.Valid()
      ensures Lists(store.levels, Path(1, name)) ==> Path(1, name) in store.disk.now.tables
    {
      if Lists(store.levels, Path(1, name)) {
        assert TableOk(store.env, store.disk.now, Path(1, name), RunAt(store.runs, Path(1, name)));
      }
    }

    lemma CleanNormal()
      requires Clean(chunk)
      ensures NormalRun(chunk) == chunk
    {}

    // The written chunk is recorded with its range, and a new chunk begins.
    method NewTable(name: bytes)
      requires Valid() && chunk != [] && name !in newTables
      requires TableOk(store.env, store.disk.now, Path(1, name), NormalRun(chunk))
      requires Path(1, name) !in tables0 && IsTableName(name)
      modifies this
      ensures Valid() && chunk == [] && chunks == old(chunks) + [old(chunk)]
      ensures first == old(first) && currentKey == old(currentKey)
    {
      hide StoreOk, AllInPlace, TableOk, Sizes;
      CleanNormal();
      ghost var tables, before, ranges, run := newTables, chunks, newTableRanges, chunk;
      newTables := newTables + [name];
      newTableRanges := newTableRanges[name := KeyRange(chunkMinKey, chunkMaxKey)];
      chunks := chunks + [chunk];
      OneMoreInPlace(store.env, store.disk.now, tables0.Keys, tables, before, ranges, name, run,
                     KeyRange(chunkMinKey, chunkMaxKey), newTables, chunks, newTableRanges);
      SizesGrow(before, chunks, run, 1);
      chunk, chunkMinKey, chunkMaxKey := [], [], [];
    }

    // A full chunk is written out before the next entry.
    method MakeRoom() returns (err: Option<Error>)
      requires Open()
      modifies this, store.disk
      ensures Valid()
      ensures err.None? ==>
                && Emitted() == old(Emitted()) && |chunk| < FLUSH_THRESHOLD
                && Sizes(chunks, FLUSH_THRESHOLD) && (chunk == [] || chunk == old(chunk))
      ensures err.Some? ==> Failed()
      ensures first == old(first) && currentKey == old(currentKey)
    {
      err := None;
      if |chunk| == FLUSH_THRESHOLD {
        ghost var before, full := chunks, chunk;
        assert FLUSH_THRESHOLD == 1953 && full != [];
        err := FlushChunk();
        if err.None? {
          FlattenGrows(before, full, chunks);
          SizesGrow(before, chunks, full, FLUSH_THRESHOLD);
        }
      }
    }

    method AppendEntry(e: Entry)
      requires ChunkOk(chunk, chunkMinKey, chunkMaxKey) && |chunk| < FLUSH_THRESHOLD
      requires EntryWritable(e) && Normal(e) == e && (chunk != [] ==> Less(chunk[|chunk| - 1].K, e.K))
      modifies this`chunk, this`chunkMinKey, this`chunkMaxKey, this`first, this`currentKey
      ensures ChunkOk(chunk, chunkMinKey, chunkMaxKey) && chunk == old(chunk) + [e]
      ensures !first && currentKey == e.K && Emitted() == old(Emitted()) + [e]
    {
      ghost var before, emitted := chunk, Emitted();
      chunk := chunk + [e];
      ChunkGrows(before, chunk, chunkMinKey, chunkMaxKey, e);
      assert Flatten(chunks) + chunk == emitted + [e];
      if |chunk| == 1 {
        chunkMinKey := e.K;
      }
      chunkMaxKey := e.K;
      first, currentKey := false, e.K;
    }

    // The body of the merge loop up to advancing the reader: an entry with a new key is emitted, one whose key
    // was emitted last is dropped.
    method Take(item: HeapItem) returns (err: Option<Error>)
      requires Open()
      requires EntryWritable(EntryOf(item)) && Normal(EntryOf(item)) == EntryOf(item)
      requires Emitted() != [] ==> !Less(item.key, Emitted()[|Emitted()| - 1].K)
      modifies this, store.disk
      ensures Valid()
      ensures err.None? ==> Open() && Emitted() == Emit(old(Emitted()), EntryOf(item))
      ensures err.Some? ==> Failed()
    {
      LessTotal(item.key, currentKey);
      if !first && item.key == currentKey {
        return None;
      }
      err := TakeNew(EntryOf(item));
    }

    method TakeNew(e: Entry) returns (err: Option<Error>)
      requires Open() && EntryWritable(e) && Normal(e) == e && (!first ==> Less(currentKey, e.K))
      modifies this, store.disk
      ensures Valid()
      ensures err.None? ==> Open() && Emitted() == old(Emitted()) + [e]
      ensures err.Some? ==> Failed()
    {
      hide StoreOk, AllInPlace;
      err := MakeRoom();
      if err.None? {
        AppendEntry(e);
      }
    }
  }

  function EntryOf(item: HeapItem): Entry {
    Entry(item.key, item.entry.Value, item.entry.Type)
  }

  // ---------- Gathering the sources ----------

  // Tables without entries take no part in the merge.
  function NonEmpty(runs: seq<Run>): seq<Run> {
    if runs == [] then []
    else if runs[|runs| - 1] == [] then NonEmpty(runs[..|runs| - 1])
    else NonEmpty(runs[..|runs| - 1]) + [runs[|runs| - 1]]
  }

  lemma {:induction false} NonEmptyScan(runs: seq<Run>, key: bytes)
    ensures ScanNewest(NonEmpty(runs), key) == ScanNewest(runs, key)
  {
    if runs != [] {
      NonEmptyScan(runs[..|runs| - 1], key);
      if runs[|runs| - 1] != [] {
        ScanSnoc(NonEmpty(runs[..|runs| - 1]), runs[|runs| - 1], key);
      }
    }
  }

  lemma SourcesAnswer(sources: Sources, runs0: seq<Run>, runs1: seq<Run>, key: bytes)
    requires sources == NonEmpty(runs0) + NonEmpty(runs1)
    ensures SourceLookup(sources, |NonEmpty(runs0)|, key) == StoreLookup(runs0, runs1, key)
  {
    assert sources[..|NonEmpty(runs0)|] == NonEmpty(runs0) && sources[|NonEmpty(runs0)|..] == NonEmpty(runs1);
    NonEmptyScan(runs0, key);
    NonEmptyScan(runs1, key);
  }

  ghost predicate AllClean(sources: Sources) {
    forall i :: 0 <= i < |sources| ==> Clean(sources[i])
  }

  method AddListed(store: SstableStore, m: Merger, p: Path, ghost run: Run) returns (err: Option<Error>)
    requires TableOk(store.env, store.disk.now, p, run) && m.Valid() && p.level <= 1
    requires p.level == 0 ==> m.l0 == |m.sources|
    modifies m, m.h, store.disk`faults
    ensures Reported(err, old(store.disk.faults), store.disk.faults)
    ensures store.disk.faults.unsynced == old(store.disk.faults.unsynced)
    ensures forall r :: r in m.readers ==> r in old(m.readers) || fresh(r)
    ensures m.Valid() && (err.None? ==> m.sources == old(m.sources) + (if run == [] then [] else [run]))
    ensures err.None? ==> m.l0 == if p.level == 0 then |m.sources| else old(m.l0)
  {
    var unreadable := store.disk.Fault();
    if unreadable {
      return Some(IoFailure);
    }
    err := m.AddTable(store.env.crc64, p.level, store.disk.now.tables[p], run);
  }

  ghost predicate Added(before: Sources, after: Sources, runs: seq<Run>) {
    after == before + NonEmpty(runs)
  }

  // The runs of the tables that are there.
  ghost function PresentRuns(runs: RunMap, level: nat, tables: seq<bytes>, files: map<Path, bytes>): seq<Run> {
    RunsOf(runs, level, Present(level, tables, files))
  }

  lemma PresentStep(runs: RunMap, level: nat, tables: seq<bytes>, files: map<Path, bytes>, i: nat)
    requires i < |tables|
    ensures PresentRuns(runs, level, tables[..i + 1], files) ==
            if Path(level, tables[i]) in files
            then PresentRuns(runs, level, tables[..i], files) + [RunAt(runs, Path(level, tables[i]))]
            else PresentRuns(runs, level, tables[..i], files)
  {
    assert tables[..i + 1][..i] == tables[..i];
  }

  lemma AddedStep(base: Sources, before: Sources, after: Sources, runs: seq<Run>, run: Run, runs': seq<Run>)
    requires Added(base, before, runs) && runs' == runs + [run]
    requires after == before + (if run == [] then [] else [run])
    ensures Added(base, after, runs')
  {
    assert runs'[..|runs|] == runs;
  }

  // Opens the tables of one level, in order; a table whose file is missing is skipped.
  method AddTables(store: SstableStore, m: Merger, level: nat, tables: seq<bytes>, ghost runs: RunMap)
    returns (err: Option<Error>)
    requires m.Valid() && level <= 1 && (level == 0 ==> m.l0 == |m.sources|)
    requires forall t :: t in tables && Path(level, t) in store.disk.now.tables ==>
               TableOk(store.env, store.disk.now, Path(level, t), RunAt(runs, Path(level, t)))
    modifies m, m.h, store.disk`faults
    ensures Reported(err, old(store.disk.faults), store.disk.faults)
    ensures store.disk.faults.unsynced == old(store.disk.faults.unsynced)
    ensures forall r :: r in m.readers ==> r in old(m.readers) || fresh(r)
    ensures err.None? ==>
              m.Valid() && Added(old(m.sources), m.sources, PresentRuns(runs, level, tables, store.disk.now.tables))
    ensures err.None? ==> m.l0 == if level == 0 then |m.sources| else old(m.l0)
  {
    hide TableOk, PresentRuns, Added;
    ghost var base, files := m.sources, store.disk.now.tables;
    NothingAdded(runs, level, files, base);
    assert tables[..0] == [];
    for i := 0 to |tables|
      invariant m.Valid() && Added(base, m.sources, PresentRuns(runs, level, tables[..i], files))
      invariant m.l0 == if level == 0 then |m.sources| else old(m.l0)
      invariant Grew(old(store.disk.faults), store.disk.faults)
      invariant store.disk.faults.unsynced == old(store.disk.faults.unsynced)
      invariant forall r :: r in m.readers ==> r in old(m.readers) || fresh(r)
    {
      PresentStep(runs, level, tables, files, i);
      var p := Path(level, tables[i]);
      if p in store.disk.now.tables {
        ghost var before, run := m.sources, RunAt(runs, p);
        err := AddListed(store, m, p, run);
        if err.Some? {
          return;
        }
        AddedStep(base, before, m.sources, PresentRuns(runs, level, tables[..i], files), run,
                  PresentRuns(runs, level, tables[..i + 1], files));
      }
    }
    assert tables[..|tables|] == tables;
    return None;
  }

  lemma NothingAdded(runs: RunMap, level: nat, files: map<Path, bytes>, base: Sources)
    ensures Added(base, base, PresentRuns(runs, level, [], files))
  {
    assert base + [] == base;
  }

  // ---------- The merge loop ----------

  // What one round does to the sources and the output, and what it keeps.
  lemma RoundKeeps(origin: Sources, sources: Sources, sources': Sources, l0: nat, out: Run, out': Run, i: nat)
    requires Merging(origin, sources, l0, out) && AllClean(sources) && IsLeast(sources, l0, i)
    requires sources' == sources[i := sources[i][1..]] && out' == Emit(out, sources[i][0])
    ensures Merging(origin, sources', l0, out') && AllClean(sources') && Unread(sources') < Unread(sources)
  {
    MergeStep(origin, sources, l0, out, i);
    UnreadDrops(sources, i);
    forall j | 0 <= j < |sources'| ensures Clean(sources'[j]) {
      assert Clean(sources[j]);
    }
  }

  // The first half of a round: pop, and emit or drop.
  method PopAndTake(out: Output, m: Merger) returns (err: Option<Error>, item: HeapItem)
    requires out.Open() && m.Valid() && m.h.items != [] && AllClean(m.sources) && AtOrBehind(out.Emitted(), m.sources)
    modifies out, out.store.disk, m.h
    ensures out.Valid() && (err.Some? ==> out.Failed())
    ensures m.Popped(item)
    ensures err.None? ==> out.Open() && out.Emitted() == Emit(old(out.Emitted()), m.sources[item.tableIndex][0])
  {
    hide Output.StoreOk, Output.Open;
    item := m.PopLeast();
    assert Clean(m.sources[item.tableIndex]) && EntryOf(item) == m.sources[item.tableIndex][0];
    err := out.Take(item);
  }

  // One round: pop, emit or drop, advance.
  method MergeOne(out: Output, m: Merger) returns (err: Option<Error>, ghost i: nat)
    requires out.Open() && m.Valid() && m.h.items != [] && AllClean(m.sources) && AtOrBehind(out.Emitted(), m.sources)
    modifies out, out.store.disk, m, m.h, m.readers
    ensures out.Valid() && m.readers == old(m.readers) && (err.Some? ==> out.Failed())
    ensures err.None? ==> out.Open() && m.Valid() && m.l0 == old(m.l0) && IsLeast(old(m.sources), m.l0, i)
    ensures err.None? ==> m.sources == old(m.sources)[i := old(m.sources)[i][1..]]
    ensures err.None? ==> out.Emitted() == Emit(old(out.Emitted()), old(m.sources)[i][0])
  {
    hide Output.StoreOk, Output.Open, Output.Valid;
    var item;
    err, item := PopAndTake(out, m);
    i := item.tableIndex;
    if err.None? {
      var unreadable := out.ReadFault();
      if unreadable {
        return Some(IoFailure), i;
      }
      err := m.MoveOn(item);
    }
  }

  method Round(out: Output, m: Merger, ghost origin: Sources) returns (err: Option<Error>)
    requires out.Open() && m.Valid() && m.h.items != [] && AllClean(m.sources)
    requires Merging(origin, m.sources, m.l0, out.Emitted())
    modifies out, out.store.disk, m, m.h, m.readers
    ensures out.Valid() && m.readers == old(m.readers) && (err.Some? ==> out.Failed())
    ensures err.None? ==> out.Open() && m.Valid() && m.l0 == old(m.l0) && AllClean(m.sources)
    ensures err.None? ==> Merging(origin, m.sources, m.l0, out.Emitted()) && Unread(m.sources) < old(Unread(m.sources))
  {
    ghost var sources, emitted := m.sources, out.Emitted();
    ghost var i;
    err, i := MergeOne(out, m);
    if err.None? {
      RoundKeeps(origin, sources, m.sources, m.l0, emitted, out.Emitted(), i);
    }
  }

  method MergeLoop(out: Output, m: Merger, ghost origin: Sources) returns (err: Option<Error>)
    requires out.Open() && m.Valid() && AllClean(m.sources)
    requires Merging(origin, m.sources, m.l0, out.Emitted())
    modifies out, out.store.disk, m, m.h, m.readers
    ensures out.Valid() && (err.Some? ==> out.Failed())
    ensures err.None? ==> out.Open() && m.Valid() && m.h.items == [] && m.l0 == old(m.l0)
    ensures err.None? ==> Merging(origin, m.sources, m.l0, out.Emitted())
  {
    err := None;
    while err.None? && m.h.items != []
      invariant out.Valid() && m.readers == old(m.readers) && (err.Some? ==> out.Failed())
      invariant err.None? ==> out.Open() && m.Valid() && m.l0 == old(m.l0) && AllClean(m.sources)
      invariant err.None? ==> Merging(origin, m.sources, m.l0, out.Emitted())
      decreases if err.None? then 1 + Unread(m.sources) else 0
    {
      err := Round(out, m, origin);
    }
  }

  // The merge loop and the last chunk. On success the new tables together hold exactly the merged run.
  method MergeAll(out: Output, m: Merger) returns (err: Option<Error>)
    requires out.Open() && out.Emitted() == [] && m.Valid() && AllClean(m.sources)
    modifies out, out.store.disk, m, m.h, m.readers
    ensures out.Valid() && (err.Some? ==> out.Failed())
    ensures err.None? ==> Sorted(Flatten(out.chunks)) && out.chunk == []
    ensures err.None? ==> forall k :: Lookup(Flatten(out.chunks), k) == SourceLookup(old(m.sources), old(m.l0), k)
    ensures err.None? ==> forall i :: 0 <= i < |out.chunks| - 1 ==> |out.chunks[i]| == 1953
  {
    ghost var origin, l0 := m.sources, m.l0;
    m.SourcesSorted();
    err := MergeLoop(out, m, origin);
    if err.None? {
      m.Exhausted();
      MergeEnds(origin, m.sources, l0, out.Emitted());
      ghost var chunks, last := out.chunks, out.chunk;
      err := out.FlushChunk();
      if err.None? {
        AllFlushed(chunks, last, out.chunks);
      }
    }
  }

  lemma AllFlushed(chunks: seq<Run>, last: Run, all: seq<Run>)
    requires Sizes(chunks, FLUSH_THRESHOLD) && |last| <= FLUSH_THRESHOLD
    requires all == chunks + (if last == [] then [] else [last])
    ensures Flatten(all) == Flatten(chunks) + last
    ensures forall i :: 0 <= i < |all| - 1 ==> |all[i]| == FLUSH_THRESHOLD
  {
    if last != [] {
      FlattenGrows(chunks, last, all);
    }
  }

  // ---------- Publication ----------

  // Levels above 1 are carried over as they are.
  function Others(levels: Levels): Levels {
    if levels == [] then []
    else if levels[0].level > 1 then [levels[0]] + Others(levels[1..])
    else Others(levels[1..])
  }

  function Compacted(levels: Levels, tables: seq<bytes>, ranges: map<bytes, KeyRange>): Levels {
    SortByLevel(Others(levels) + [SstableLevel(0, [], map[], map[])] + [SstableLevel(1, tables, map[], ranges)])
  }

  lemma {:induction false} NoOthers(levels: Levels)
    requires forall i :: 0 <= i < |levels| ==> levels[i].level <= 1
    ensures Others(levels) == []
  {
    if levels != [] {
      NoOthers(levels[1..]);
    }
  }

  lemma CompactedIs(levels: Levels, tables: seq<bytes>, ranges: map<bytes, KeyRange>)
    requires LevelsOk(levels)
    ensures Compacted(levels, tables, ranges) ==
            [SstableLevel(0, [], map[], map[]), SstableLevel(1, tables, map[], ranges)]
  {
    var l0, l1 := SstableLevel(0, [], map[], map[]), SstableLevel(1, tables, map[], ranges);
    NoOthers(levels);
    assert Others(levels) + [l0] + [l1] == [l0, l1];
    SortPair(l0, l1);
  }

  ghost function NewRuns(tables: seq<bytes>, chunks: seq<Run>): RunMap
    requires |tables| == |chunks|
  {
    if tables == [] then map[]
    else NewRuns(tables[..|tables| - 1], chunks[..|tables| - 1])[Path(1, tables[|tables| - 1]) := chunks[|tables| - 1]]
  }

  lemma {:induction false} NewRunAt(tables: seq<bytes>, chunks: seq<Run>, i: nat)
    requires i < |tables| == |chunks| && forall j, k :: 0 <= j < k < |tables| ==> tables[j] != tables[k]
    ensures RunAt(NewRuns(tables, chunks), Path(1, tables[i])) == chunks[i]
  {
    if i < |tables| - 1 {
      NewRunAt(tables[..|tables| - 1], chunks[..|tables| - 1], i);
    }
  }

  lemma CompactedTables(levels: Levels, tables: seq<bytes>, ranges: map<bytes, KeyRange>)
    requires LevelsOk(levels)
    ensures TablesAt(Compacted(levels, tables, ranges), 0) == []
    ensures TablesAt(Compacted(levels, tables, ranges), 1) == tables
  {
    var l0, l1 := SstableLevel(0, [], map[], map[]), SstableLevel(1, tables, map[], ranges);
    CompactedIs(levels, tables, ranges);
    TablesAtCons(l0, [l1], 0);
    TablesAtCons(l0, [l1], 1);
    TablesAtCons(l1, [], 1);
    assert [l0, l1] == [l0] + [l1] && [l1] == [l1] + [];
  }

  // Every new table is found behind its name.
  lemma NewTableOk(env: Env, d: DiskState, taken: set<Path>, tables: seq<bytes>, chunks: seq<Run>,
                   ranges: map<bytes, KeyRange>, t: bytes)
    requires AllInPlace(env, d, taken, tables, chunks, ranges) && t in tables
    ensures TableOk(env, d, Path(1, t), RunAt(NewRuns(tables, chunks), Path(1, t))) && IsTableName(t)
    ensures t in ranges && RangeOk(ranges[t], RunAt(NewRuns(tables, chunks), Path(1, t)))
  {
    var i :| 0 <= i < |tables| && t == tables[i];
    NewRunAt(tables, chunks, i);
    assert InPlace(env, d, taken, tables[i], chunks[i]);
  }

  // The new level 1 alone agrees with the files that the merge has put in place.
  lemma PublishAgrees(env: Env, d: DiskState, levels: Levels, taken: set<Path>, tables: seq<bytes>, chunks: seq<Run>,
                      ranges: map<bytes, KeyRange>)
    requires LevelsOk(levels) && AllInPlace(env, d, taken, tables, chunks, ranges)
    ensures FilesAgree(env, d, Compacted(levels, tables, ranges), NewRuns(tables, chunks))
  {
    var levels', runs' := Compacted(levels, tables, ranges), NewRuns(tables, chunks);
    forall t | t in tables
      ensures TableOk(env, d, Path(1, t), RunAt(runs', Path(1, t))) && IsTableName(t)
      ensures t in ranges && RangeOk(ranges[t], RunAt(runs', Path(1, t)))
    {
      NewTableOk(env, d, taken, tables, chunks, ranges, t);
    }
    CompactedIs(levels, tables, ranges);
    CompactedTables(levels, tables, ranges);
    OneLevelAgrees(env, d, levels', tables, ranges, runs');
  }

  lemma OneLevelAgrees(env: Env, d: DiskState, levels: Levels, tables: seq<bytes>, ranges: map<bytes, KeyRange>,
                       runs: RunMap)
    requires levels == [SstableLevel(0, [], map[], map[]), SstableLevel(1, tables, map[], ranges)]
    requires TablesAt(levels, 0) == [] && TablesAt(levels, 1) == tables
    requires forall i, j :: 0 <= i < j < |tables| ==> tables[i] != tables[j]
    requires forall t :: t in tables ==> TableOk(env, d, Path(1, t), RunAt(runs, Path(1, t))) && IsTableName(t)
    requires forall t :: t in tables ==> t in ranges && RangeOk(ranges[t], RunAt(runs, Path(1, t)))
    ensures FilesAgree(env, d, levels, runs)
  {
    assert LevelsOk(levels);
    forall p | Lists(levels, p) ensures TableOk(env, d, p, RunAt(runs, p)) {
      NoHigherLevels(levels, p);
      assert p == Path(1, p.name);
    }
  }

  lemma PublishedRuns(levels: Levels, tables: seq<bytes>, chunks: seq<Run>, ranges: map<bytes, KeyRange>,
                      levels': Levels)
    requires LevelsOk(levels) && SameTables(levels', Compacted(levels, tables, ranges))
    requires |tables| == |chunks| && forall j, k :: 0 <= j < k < |tables| ==> tables[j] != tables[k]
    ensures TablesAt(levels', 0) == [] && TablesAt(levels', 1) == tables
    ensures RunsAt(levels', NewRuns(tables, chunks), 0) == [] && RunsAt(levels', NewRuns(tables, chunks), 1) == chunks
  {
    CompactedTables(levels, tables, ranges);
    SameTablesAt(levels', Compacted(levels, tables, ranges), 0);
    SameTablesAt(levels', Compacted(levels, tables, ranges), 1);
    forall i | 0 <= i < |tables| ensures RunAt(NewRuns(tables, chunks), Path(1, tables[i])) == chunks[i] {
      NewRunAt(tables, chunks, i);
    }
  }

  // What publication leaves on the disk: nothing but a new manifest, or nothing at all.
  ghost predicate OnlyManifest(d: DiskState, d': DiskState) {
    d' == d.(manifest := d'.manifest)
  }

  // The new levels, with their filters, replace the old ones: in the manifest first, then in memory.
  method Publish(store: SstableStore, out: Output, pruned: Levels) returns (err: Option<Error>)
    requires out.Valid() && out.store == store && LevelsOk(pruned)
    modifies store`levels, store`runs, store.disk
    ensures store.Valid() && OnlyManifest(old(store.disk.now), store.disk.now)
    ensures Reported(err, old(store.disk.faults), store.disk.faults)
    ensures err.None? ==>
              && store.Published() && store.disk.seen == old(store.disk.seen) + {store.disk.now}
              && TablesAt(store.levels, 0) == [] && TablesAt(store.levels, 1) == out.newTables
              && RunsAt(store.levels, store.runs, 0) == [] && RunsAt(store.levels, store.runs, 1) == out.chunks
              && AllRanged(store.levels)
    ensures err.Some? ==> unchanged(store)
    ensures err.Some? && store.disk.faults.unsynced == old(store.disk.faults.unsynced) ==>
              store.disk.now == old(store.disk.now) && store.disk.seen == old(store.disk.seen)
  {
    var levels := Compacted(pruned, out.newTables, out.newTableRanges);
    ghost var runs := NewRuns(out.newTables, out.chunks);
    PublishAgrees(store.env, store.disk.now, pruned, out.tables0.Keys, out.newTables, out.chunks, out.newTableRanges);
    CompactedIs(pruned, out.newTables, out.newTableRanges);
    err := PublishLevels(store, levels, runs);
    if err.None? {
      PublishedRuns(pruned, out.newTables, out.chunks, out.newTableRanges, store.levels);
      SameRanged(levels, store.levels);
    }
  }

  method PublishLevels(store: SstableStore, levels: Levels, ghost runs: RunMap) returns (err: Option<Error>)
    requires store.Valid() && FilesAgree(store.env, store.disk.now, levels, runs)
    requires |levels| == 2 && levels[0].level < levels[1].level
    modifies store`levels, store`runs, store.disk
    ensures store.Valid() && OnlyManifest(old(store.disk.now), store.disk.now)
    ensures Reported(err, old(store.disk.faults), store.disk.faults)
    ensures err.None? ==>
              && store.Published() && store.disk.seen == old(store.disk.seen) + {store.disk.now}
              && SameTables(store.levels, levels) && store.runs == runs
    ensures err.Some? ==> unchanged(store)
    ensures err.Some? && store.disk.faults.unsynced == old(store.disk.faults.unsynced) ==>
              store.disk.now == old(store.disk.now) && store.disk.seen == old(store.disk.seen)
  {
    store.FilesOk(levels, runs);
    var loaded := store.LoadFilters(levels, runs);
    assert KeptAll(loaded) == KeptAll(levels);
    SameTablesAgree(store.env, store.disk.now, levels, loaded, runs);
    forall i | 0 <= i < |levels| ensures loaded[i].level == levels[i].level {
      assert Kept(loaded[i]) == Kept(levels[i]);
    }
    err := WriteLevels(store, loaded, runs);
  }

  // The manifest is replaced, and memory with it if that succeeds.
  method WriteLevels(store: SstableStore, levels: Levels, ghost runs: RunMap) returns (err: Option<Error>)
    requires store.Valid() && FilesAgree(store.env, store.disk.now, levels, runs)
    modifies store`levels, store`runs, store.disk
    ensures store.Valid() && OnlyManifest(old(store.disk.now), store.disk.now)
    ensures Reported(err, old(store.disk.faults), store.disk.faults)
    ensures err.None? ==>
              && store.Published() && store.disk.seen == old(store.disk.seen) + {store.disk.now}
              && store.levels == levels && store.runs == runs
    ensures err.Some? ==> unchanged(store)
    ensures err.Some? && store.disk.faults.unsynced == old(store.disk.faults.unsynced) ==>
              store.disk.now == old(store.disk.now) && store.disk.seen == old(store.disk.seen)
  {
    LevelsPrintable(store.env, store.disk.now, levels, runs);
    SortedAlready(levels);
    err := RewriteManifest(store.env, store.disk, levels);
    SameFilesAgree(store.env, old(store.disk.now), store.disk.now, store.levels, store.runs);
    if err.None? {
      SameFilesAgree(store.env, old(store.disk.now), store.disk.now, levels, runs);
      store.Install(levels, runs);
    }
  }

  // ---------- Removal ----------

  // All table files but these are still there, and no table or filter is new.
  ghost predicate OnlyThese(d: DiskState, d': DiskState, level: nat, tables: seq<bytes>) {
    && d'.wal == d.wal && d'.manifest == d.manifest
    && d'.tables.Keys <= d.tables.Keys && d'.sidecars.Keys <= d.sidecars.Keys
    && forall p :: p in d.tables && !(p.level == level && p.name in tables) ==>
         p in d'.tables && d'.tables[p] == d.tables[p]
  }

  ghost predicate Gone(d: DiskState, level: nat, tables: seq<bytes>) {
    forall t :: t in tables ==> Path(level, t) !in d.tables && Path(level, t) !in d.sidecars
  }

  // If the manifest agrees with memory, it goes on to do so, and so does every disk state on the way.
  ghost predicate StaysPublished(store: SstableStore, was: bool, seen: set<DiskState>)
    reads store, store.disk
  {
    was ==>
      store.Published() && Steady(store.env, seen, store.disk.seen, store.disk.now.wal, store.levels, store.runs)
  }

  // Tables that no level lists are removed one by one; a removal that fails is only logged.
  method RemoveTables(store: SstableStore, level: nat, tables: seq<bytes>)
    requires store.Valid() && forall t :: t in tables ==> !Lists(store.levels, Path(level, t))
    modifies store.disk
    ensures store.Valid() && OnlyThese(old(store.disk.now), store.disk.now, level, tables)
    ensures Grew(old(store.disk.faults), store.disk.faults)
    ensures store.disk.faults.unsynced == old(store.disk.faults.unsynced)
    ensures store.disk.faults == old(store.disk.faults) ==> Gone(store.disk.now, level, tables)
    ensures StaysPublished(store, old(store.Published()), old(store.disk.seen))
  {
    for i := 0 to |tables|
      invariant store.Valid() && OnlyThese(old(store.disk.now), store.disk.now, level, tables)
      invariant Grew(old(store.disk.faults), store.disk.faults)
      invariant store.disk.faults.unsynced == old(store.disk.faults.unsynced)
      invariant store.disk.faults == old(store.disk.faults) ==> Gone(store.disk.now, level, tables[..i])
      invariant StaysPublished(store, old(store.Published()), old(store.disk.seen))
    {
      hide SstableStore.Valid, StaysPublished;
      RemoveOne(store, level, tables[i], old(store.disk.seen), old(store.Published()));
      assert tables[..i + 1] == tables[..i] + [tables[i]];
    }
    assert tables[..|tables|] == tables;
  }

  method RemoveOne(store: SstableStore, level: nat, table: bytes, ghost seen0: set<DiskState>, ghost was: bool)
    requires store.Valid() && !Lists(store.levels, Path(level, table)) && StaysPublished(store, was, seen0)
    modifies store.disk
    ensures store.Valid() && OnlyThese(old(store.disk.now), store.disk.now, level, [table])
    ensures Grew(old(store.disk.faults), store.disk.faults)
    ensures store.disk.faults.unsynced == old(store.disk.faults.unsynced)
    ensures store.disk.faults == old(store.disk.faults) ==> Gone(store.disk.now, level, [table])
    ensures StaysPublished(store, was, seen0)
  {
    var p := Path(level, table);
    ghost var before, seen := store.disk.now, store.disk.seen;
    RemoveSSTableAndBloom(store.disk, p);
    UnlistedFiles(store.env, seen, store.disk.seen, before, store.disk.now, store.levels, store.runs, p);
  }

  // ---------- The whole compaction ----------

  // All listed tables become sources of the merge, level 0 first.
  method Gather(store: SstableStore, m: Merger, l0Tables: seq<bytes>, l1Tables: seq<bytes>,
                ghost runs0: seq<Run>, ghost runs1: seq<Run>)
    returns (err: Option<Error>)
    requires store.Valid() && m.Valid() && m.sources == [] && m.l0 == 0
    requires l0Tables == TablesAt(store.levels, 0) && l1Tables == TablesAt(store.levels, 1)
    requires runs0 == RunsAt(store.levels, store.runs, 0) && runs1 == RunsAt(store.levels, store.runs, 1)
    modifies m, m.h, store.disk`faults
    ensures Reported(err, old(store.disk.faults), store.disk.faults)
    ensures store.disk.faults.unsynced == old(store.disk.faults.unsynced)
    ensures forall r :: r in m.readers ==> r in old(m.readers) || fresh(r)
    ensures err.None? ==> m.Valid() && FromLevels(m.sources, m.l0, runs0, runs1)
  {
    LevelPresent(store, 0);
    LevelPresent(store, 1);
    hide SstableStore.Valid, PresentRuns, TableOk, FromLevels;
    err := AddTables(store, m, 0, l0Tables, store.runs);
    if err.None? {
      ghost var before := m.sources;
      err := AddTables(store, m, 1, l1Tables, store.runs);
      if err.None? {
        TwoLevels(before, m.sources, runs0, runs1);
      }
    }
  }

  // Listed tables are all there.
  lemma LevelPresent(store: SstableStore, level: nat)
    requires store.Valid()
    ensures var tables := TablesAt(store.levels, level);
            && (forall t :: t in tables ==>
                 TableOk(store.env, store.disk.now, Path(level, t), RunAt(store.runs, Path(level, t))))
            && PresentRuns(store.runs, level, tables, store.disk.now.tables) == RunsAt(store.levels, store.runs, level)
  {
    var tables := TablesAt(store.levels, level);
    forall t | t in tables
      ensures TableOk(store.env, store.disk.now, Path(level, t), RunAt(store.runs, Path(level, t)))
    {
      assert Lists(store.levels, Path(level, t));
    }
    AllPresent(level, tables, store.disk.now.tables);
  }

  // The sources of a merge: the non-empty tables of level 0, then those of level 1.
  ghost predicate FromLevels(sources: Sources, l0: nat, runs0: seq<Run>, runs1: seq<Run>) {
    sources == NonEmpty(runs0) + NonEmpty(runs1) && l0 == |NonEmpty(runs0)|
  }

  lemma TwoLevels(before: Sources, after: Sources, runs0: seq<Run>, runs1: seq<Run>)
    requires Added([], before, runs0) && Added(before, after, runs1)
    ensures FromLevels(after, |before|, runs0, runs1)
  {
    assert before == NonEmpty(runs0);
  }

  lemma SourcesClean(store: SstableStore, sources: Sources, l0: nat, runs0: seq<Run>, runs1: seq<Run>)
    requires store.Valid() && FromLevels(sources, l0, runs0, runs1)
    requires runs0 == RunsAt(store.levels, store.runs, 0) && runs1 == RunsAt(store.levels, store.runs, 1)
    ensures AllClean(sources)
  {
    NonEmptyClean(runs0);
    NonEmptyClean(runs1);
  }

  lemma {:induction false} NonEmptyClean(runs: seq<Run>)
    requires AllClean(runs)
    ensures AllClean(NonEmpty(runs))
  {
    if runs != [] {
      NonEmptyClean(runs[..|runs| - 1]);
    }
  }

  // The merger over all listed tables, ready to give its least entry.
  method OpenSources(store: SstableStore, l0Tables: seq<bytes>, l1Tables: seq<bytes>,
                     ghost runs0: seq<Run>, ghost runs1: seq<Run>)
    returns (err: Option<Error>, m: Merger)
    requires store.Valid()
    requires l0Tables == TablesAt(store.levels, 0) && l1Tables == TablesAt(store.levels, 1)
    requires runs0 == RunsAt(store.levels, store.runs, 0) && runs1 == RunsAt(store.levels, store.runs, 1)
    modifies store.disk`faults
    ensures Reported(err, old(store.disk.faults), store.disk.faults)
    ensures store.disk.faults.unsynced == old(store.disk.faults.unsynced)
    ensures fresh(m) && fresh(m.h) && fresh(m.readers)
    ensures err.None? ==> m.Valid() && AllClean(m.sources) && FromLevels(m.sources, m.l0, runs0, runs1)
  {
    m := new Merger();
    err := Gather(store, m, l0Tables, l1Tables, runs0, runs1);
    forall i | 0 <= i < |m.readers| ensures fresh(m.readers[i]) { assert m.readers[i] in m.readers; }
    if err.None? {
      m.Begin();
      SourcesClean(store, m.sources, m.l0, runs0, runs1);
    }
  }

  // The merge: either all new tables are in place, or an error leaves some of them.
  method MergeSources(out: Output, m: Merger, ghost runs0: seq<Run>, ghost runs1: seq<Run>) returns (err: Option<Error>)
    requires out.Open() && out.Emitted() == [] && m.Valid() && AllClean(m.sources)
    requires FromLevels(m.sources, m.l0, runs0, runs1)
    modifies out, out.store.disk, m, m.h, m.readers
    ensures out.Valid() && (err.Some? ==> out.Failed())
    ensures err.None? ==> Machine.Compacts(out.chunks, runs0, runs1)
  {
    ghost var sources, l0 := m.sources, m.l0;
    err := MergeAll(out, m);
    if err.None? {
      MergeCompacts(out.chunks, sources, l0, runs0, runs1);
    }
  }

  lemma MergeCompacts(chunks: seq<Run>, sources: Sources, l0: nat, runs0: seq<Run>, runs1: seq<Run>)
    requires FromLevels(sources, l0, runs0, runs1)
    requires Sorted(Flatten(chunks)) && Sizes(chunks, 1)
    requires forall k :: Lookup(Flatten(chunks), k) == SourceLookup(sources, l0, k)
    requires forall i :: 0 <= i < |chunks| - 1 ==> |chunks[i]| == FLUSH_THRESHOLD
    ensures Machine.Compacts(chunks, runs0, runs1)
  {
    forall k ensures Lookup(Flatten(chunks), k) == StoreLookup(runs0, runs1, k) {
      SourcesAnswer(sources, runs0, runs1, k);
    }
  }

  // Level 0 is empty, and level 1 has tables under new names only.
  ghost predicate Renamed(levels: Levels, before: Levels) {
    TablesAt(levels, 0) == [] && forall t :: t in TablesAt(levels, 1) ==> t !in TablesAt(before, 1)
  }

  // Success: level 0 is empty and level 1 holds everything, in full tables with recorded ranges.
  ghost predicate Merged(levels: Levels, runs: RunMap, runs0: seq<Run>, runs1: seq<Run>) {
    && RunsAt(levels, runs, 0) == [] && Machine.Compacts(RunsAt(levels, runs, 1), runs0, runs1)
    && AllRanged(levels)
  }

  // compactSSTables.
  method CompactSSTables(store: SstableStore) returns (err: Option<Error>)
    requires store.Valid()
    modifies store`levels, store`runs, store.disk
    ensures store.Valid() && store.disk.now.wal == old(store.disk.now.wal)
    ensures Reported(err, old(store.disk.faults), store.disk.faults)
    // an error leaves the levels, their runs and every table file as they were
    ensures err.Some? ==> store.levels == old(store.levels) && store.runs == old(store.runs)
    ensures err.Some? ==> StillThere(old(store.disk.now.tables), store.disk.now.tables)
    // success moves everything to level 1, and what was merged is gone if nothing fails
    ensures err.None? ==> store.Published()
    ensures err.None? && |old(TablesAt(store.levels, 0))| >= 2 ==>
              && Renamed(store.levels, old(store.levels))
              && Merged(store.levels, store.runs, old(RunsAt(store.levels, store.runs, 0)),
                        old(RunsAt(store.levels, store.runs, 1)))
    ensures store.disk.faults == old(store.disk.faults) && |old(TablesAt(store.levels, 0))| >= 2 ==>
              && Gone(store.disk.now, 0, old(TablesAt(store.levels, 0)))
              && Gone(store.disk.now, 1, old(TablesAt(store.levels, 1)))
    ensures err.None? && |old(TablesAt(store.levels, 0))| < 2 ==>
              SameTables(store.levels, old(store.levels)) && store.runs == old(store.runs)
    // unless a manifest was left unsynced, a crash finds the levels before or after
    ensures old(store.Published()) && store.disk.faults.unsynced == old(store.disk.faults.unsynced) ==>
              && store.Published()
              && CrashSafe(store.env, old(store.disk.seen), store.disk.seen, store.disk.now.wal,
                           old(store.levels), old(store.runs), store.levels, store.runs)
  {
    var pruned := store.Refreshed(store.levels, store.runs);
    SameTablesAt(pruned, store.levels, 0);
    SameTablesAt(pruned, store.levels, 1);
    if |TablesAt(pruned, 0)| < 2 {
      err := WriteLevels(store, pruned, store.runs);
    } else {
      err := MergeAndPublish(store, pruned);
    }
  }

  method MergeAndPublish(store: SstableStore, pruned: Levels) returns (err: Option<Error>)
    requires store.Valid() && SameTables(pruned, store.levels) && LevelsOk(pruned)
    requires TablesAt(pruned, 0) == TablesAt(store.levels, 0) && TablesAt(pruned, 1) == TablesAt(store.levels, 1)
    modifies store`levels, store`runs, store.disk
    ensures store.Valid() && store.disk.now.wal == old(store.disk.now.wal)
    ensures Reported(err, old(store.disk.faults), store.disk.faults)
    ensures err.Some? ==> store.levels == old(store.levels) && store.runs == old(store.runs)
    ensures err.Some? ==> StillThere(old(store.disk.now.tables), store.disk.now.tables)
    ensures err.None? ==> store.Published()
    ensures err.None? ==>
              && Renamed(store.levels, old(store.levels))
              && Merged(store.levels, store.runs, old(RunsAt(store.levels, store.runs, 0)),
                        old(RunsAt(store.levels, store.runs, 1)))
    ensures store.disk.faults == old(store.disk.faults) ==>
              && Gone(store.disk.now, 0, old(TablesAt(store.levels, 0)))
              && Gone(store.disk.now, 1, old(TablesAt(store.levels, 1)))
    ensures old(store.Published()) && store.disk.faults.unsynced == old(store.disk.faults.unsynced) ==>
              && store.Published()
              && CrashSafe(store.env, old(store.disk.seen), store.disk.seen, store.disk.now.wal,
                           old(store.levels), old(store.runs), store.levels, store.runs)
  {
    var l0Tables, l1Tables := TablesAt(pruned, 0), TablesAt(pruned, 1);
    ghost var runs0, runs1 := RunsAt(store.levels, store.runs, 0), RunsAt(store.levels, store.runs, 1);
    var m;
    err, m := OpenSources(store, l0Tables, l1Tables, runs0, runs1);
    if err.None? {
      ListedAreThere(store);
      var next := GetNextSSTableIndex(l1Tables);
      var out := new Output(store, next);
      err := MergeAndConclude(store, out, m, pruned, runs0, runs1);
    }
  }

  // What a compaction promises from the moment its output is set up.
  ghost predicate Done(store: SstableStore, out: Output, err: Option<Error>, before: Levels, runs: RunMap)
    reads store, store.disk
  {
    && store.Valid() && store.disk.now.wal == out.wal0 && Grew(out.faults0, store.disk.faults)
    && (err.Some? ==> store.disk.faults.failed > out.faults0.failed)
    && (err.Some? ==> store.levels == before && store.runs == runs && StillThere(out.tables0, store.disk.now.tables))
    && (err.None? ==> store.Published() && AllRanged(store.levels) && Renamed(store.levels, before))
    && (store.disk.faults == out.faults0 ==>
         Gone(store.disk.now, 0, TablesAt(before, 0)) && Gone(store.disk.now, 1, TablesAt(before, 1)))
    && (out.published0 && store.disk.faults.unsynced == out.faults0.unsynced ==>
         && store.Published()
         && CrashSafe(store.env, out.seen0, store.disk.seen, out.wal0, before, runs, store.levels, store.runs))
  }

  method MergeAndConclude(store: SstableStore, out: Output, m: Merger, pruned: Levels,
                          ghost runs0: seq<Run>, ghost runs1: seq<Run>)
    returns (err: Option<Error>)
    requires out.Open() && out.Emitted() == [] && out.store == store && LevelsOk(pruned)
    requires TablesAt(pruned, 0) == TablesAt(store.levels, 0) && TablesAt(pruned, 1) == TablesAt(store.levels, 1)
    requires forall p :: Lists(store.levels, p) ==> p in out.tables0
    requires m.Valid() && AllClean(m.sources) && FromLevels(m.sources, m.l0, runs0, runs1)
    modifies out, store`levels, store`runs, store.disk, m, m.h, m.readers
    ensures Done(store, out, err, old(store.levels), old(store.runs))
    ensures err.None? ==> Merged(store.levels, store.runs, runs0, runs1)
  {
    hide Output.Open, AllClean, FromLevels, Machine.Compacts, Done;
    err := MergeSources(out, m, runs0, runs1);
    if err.Some? {
      Discard(store, out);
      DoneOnError(store, out, err);
    } else {
      err := Conclude(store, out, pruned);
    }
  }

  lemma DoneOnError(store: SstableStore, out: Output, err: Option<Error>)
    requires out.StoreOk() && out.Safe() && out.Failed() && err.Some? && out.store == store
    ensures Done(store, out, err, store.levels, store.runs)
  {}

  // Publication, and the removal of whatever is no longer listed.
  method Conclude(store: SstableStore, out: Output, pruned: Levels) returns (err: Option<Error>)
    requires out.Valid() && out.store == store && LevelsOk(pruned)
    requires TablesAt(pruned, 0) == TablesAt(store.levels, 0) && TablesAt(pruned, 1) == TablesAt(store.levels, 1)
    requires forall p :: Lists(store.levels, p) ==> p in out.tables0
    modifies store`levels, store`runs, store.disk
    ensures Done(store, out, err, old(store.levels), old(store.runs))
    ensures err.None? ==> RunsAt(store.levels, store.runs, 0) == [] && RunsAt(store.levels, store.runs, 1) == out.chunks
  {
    ghost var seen1 := store.disk.seen;
    err := Publish(store, out, pruned);
    if err.Some? {
      Discard(store, out);
    } else {
      ghost var seen2, now2 := store.disk.seen, store.disk.now;
      RemoveSources(store, out, TablesAt(pruned, 0), TablesAt(pruned, 1));
      if out.published0 {
        PublishedSafely(store.env, out.seen0, seen1, seen2, store.disk.seen, now2, now2.wal,
                        old(store.levels), old(store.runs), store.levels, store.runs);
      }
    }
  }

  lemma ListedAreThere(store: SstableStore)
    requires store.Valid()
    ensures forall p :: Lists(store.levels, p) ==> p in store.disk.now.tables
  {
    forall p | Lists(store.levels, p) ensures p in store.disk.now.tables {
      assert TableOk(store.env, store.disk.now, p, RunAt(store.runs, p));
    }
  }

  // The cleanup of a compaction that was not published removes only tables it created itself.
  method Discard(store: SstableStore, out: Output)
    requires out.StoreOk() && out.store == store
    requires forall t :: t in out.newTables ==> Path(1, t) !in out.tables0 && !Lists(store.levels, Path(1, t))
    modifies store.disk
    ensures out.StoreOk() && (old(out.Safe()) ==> out.Safe()) && (old(out.Failed()) ==> out.Failed())
    ensures store.disk.faults.unsynced == old(store.disk.faults.unsynced)
    ensures OnlyThese(old(store.disk.now), store.disk.now, 1, out.newTables)
    ensures store.disk.faults == old(store.disk.faults) ==> Gone(store.disk.now, 1, out.newTables)
  {
    RemoveTables(store, 1, out.newTables);
  }

  // After publication the tables that were merged go.
  method RemoveSources(store: SstableStore, out: Output, l0Tables: seq<bytes>, l1Tables: seq<bytes>)
    requires store.Valid() && TablesAt(store.levels, 0) == [] && TablesAt(store.levels, 1) == out.newTables
    requires forall t :: t in out.newTables ==> t !in l1Tables
    modifies store.disk
    ensures store.Valid() && store.disk.now.wal == old(store.disk.now.wal)
    ensures Grew(old(store.disk.faults), store.disk.faults)
    ensures store.disk.faults.unsynced == old(store.disk.faults.unsynced)
    ensures store.disk.faults == old(store.disk.faults) ==>
              Gone(store.disk.now, 0, l0Tables) && Gone(store.disk.now, 1, l1Tables)
    ensures StaysPublished(store, old(store.Published()), old(store.disk.seen))
  {
    RemoveTables(store, 0, l0Tables);
    RemoveTables(store, 1, l1Tables);
  }
}
