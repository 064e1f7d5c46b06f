// What the store's memory and disk have to agree on.

module StoreState {
  import opened Base
  import opened Lsm
  import opened Tables
  import opened TableFiles
  import opened Naming
  import opened Manifests
  import opened Disks
  import Bloom
  import Wals

  type Levels = seq<SstableLevel>

  // ---------- Levels ----------

  function TablesAt(levels: Levels, level: nat): seq<bytes> {
    if levels == [] then [] else if levels[0].level == level then levels[0].tables else TablesAt(levels[1..], level)
  }

  ghost predicate Lists(levels: Levels, p: Path) {
    p.name in TablesAt(levels, p.level)
  }

  ghost predicate IsTableName(t: bytes) {
    exists n :: n >= 1 && t == TableName(n)
  }

  // At most levels 0 and 1, in order; level 0 is numbered from 1 on without gaps.
  ghost predicate LevelsOk(levels: Levels) {
    && |levels| <= 2
    && (|levels| == 2 ==> levels[0].level == 0 && levels[1].level == 1)
    && (|levels| == 1 ==> levels[0].level <= 1)
    && (forall i :: 0 <= i < |TablesAt(levels, 0)| ==> TablesAt(levels, 0)[i] == TableName(i + 1))
    && (forall i, j :: 0 <= i < j < |TablesAt(levels, 1)| ==> TablesAt(levels, 1)[i] != TablesAt(levels, 1)[j])
    && (forall t :: t in TablesAt(levels, 1) ==> IsTableName(t))
  }

  // ---------- Runs behind the tables ----------

  type RunMap = map<Path, Run>

  ghost function RunAt(runs: RunMap, p: Path): Run {
    if p in runs then runs[p] else []
  }

  ghost function RunsOf(runs: RunMap, level: nat, tables: seq<bytes>): (r: seq<Run>)
    ensures |r| == |tables|
  {
    seq(|tables|, i requires 0 <= i < |tables| => RunAt(runs, Path(level, tables[i])))
  }

  ghost function RunsAt(levels: Levels, runs: RunMap, level: nat): seq<Run> {
    RunsOf(runs, level, TablesAt(levels, level))
  }

  ghost predicate SidecarOk(env: Env, d: DiskState, p: Path, run: Run) {
    p in d.sidecars && Bloom.DecodeSidecar(env.crc64, d.sidecars[p]).Ok? ==>
      Bloom.Covers(env.hash, Bloom.DecodeSidecar(env.crc64, d.sidecars[p]).value, run)
  }

  // The file holds the run, and its filter, if it can be read, covers it.
  ghost predicate TableOk(env: Env, d: DiskState, p: Path, run: Run) {
    && p in d.tables && Encodes(env.crc64, d.tables[p], run) && Writable(run) && NormalRun(run) == run
    && SidecarOk(env, d, p, run)
  }

  ghost predicate RangeOk(range: KeyRange, run: Run) {
    run != [] && range.min == run[0].K && range.max == run[|run| - 1].K
  }

  // What memory holds to prune lookups: ranges are the exact first and last keys, filters have no false negatives.
  ghost predicate PruningOk(env: Env, l: SstableLevel, runs: RunMap) {
    && (forall t :: t in l.tables && Ranged(l, t) ==> RangeOk(l.keyRanges[t], RunAt(runs, Path(l.level, t))))
    && FiltersOk(env, l, runs)
  }

  ghost predicate FiltersOk(env: Env, l: SstableLevel, runs: RunMap) {
    forall t :: t in l.bloomFilters ==>
      t in l.tables && Bloom.Covers(env.hash, l.bloomFilters[t], RunAt(runs, Path(l.level, t)))
  }

  ghost predicate ManifestOk(env: Env, d: DiskState, levels: Levels) {
    if d.manifest.None? then levels == [] else ParseManifest(env.quoting, d.manifest.value) == Ok(KeptAll(levels))
  }

  // The disk names these levels, in order and with these ranges, and holds these runs for them.
  ghost predicate DiskAgrees(env: Env, d: DiskState, levels: Levels, runs: RunMap) {
    FilesAgree(env, d, levels, runs) && ManifestOk(env, d, levels)
  }

  ghost predicate FilesAgree(env: Env, d: DiskState, levels: Levels, runs: RunMap) {
    && LevelsOk(levels)
    && (forall p :: Lists(levels, p) ==> TableOk(env, d, p, RunAt(runs, p)))
    && (forall i :: 0 <= i < |levels| ==> PruningOk(env, levels[i], runs))
  }

  // A key outside the range of a table's first and last key is not in the table.
  lemma OutOfRange(range: KeyRange, run: Run, key: bytes)
    requires Sorted(run) && RangeOk(range, run)
    requires Less(key, range.min) || Less(range.max, key)
    ensures Lookup(run, key) == None
  {
    forall i | 0 <= i < |run| ensures run[i].K != key {
      LessIrreflexive(key);
      if Less(key, range.min) && i > 0 {
        LessTransitive(key, run[0].K, run[i].K);
      }
      if Less(range.max, key) && i < |run| - 1 {
        LessTransitive(run[i].K, run[|run| - 1].K, key);
      }
    }
    LookupMiss(run, key);
  }

  // l1TableMayContain, for a table with or without a recorded range.
  function MayContain(key: bytes, ranges: map<bytes, KeyRange>, table: bytes): bool {
    table !in ranges || (!Less(key, ranges[table].min) && !Less(ranges[table].max, key))
  }

  function FindLevel(levels: Levels, level: nat): Option<SstableLevel> {
    if levels == [] then None else if levels[0].level == level then Some(levels[0]) else FindLevel(levels[1..], level)
  }

  lemma {:induction false} FoundLevel(levels: Levels, level: nat)
    ensures TablesAt(levels, level) ==
            if FindLevel(levels, level).Some? then FindLevel(levels, level).value.tables else []
    ensures FindLevel(levels, level).Some? ==>
              FindLevel(levels, level).value in levels && FindLevel(levels, level).value.level == level
  {
    if levels != [] && levels[0].level != level {
      FoundLevel(levels[1..], level);
    }
  }

  // The same levels with the same tables and recorded ranges; only the filters may differ.
  ghost predicate SameTables(a: Levels, b: Levels) {
    KeptAll(a) == KeptAll(b)
  }

  lemma {:induction false} SameTablesAt(a: Levels, b: Levels, level: nat)
    requires SameTables(a, b)
    ensures TablesAt(a, level) == TablesAt(b, level)
  {
    if a != [] {
      assert KeptAll(a)[0] == KeptAll(b)[0];
      assert KeptAll(a[1..]) == KeptAll(a)[1..] && KeptAll(b[1..]) == KeptAll(b)[1..];
      SameTablesAt(a[1..], b[1..], level);
    } else {
      assert |KeptAll(b)| == 0;
    }
  }

  // Levels that name the same tables and ranges agree with the files if the others do and their filters are sound.
  lemma SameTablesAgree(env: Env, d: DiskState, a: Levels, b: Levels, runs: RunMap)
    requires FilesAgree(env, d, a, runs) && SameTables(a, b)
    requires forall i :: 0 <= i < |b| ==> FiltersOk(env, b[i], runs)
    ensures FilesAgree(env, d, b, runs)
  {
    assert |KeptAll(a)| == |KeptAll(b)|;
    forall i | 0 <= i < |b| ensures PruningOk(env, b[i], runs) && b[i].level == a[i].level {
      assert KeptAll(a)[i] == KeptAll(b)[i] && PruningOk(env, a[i], runs);
      SameRanges(a[i], b[i]);
    }
    SameTablesAt(a, b, 0);
    SameTablesAt(a, b, 1);
    forall p | Lists(b, p) ensures TableOk(env, d, p, RunAt(runs, p)) {
      SameTablesAt(a, b, p.level);
      assert Lists(a, p);
    }
  }

  lemma SameRanges(l: SstableLevel, l': SstableLevel)
    requires Kept(l) == Kept(l')
    ensures l.level == l'.level && l.tables == l'.tables
    ensures forall t :: t in l.tables ==>
              (Ranged(l, t) <==> Ranged(l', t)) && (Ranged(l, t) ==> l.keyRanges[t] == l'.keyRanges[t])
  {
    assert l.tables[..|l.tables|] == l.tables && l'.tables[..|l'.tables|] == l'.tables;
    forall t | t in l.tables
      ensures (Ranged(l, t) <==> Ranged(l', t)) && (Ranged(l, t) ==> l.keyRanges[t] == l'.keyRanges[t])
    {
      assert Ranged(l, t) <==> t in Kept(l).keyRanges;
      assert Ranged(l', t) <==> t in Kept(l').keyRanges;
    }
  }

  // Every table of level 1 has its range recorded.
  ghost predicate AllRanged(levels: Levels) {
    forall i, t :: 0 <= i < |levels| && levels[i].level == 1 && t in levels[i].tables ==> Ranged(levels[i], t)
  }

  lemma SameRanged(a: Levels, b: Levels)
    requires SameTables(a, b) && AllRanged(a)
    ensures AllRanged(b)
  {
    assert |KeptAll(a)| == |KeptAll(b)|;
    forall i | 0 <= i < |b| && b[i].level == 1 ensures forall t :: t in b[i].tables ==> Ranged(b[i], t) {
      assert KeptAll(a)[i] == KeptAll(b)[i];
      SameRanges(a[i], b[i]);
    }
  }

  // The recorded ranges of a compacted level 1 are the exact first and last keys, disjoint and ascending.
  lemma RangesAscend(env: Env, levels: Levels, runs: RunMap, n: nat, i: nat, j: nat)
    requires LevelsOk(levels) && n < |levels| && levels[n].level == 1 && i < j < |levels[n].tables|
    requires AllRanged(levels) && PruningOk(env, levels[n], runs) && Sorted(Flatten(RunsAt(levels, runs, 1)))
    ensures var l, chunks := levels[n], RunsAt(levels, runs, 1);
            && Ranged(l, l.tables[i]) && Ranged(l, l.tables[j])
            && |chunks| == |l.tables| && chunks[i] != []
            && l.keyRanges[l.tables[i]] == KeyRange(chunks[i][0].K, chunks[i][|chunks[i]| - 1].K)
            && Less(l.keyRanges[l.tables[i]].max, l.keyRanges[l.tables[j]].min)
  {
    var l := levels[n];
    TablesOfLevel(levels, n);
    assert l.tables[i] in l.tables && l.tables[j] in l.tables;
    PiecesAscend(RunsAt(levels, runs, 1), i, j);
  }

  // Keeping twice is keeping once, so the levels read back from a manifest are the ones that were written.
  lemma KeptAllTwice(levels: Levels)
    ensures SameTables(KeptAll(levels), levels)
  {
    forall i | 0 <= i < |levels| ensures Kept(Kept(levels[i])) == Kept(levels[i]) {}
    assert KeptAll(KeptAll(levels)) == KeptAll(levels);
  }

  lemma KeptLevelsOk(levels: Levels, kept: Levels)
    requires LevelsOk(levels) && SameTables(kept, levels)
    ensures LevelsOk(kept)
  {
    assert |KeptAll(kept)| == |KeptAll(levels)|;
    forall i | 0 <= i < |kept| ensures kept[i].level == levels[i].level {
      assert KeptAll(kept)[i] == KeptAll(levels)[i];
    }
    SameTablesAt(kept, levels, 0);
    SameTablesAt(kept, levels, 1);
  }

  // A level's tables are the ones found under its number.
  lemma TablesOfLevel(levels: Levels, i: nat)
    requires LevelsOk(levels) && i < |levels|
    ensures TablesAt(levels, levels[i].level) == levels[i].tables
    ensures forall t :: t in levels[i].tables ==> Lists(levels, Path(levels[i].level, t))
  {
    if i == 1 {
      assert levels[1..][0] == levels[1];
    }
  }

  // The tables whose file is there, in order.
  function Present(level: nat, tables: seq<bytes>, files: map<Path, bytes>): seq<bytes> {
    if tables == [] then []
    else
      var init, last := Present(level, tables[..|tables| - 1], files), tables[|tables| - 1];
      if Path(level, last) in files then init + [last] else init
  }

  lemma {:induction false} AllPresent(level: nat, tables: seq<bytes>, files: map<Path, bytes>)
    requires forall t :: t in tables ==> Path(level, t) in files
    ensures Present(level, tables, files) == tables
  {
    if tables != [] {
      AllPresent(level, tables[..|tables| - 1], files);
    }
  }

  // ---------- Changing the levels ----------

  // Adds a table to a level, or a level for it.
  function WithTable(levels: Levels, level: nat, table: bytes): Levels {
    if levels == [] then [SstableLevel(level, [table], map[], map[])]
    else if levels[0].level == level then [levels[0].(tables := levels[0].tables + [table])] + levels[1..]
    else [levels[0]] + WithTable(levels[1..], level, table)
  }

  function InsertByLevel(levels: Levels, l: SstableLevel): Levels {
    if levels == [] || l.level < levels[0].level then [l] + levels else [levels[0]] + InsertByLevel(levels[1..], l)
  }

  // sort.Slice by level number
  function SortByLevel(levels: Levels): Levels {
    if levels == [] then [] else InsertByLevel(SortByLevel(levels[..|levels| - 1]), levels[|levels| - 1])
  }

  lemma SortPair(a: SstableLevel, b: SstableLevel)
    requires a.level != b.level
    ensures SortByLevel([a]) == [a]
    ensures SortByLevel([a, b]) == if a.level < b.level then [a, b] else [b, a]
  {
    assert [a][..0] == [] && [a, b][..1] == [a];
    assert SortByLevel([a]) == InsertByLevel([], a);
    assert InsertByLevel([a], b) == if b.level < a.level then [b] + [a] else [a] + InsertByLevel([], b);
  }

  lemma SortedAlready(levels: Levels)
    requires |levels| <= 2 && (|levels| == 2 ==> levels[0].level < levels[1].level)
    ensures SortByLevel(levels) == levels
  {
    if |levels| == 2 {
      SortPair(levels[0], levels[1]);
      assert levels == [levels[0], levels[1]];
    } else if |levels| == 1 {
      assert levels == [levels[0]] && levels[..0] == [];
    }
  }

  // The levels after a flush has added a table to level 0.
  function Flushed(levels: Levels, table: bytes): Levels {
    SortByLevel(WithTable(levels, 0, table))
  }

  lemma FlushedIs(levels: Levels, table: bytes)
    requires |levels| <= 2 && (|levels| == 2 ==> levels[0].level == 0 && levels[1].level == 1)
    requires |levels| == 1 ==> levels[0].level <= 1
    ensures Flushed(levels, table) ==
            if levels == [] || levels[0].level == 1 then [SstableLevel(0, [table], map[], map[])] + levels
            else [levels[0].(tables := levels[0].tables + [table])] + levels[1..]
  {
    var added := WithTable(levels, 0, table);
    if levels == [] || levels[0].level == 0 {
      SortedAlready(added);
    } else {
      var l := SstableLevel(0, [table], map[], map[]);
      assert levels[1..] == [];
      assert WithTable(levels[1..], 0, table) == [l];
      assert added == [levels[0], l];
      SortPair(levels[0], l);
    }
  }

  lemma TablesAtCons(l: SstableLevel, rest: Levels, level: nat)
    ensures TablesAt([l] + rest, level) == if l.level == level then l.tables else TablesAt(rest, level)
  {
    assert ([l] + rest)[1..] == rest;
  }

  lemma FlushedShape(levels: Levels, table: bytes)
    requires LevelsOk(levels) && table == TableName(|TablesAt(levels, 0)| + 1)
    ensures TablesAt(Flushed(levels, table), 0) == TablesAt(levels, 0) + [table]
    ensures TablesAt(Flushed(levels, table), 1) == TablesAt(levels, 1)
    ensures LevelsOk(Flushed(levels, table))
  {
    FlushedIs(levels, table);
    if levels == [] || levels[0].level == 1 {
      var l := SstableLevel(0, [table], map[], map[]);
      TablesAtCons(l, levels, 0);
      TablesAtCons(l, levels, 1);
      assert levels != [] ==> levels[1..] == [] && TablesAt(levels, 0) == [];
    } else {
      var l := levels[0].(tables := levels[0].tables + [table]);
      TablesAtCons(l, levels[1..], 0);
      TablesAtCons(l, levels[1..], 1);
    }
  }

  lemma KeptAllCons(l: SstableLevel, rest: Levels)
    ensures KeptAll([l] + rest) == [Kept(l)] + KeptAll(rest)
  {}

  // Adding the table to what the manifest says and to what memory says names the same tables.
  lemma FlushedSame(a: Levels, b: Levels, table: bytes)
    requires LevelsOk(a) && LevelsOk(b) && SameTables(a, b)
    ensures SameTables(Flushed(a, table), Flushed(b, table))
  {
    hide Flushed, IsTableName;
    FlushedIs(a, table);
    FlushedIs(b, table);
    assert |KeptAll(a)| == |KeptAll(b)|;
    if a != [] {
      assert KeptAll(a)[0] == KeptAll(b)[0];
      assert a == [a[0]] + a[1..] && b == [b[0]] + b[1..];
      KeptAllCons(a[0], a[1..]);
      KeptAllCons(b[0], b[1..]);
    }
    if a == [] || a[0].level == 1 {
      KeptAllCons(SstableLevel(0, [table], map[], map[]), a);
      KeptAllCons(SstableLevel(0, [table], map[], map[]), b);
    } else {
      var la, lb := a[0].(tables := a[0].tables + [table]), b[0].(tables := b[0].tables + [table]);
      KeptAllCons(la, a[1..]);
      KeptAllCons(lb, b[1..]);
    }
  }

  // ---------- Publishing a flushed table ----------

  lemma NewNameIsNew(levels: Levels)
    requires LevelsOk(levels)
    ensures !Lists(levels, Path(0, TableName(|TablesAt(levels, 0)| + 1)))
  {
    var n := |TablesAt(levels, 0)|;
    forall i | 0 <= i < n ensures TablesAt(levels, 0)[i] != TableName(n + 1) {
      if TableName(i + 1) == TableName(n + 1) {
        NamesDiffer(i + 1, n + 1);
      }
    }
  }

  // A level keeps its pruning data while tables are added to it, as long as the old ones hold the same runs.
  lemma PruningExtended(env: Env, l: SstableLevel, l': SstableLevel, runs: RunMap, runs': RunMap)
    requires PruningOk(env, l, runs) && l'.level == l.level && l'.bloomFilters == l.bloomFilters
    requires (l.level != 0 ==> l' == l)
    requires forall t :: t in l.tables ==>
               t in l'.tables && RunAt(runs', Path(l.level, t)) == RunAt(runs, Path(l.level, t))
    ensures PruningOk(env, l', runs')
  {}

  lemma NothingToPrune(env: Env, l: SstableLevel, runs: RunMap)
    requires l.bloomFilters == map[] && l.keyRanges == map[]
    ensures PruningOk(env, l, runs)
  {}

  lemma FlushedPruning(env: Env, levels: Levels, runs: RunMap, name: bytes, run: Run, i: nat)
    requires LevelsOk(levels) && name == TableName(|TablesAt(levels, 0)| + 1)
    requires forall j :: 0 <= j < |levels| ==> PruningOk(env, levels[j], runs)
    requires i < |Flushed(levels, name)|
    ensures PruningOk(env, Flushed(levels, name)[i], runs[Path(0, name) := run])
  {
    hide PruningOk, IsTableName, Flushed;
    var levels', runs' := Flushed(levels, name), runs[Path(0, name) := run];
    FlushedIs(levels, name);
    NewNameIsNew(levels);
    var j := if levels == [] || levels[0].level == 1 then i - 1 else i;
    if j >= 0 {
      TablesOfLevel(levels, j);
      PruningExtended(env, levels[j], levels'[i], runs, runs');
    } else {
      NothingToPrune(env, levels'[i], runs');
    }
  }

  // With its file in place, the flushed table can become the newest of level 0.
  lemma FlushAgrees(env: Env, d: DiskState, levels: Levels, runs: RunMap, name: bytes, run: Run)
    requires FilesAgree(env, d, levels, runs)
    requires name == TableName(|TablesAt(levels, 0)| + 1) && TableOk(env, d, Path(0, name), run)
    ensures FilesAgree(env, d, Flushed(levels, name), runs[Path(0, name) := run])
    ensures RunsAt(Flushed(levels, name), runs[Path(0, name) := run], 0) == RunsAt(levels, runs, 0) + [run]
    ensures RunsAt(Flushed(levels, name), runs[Path(0, name) := run], 1) == RunsAt(levels, runs, 1)
  {
    var levels', runs' := Flushed(levels, name), runs[Path(0, name) := run];
    NewNameIsNew(levels);
    FlushedShape(levels, name);
    forall i | 0 <= i < |levels'| ensures PruningOk(env, levels'[i], runs') {
      FlushedPruning(env, levels, runs, name, run, i);
    }
    forall p | Lists(levels', p) ensures Lists(levels, p) || p == Path(0, name) { FlushedLists(levels, name, p); }
    FlushedRuns(levels, runs, run, name);
  }

  lemma FlushedLists(levels: Levels, name: bytes, p: Path)
    requires LevelsOk(levels) && name == TableName(|TablesAt(levels, 0)| + 1)
    requires Lists(Flushed(levels, name), p)
    ensures Lists(levels, p) || p == Path(0, name)
  {
    FlushedShape(levels, name);
    NoHigherLevels(Flushed(levels, name), p);
  }

  lemma NoHigherLevels(levels: Levels, p: Path)
    requires LevelsOk(levels) && Lists(levels, p)
    ensures p.level <= 1
  {
    FoundLevel(levels, p.level);
  }

  lemma FlushedRuns(levels: Levels, runs: RunMap, run: Run, name: bytes)
    requires LevelsOk(levels) && !Lists(levels, Path(0, name))
    requires TablesAt(Flushed(levels, name), 0) == TablesAt(levels, 0) + [name]
    requires TablesAt(Flushed(levels, name), 1) == TablesAt(levels, 1)
    ensures RunsAt(Flushed(levels, name), runs[Path(0, name) := run], 0) == RunsAt(levels, runs, 0) + [run]
    ensures RunsAt(Flushed(levels, name), runs[Path(0, name) := run], 1) == RunsAt(levels, runs, 1)
  {
    hide Flushed, LevelsOk, TablesAt;
    var runs' := runs[Path(0, name) := run];
    forall i | 0 <= i < |TablesAt(levels, 0)|
      ensures RunAt(runs', Path(0, TablesAt(levels, 0)[i])) == RunAt(runs, Path(0, TablesAt(levels, 0)[i]))
    {
      assert TablesAt(levels, 0)[i] in TablesAt(levels, 0);
    }
  }

  // Levels that agree with a disk can be printed, and are read back as they are.
  lemma LevelsPrintable(env: Env, d: DiskState, levels: Levels, runs: RunMap)
    requires FilesAgree(env, d, levels, runs)
    ensures forall i :: 0 <= i < |levels| ==> Printable(levels[i])
  {
    forall i | 0 <= i < |levels| ensures Printable(levels[i]) {
      TablesOfLevel(levels, i);
      assert PruningOk(env, levels[i], runs);
      var l := levels[i];
      forall j | 0 <= j < |l.tables| ensures PlainName(l.tables[j]) {
        if l.level == 0 {
        } else {
          assert l.tables[j] in TablesAt(levels, 1);
          var n :| n >= 1 && l.tables[j] == TableName(n);
        }
      }
      forall j | 0 <= j < |l.tables| && Ranged(l, l.tables[j])
        ensures !Less(l.keyRanges[l.tables[j]].max, l.keyRanges[l.tables[j]].min)
      {
        var p := Path(l.level, l.tables[j]);
        assert Lists(levels, p) && TableOk(env, d, p, RunAt(runs, p));
        RangeNotInverted(l.keyRanges[l.tables[j]], RunAt(runs, p));
      }
    }
  }

  lemma RangeNotInverted(range: KeyRange, run: Run)
    requires Sorted(run) && RangeOk(range, run)
    ensures !Less(range.max, range.min)
  {
    if |run| == 1 {
      LessIrreflexive(range.min);
    } else {
      LessAsymmetric(run[0].K, run[|run| - 1].K);
    }
  }

  lemma SamePrintable(a: Levels, b: Levels)
    requires SameTables(a, b) && forall i :: 0 <= i < |a| ==> Printable(a[i])
    ensures forall i :: 0 <= i < |b| ==> Printable(b[i])
  {
    assert |KeptAll(a)| == |KeptAll(b)|;
    forall i | 0 <= i < |b| ensures Printable(b[i]) {
      assert KeptAll(a)[i] == KeptAll(b)[i] && Printable(a[i]);
      SameRanges(a[i], b[i]);
      forall j | 0 <= j < |b[i].tables| && Ranged(b[i], b[i].tables[j])
        ensures !Less(b[i].keyRanges[b[i].tables[j]].max, b[i].keyRanges[b[i].tables[j]].min)
      {
        assert b[i].tables[j] in a[i].tables && a[i].tables[j] == b[i].tables[j];
      }
    }
  }

  // The number after the largest in use is the number of tables plus one, as long as numbers fit an int.
  lemma NextIsCount(levels: Levels, next: nat)
    requires LevelsOk(levels) && |TablesAt(levels, 0)| < MAX_INT && next >= 1
    requires forall t :: t in TablesAt(levels, 0) ==> TableIndex(t) < next
    requires next > 1 ==> exists t :: t in TablesAt(levels, 0) && TableIndex(t) == next - 1
    ensures next == |TablesAt(levels, 0)| + 1
  {
    var tables := TablesAt(levels, 0);
    forall i | 0 <= i < |tables| ensures TableIndex(tables[i]) == i + 1 {
      TableIndexOfName(i + 1);
    }
    if tables != [] {
      assert tables[|tables| - 1] in tables;
    }
  }

  lemma SameFilesAgree(env: Env, d: DiskState, d': DiskState, levels: Levels, runs: RunMap)
    requires FilesAgree(env, d, levels, runs) && d'.tables == d.tables && d'.sidecars == d.sidecars
    ensures FilesAgree(env, d', levels, runs)
  {
    forall p | Lists(levels, p) ensures TableOk(env, d', p, RunAt(runs, p)) {
      assert TableOk(env, d, p, RunAt(runs, p));
    }
  }

  // Every disk state a crash may leave behind agrees with the levels before or with those after.
  ghost predicate CrashSafe(env: Env, seen: set<DiskState>, seen': set<DiskState>, wal: Wals.WalFile,
                            before: Levels, runs: RunMap, after: Levels, runs': RunMap) {
    forall d :: d in seen' ==>
      d in seen || (d.wal == wal && (DiskAgrees(env, d, before, runs) || DiskAgrees(env, d, after, runs')))
  }

  // The same, while the levels stay as they are.
  ghost predicate Steady(env: Env, seen: set<DiskState>, seen': set<DiskState>, wal: Wals.WalFile, levels: Levels,
                         runs: RunMap) {
    forall d :: d in seen' ==> d in seen || (d.wal == wal && DiskAgrees(env, d, levels, runs))
  }

  // Work on the files of an unlisted table is safe.
  lemma UnlistedFiles(env: Env, seen: set<DiskState>, seen': set<DiskState>, d: DiskState, d': DiskState,
                      levels: Levels, runs: RunMap, p: Path)
    requires FilesAgree(env, d, levels, runs) && !Lists(levels, p) && OnlyAt(d, d', p)
    requires forall x :: x in seen' ==> x in seen || OnlyAt(d, x, p)
    ensures FilesAgree(env, d', levels, runs) && d'.wal == d.wal
    ensures ManifestOk(env, d', levels) <==> ManifestOk(env, d, levels)
    ensures ManifestOk(env, d, levels) ==> Steady(env, seen, seen', d.wal, levels, runs)
  {
    forall x | x in seen' && x !in seen && ManifestOk(env, d, levels)
      ensures x.wal == d.wal && DiskAgrees(env, x, levels, runs)
    {
      assert OnlyAt(d, x, p);
    }
  }

  // Work under the old levels, one publication, work under the new levels.
  lemma PublishedSafely(env: Env, s0: set<DiskState>, s1: set<DiskState>, s2: set<DiskState>, s3: set<DiskState>,
                        d: DiskState,
                        wal: Wals.WalFile, before: Levels, runs: RunMap, after: Levels, runs': RunMap)
    requires Steady(env, s0, s1, wal, before, runs) && s2 == s1 + {d} && Steady(env, s2, s3, wal, after, runs')
    requires d.wal == wal && DiskAgrees(env, d, after, runs')
    ensures CrashSafe(env, s0, s3, wal, before, runs, after, runs')
  {}
}
