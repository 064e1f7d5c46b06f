// The objects' effects as steps of the machine: which machine state stands for an engine, and which steps a call takes.

module Refinement {
  import opened Base
  import opened Lsm
  import opened Tables
  import opened StoreState
  import opened Machine
  import opened Memory
  import opened Safety
  import opened EngineState
  import Disks
  import Progress
  import Readers
  import TableFiles
  import Wals

  // ---------- Runs of steps ----------

  ghost predicate UpPath(trace: seq<State>, s: State, s': State) {
    && |trace| > 0 && trace[0] == s && trace[|trace| - 1] == s'
    && forall i :: 0 <= i < |trace| - 1 ==> UpStep(trace[i], trace[i + 1])
  }

  ghost predicate Reaches(s: State, s': State) {
    exists trace :: UpPath(trace, s, s')
  }

  lemma ReachesItself(s: State)
    ensures Reaches(s, s)
  {
    assert UpPath([s], s, s);
  }

  lemma ReachesJoin(s: State, s': State, s'': State)
    requires Reaches(s, s') && Reaches(s', s'')
    ensures Reaches(s, s'')
  {
    hide UpStep;
    var a :| UpPath(a, s, s');
    var b :| UpPath(b, s', s'');
    var joined := a + b[1..];
    forall i | 0 <= i < |joined| - 1 ensures UpStep(joined[i], joined[i + 1]) {
      if i >= |a| - 1 {
        assert joined[i] == b[i - |a| + 1] && joined[i + 1] == b[i - |a| + 2];
      }
    }
    assert UpPath(joined, s, s'');
  }

  lemma ReachesStep(s: State, s': State)
    requires UpStep(s, s')
    ensures Reaches(s, s') && (Inv(s) ==> Inv(s'))
  {
    assert UpPath([s, s'], s, s');
    if Inv(s) {
      UpStepKeeps(s, s');
    }
  }

  // ---------- The abstraction ----------

  // The machine's files are the listed tables with their runs.
  ghost predicate FilesAre(files: map<Id, Run>, levels: Levels, runs: RunMap) {
    && (forall id :: id in files <==> Lists(levels, Disks.Path(id.level, id.name)))
    && (forall id :: id in files ==> files[id] == RunAt(runs, Disks.Path(id.level, id.name)))
  }

  // The machine state says what the engine's log, tables and memory hold.
  ghost predicate Abstracts(s: State, log: seq<Write>, levels: Levels, runs: RunMap, mem: Run, done: seq<Write>) {
    && Inv(s) && !s.pc.Down?
    && s.disk.wal == log && s.mem == mem && s.done == done
    && s.l0 == TablesAt(levels, 0) && s.l1 == TablesAt(levels, 1) && FilesAre(s.disk.files, levels, runs)
  }

  lemma RunsMatch(s: State, log: seq<Write>, levels: Levels, runs: RunMap, mem: Run, done: seq<Write>)
    requires Abstracts(s, log, levels, runs, mem, done)
    ensures Runs(s.disk.files, 0, s.l0) == RunsAt(levels, runs, 0)
    ensures Runs(s.disk.files, 1, s.l1) == RunsAt(levels, runs, 1)
  {}

  ghost function ListedRuns(levels: Levels, runs: RunMap): map<Id, Run> {
    map id | id in Ids(0, TablesAt(levels, 0)) + Ids(1, TablesAt(levels, 1)) ::
      RunAt(runs, Disks.Path(id.level, id.name))
  }

  lemma ListedRunsAre(levels: Levels, runs: RunMap)
    requires LevelsOk(levels)
    ensures FilesAre(ListedRuns(levels, runs), levels, runs)
  {
    forall id: Id ensures id in ListedRuns(levels, runs) <==> Lists(levels, Disks.Path(id.level, id.name)) {
      if Lists(levels, Disks.Path(id.level, id.name)) {
        NoHigherLevels(levels, Disks.Path(id.level, id.name));
      }
    }
  }

  // The machine state of an engine that has just been started.
  lemma StartedIsAbstract(log: seq<Write>, levels: Levels, runs: RunMap, writes: seq<Write>) returns (s: State)
    requires LevelsOk(levels) && Holds(Replay(log), levels, runs, writes)
    requires forall p :: Lists(levels, p) ==> Sorted(RunAt(runs, p))
    ensures Abstracts(s, log, levels, runs, Replay(log), writes) && s.pc.Idle?
  {
    var l0, l1, files := TablesAt(levels, 0), TablesAt(levels, 1), ListedRuns(levels, runs);
    s := State(Disk(log, files, l0, l1), Replay(log), l0, l1, Idle, writes);
    ListedRunsAre(levels, runs);
    ReplayIsLastWrite(log, []);
    StartedHolds(s, levels, runs);
    hide Holds, Replay, LevelsOk;
    forall id | id in files ensures Sorted(files[id]) {
      assert Lists(levels, Disks.Path(id.level, id.name));
    }
  }

  lemma StartedHolds(s: State, levels: Levels, runs: RunMap)
    requires FilesAre(s.disk.files, levels, runs) && s.pc.Idle? && s.mem == Replay(s.disk.wal)
    requires s.l0 == s.disk.l0 == TablesAt(levels, 0) && s.l1 == s.disk.l1 == TablesAt(levels, 1)
    requires Holds(s.mem, levels, runs, s.done)
    ensures ListsAgree(s) && ViewIsMap(s) && DiskIsMap(s)
  {
    var files := s.disk.files;
    assert s.done + InFlight(s.pc) == s.done;
    assert Runs(files, 0, s.l0) == RunsAt(levels, runs, 0) && Runs(files, 1, s.l1) == RunsAt(levels, runs, 1);
    forall key
      ensures View(s, key) == LastWrite(s.done, key)
      ensures Overlay(Replay(s.disk.wal), files, s.disk.l0, s.disk.l1, key) == LastWrite(s.done + InFlight(s.pc), key)
    {
      assert Stacked(s.mem, levels, runs, key) == LastWrite(s.done, key);
    }
  }

  // An engine on an empty directory stands for the machine's initial state.
  lemma EmptyIsInit(s: State, levels: Levels, runs: RunMap)
    requires Abstracts(s, [], levels, runs, [], []) && s.pc.Idle? && levels == []
    ensures Init(s)
  {
    assert forall id :: id !in s.disk.files;
    assert s.disk.files == map[];
  }

  // ---------- Disks that a crash may leave ----------

  // The disk, as far as a restart can tell, is that of the machine state.
  ghost predicate DiskShows(env: Disks.Env, d: Disks.DiskState, levels: Levels, runs: RunMap, m: State) {
    && DiskAgrees(env, d, levels, runs) && Inv(m) && !m.pc.Down?
    && m.disk.wal == LogOf(env, d.wal) && m.disk.l0 == TablesAt(levels, 0) && m.disk.l1 == TablesAt(levels, 1)
    && FilesAre(m.disk.files, levels, runs)
  }

  ghost predicate DiskIs(env: Disks.Env, d: Disks.DiskState, m: State) {
    exists levels, runs :: DiskShows(env, d, levels, runs, m)
  }

  // Every disk state since then is that of a machine state on the way.
  ghost predicate Followed(env: Disks.Env, seen: set<Disks.DiskState>, seen': set<Disks.DiskState>, s: State) {
    forall d :: d in seen' ==> d in seen || Passed(env, d, s)
  }

  ghost predicate Passed(env: Disks.Env, d: Disks.DiskState, s: State) {
    exists m :: Reaches(s, m) && DiskIs(env, d, m)
  }

  lemma FollowedJoin(env: Disks.Env, seen: set<Disks.DiskState>, seen': set<Disks.DiskState>,
                     seen'': set<Disks.DiskState>, s: State, s': State)
    requires Followed(env, seen, seen', s) && Reaches(s, s') && Followed(env, seen', seen'', s')
    ensures Followed(env, seen, seen'', s)
  {
    hide Reaches, DiskIs;
    forall d | d in seen'' && d !in seen ensures Passed(env, d, s) {
      if d !in seen' {
        var m :| Reaches(s', m) && DiskIs(env, d, m);
        ReachesJoin(s, s', m);
      }
    }
  }

  lemma PassedNow(env: Disks.Env, d: Disks.DiskState, levels: Levels, runs: RunMap, mem: Run, done: seq<Write>,
                  s: State, m: State)
    requires Reaches(s, m) && DiskAgrees(env, d, levels, runs)
    requires Abstracts(m, LogOf(env, d.wal), levels, runs, mem, done)
    ensures Passed(env, d, s)
  {
    hide Reaches, FilesAre, LogOf, DiskAgrees;
    assert DiskShows(env, d, levels, runs, m);
  }

  // A change during which every disk agrees with the levels before or after.
  lemma SafeIsFollowed(env: Disks.Env, seen: set<Disks.DiskState>, seen': set<Disks.DiskState>, wal: Wals.WalFile,
                       levels: Levels, runs: RunMap, levels': Levels, runs': RunMap, mem: Run, done: seq<Write>,
                       s: State, s': State)
    requires CrashSafe(env, seen, seen', wal, levels, runs, levels', runs') && Reaches(s, s')
    requires Abstracts(s, LogOf(env, wal), levels, runs, mem, done)
    requires Abstracts(s', LogOf(env, wal), levels', runs', mem, done)
    ensures Followed(env, seen, seen', s)
  {
    hide Reaches, Abstracts, LogOf, DiskAgrees;
    ReachesItself(s);
    forall d | d in seen' && d !in seen ensures Passed(env, d, s) {
      if DiskAgrees(env, d, levels, runs) {
        PassedNow(env, d, levels, runs, mem, done, s, s);
      } else {
        PassedNow(env, d, levels', runs', mem, done, s, s');
      }
    }
  }

  // An append: whole, torn or not at all.
  lemma AppendIsFollowed(env: Disks.Env, seen: set<Disks.DiskState>, seen': set<Disks.DiskState>, d: Disks.DiskState,
                         levels: Levels, runs: RunMap, mem: Run, done: seq<Write>, w: Write, s: State, s': State)
    requires LogOk(env, d.wal) && DiskAgrees(env, d, levels, runs) && Wals.Loggable(w) && Reaches(s, s')
    requires forall x :: x in seen' ==> x in seen || Disks.AppendLeaves(d, Wals.NewWALEntry(env.crc32, w), x)
    requires Abstracts(s, LogOf(env, d.wal), levels, runs, mem, done)
    requires Abstracts(s', LogOf(env, d.wal) + [w], levels, runs, mem, done)
    ensures Followed(env, seen, seen', s)
  {
    hide Reaches, Abstracts, LogOf, LogOk, Wals.Loggable;
    var line := Wals.NewWALEntry(env.crc32, w);
    ReachesItself(s);
    assert LogOf(env, d.wal) + [] == LogOf(env, d.wal);
    forall x | x in seen' && x !in seen ensures Passed(env, x, s) {
      assert d.(wal := d.wal) == d;
      if x == d {
        PassedNow(env, x, levels, runs, mem, done, s, s);
      } else if x == d.(wal := Wals.Appended(d.wal, line)) {
        LogGrows(env, d.wal, w);
        WalOnly(env, d, x, levels, runs);
        PassedNow(env, x, levels, runs, mem, done, s, s');
      } else {
        var whole :| x == d.(wal := Wals.Torn(d.wal, line, whole));
        LogTorn(env, d.wal, w, whole);
        WalOnly(env, d, x, levels, runs);
        PassedNow(env, x, levels, runs, mem, done, s, if whole then s' else s);
      }
    }
  }

  // ---------- A restart, as the machine's own ----------

  // A table file holds one run only.
  lemma OneRunPerFile(crc: Checksum, file: bytes, run: Run, run': Run)
    requires Encodes(crc, file, run) && Encodes(crc, file, run')
    ensures run == run'
  {
    var t := TableFiles.Table(file, FirstKeys(run));
    Readers.BlocksOfRun(crc, t, run, 0);
    Readers.BlocksOfRun(crc, t, run', 0);
  }

  // What a disk tells is determined: the tables it names, in order, and their runs.
  lemma DiskTellsOne(env: Disks.Env, d: Disks.DiskState, levels: Levels, runs: RunMap, levels': Levels, runs': RunMap)
    requires DiskAgrees(env, d, levels, runs) && DiskAgrees(env, d, levels', runs')
    ensures SameTables(levels, levels')
    ensures forall p :: Lists(levels, p) <==> Lists(levels', p)
    ensures forall p :: Lists(levels, p) ==> RunAt(runs, p) == RunAt(runs', p)
  {
    if d.manifest.None? {
      assert levels == [] && levels' == [];
    }
    forall p ensures Lists(levels, p) <==> Lists(levels', p) { SameTablesAt(levels, levels', p.level); }
    forall p | Lists(levels, p) ensures RunAt(runs, p) == RunAt(runs', p) {
      assert TableOk(env, d, p, RunAt(runs, p)) && TableOk(env, d, p, RunAt(runs', p));
      OneRunPerFile(env.crc64, d.tables[p], RunAt(runs, p), RunAt(runs', p));
    }
  }

  // What the machine's crash and restart make of a state.
  function CrashedAndUp(m: State): State {
    Restarted(m.disk, m.done + InFlight(m.pc))
  }

  lemma CrashedAndUpIs(m: State)
    requires Inv(m) && !m.pc.Down?
    ensures exists down :: Crash(m, down) && Recover(down, CrashedAndUp(m))
    ensures Inv(CrashedAndUp(m))
  {
    var down := State(m.disk, [], [], [], Down, m.done + InFlight(m.pc));
    assert Crash(m, down) && Recover(down, CrashedAndUp(m));
    CrashKeeps(m, down);
    RecoverKeeps(down, CrashedAndUp(m));
  }

  // A disk that is that of a machine state recovers to the machine's history.
  lemma ShownRecovers(env: Disks.Env, d: Disks.DiskState, m: State)
    requires DiskIs(env, d, m)
    ensures Recovers(env, d, m.done + InFlight(m.pc))
  {
    var levels, runs :| DiskShows(env, d, levels, runs, m);
    assert Runs(m.disk.files, 0, m.disk.l0) == RunsAt(levels, runs, 0);
    assert Runs(m.disk.files, 1, m.disk.l1) == RunsAt(levels, runs, 1);
    forall key
      ensures Stacked(Replay(LogOf(env, d.wal)), levels, runs, key) == LastWrite(m.done + InFlight(m.pc), key)
    {
      assert Overlay(Replay(m.disk.wal), m.disk.files, m.disk.l0, m.disk.l1, key)
          == LastWrite(m.done + InFlight(m.pc), key);
    }
    assert RecoversWith(env, d, levels, runs, m.done + InFlight(m.pc));
  }

  // The engine that starts on such a disk stands for the machine's state after its crash and restart.
  lemma RestartIsCrashAndRecover(env: Disks.Env, d: Disks.DiskState, m: State, levels: Levels, runs: RunMap, s: State)
    requires DiskIs(env, d, m) && DiskAgrees(env, d, levels, runs) && s.pc.Idle?
    requires Abstracts(s, LogOf(env, d.wal), levels, runs, Replay(LogOf(env, d.wal)), m.done + InFlight(m.pc))
    ensures s == CrashedAndUp(m)
  {
    var levels', runs' :| DiskShows(env, d, levels', runs', m);
    DiskTellsOne(env, d, levels, runs, levels', runs');
    SameTablesAt(levels, levels', 0);
    SameTablesAt(levels, levels', 1);
    SameFiles(s.disk.files, m.disk.files, levels, runs, levels', runs');
    NothingPruned(m.disk.files, 0, m.disk.l0);
    NothingPruned(m.disk.files, 1, m.disk.l1);
  }

  lemma SameFiles(files: map<Id, Run>, files': map<Id, Run>, levels: Levels, runs: RunMap,
                  levels': Levels, runs': RunMap)
    requires FilesAre(files, levels, runs) && FilesAre(files', levels', runs')
    requires forall p :: Lists(levels, p) <==> Lists(levels', p)
    requires forall p :: Lists(levels, p) ==> RunAt(runs, p) == RunAt(runs', p)
    ensures files == files'
  {
    hide Lists;
    forall id: Id ensures id in files <==> id in files' {
      assert Lists(levels, Disks.Path(id.level, id.name)) <==> Lists(levels', Disks.Path(id.level, id.name));
    }
    forall id | id in files ensures files[id] == files'[id] {
      assert Lists(levels, Disks.Path(id.level, id.name));
    }
  }

  // ---------- Runs with crashes ----------

  ghost predicate EndsRun(s: State) {
    exists trace :: IsRun(trace) && trace[|trace| - 1] == s
  }

  // The disk is one that some run of the machine leaves.
  ghost predicate OfSomeRun(env: Disks.Env, d: Disks.DiskState) {
    exists m :: EndsRun(m) && DiskIs(env, d, m)
  }

  lemma RunGoesOn(s: State, m: State)
    requires EndsRun(s) && Reaches(s, m)
    ensures EndsRun(m)
  {
    hide Init, UpStep;
    var trace :| IsRun(trace) && trace[|trace| - 1] == s;
    var more :| UpPath(more, s, m);
    var joined := trace + more[1..];
    forall i | 0 <= i < |joined| - 1 ensures Next(joined[i], joined[i + 1]) {
      if i >= |trace| - 1 {
        assert joined[i] == more[i - |trace| + 1] && joined[i + 1] == more[i - |trace| + 2];
      }
    }
    assert IsRun(joined);
  }

  lemma RunSurvivesCrash(m: State)
    requires EndsRun(m) && Inv(m) && !m.pc.Down?
    ensures EndsRun(CrashedAndUp(m))
  {
    CrashedAndUpIs(m);
    var down :| Crash(m, down) && Recover(down, CrashedAndUp(m));
    hide Init, Crash, Recover, UpStep;
    var trace :| IsRun(trace) && trace[|trace| - 1] == m;
    assert IsRun(trace + [down, CrashedAndUp(m)]);
  }

  // ---------- A write ----------

  lemma LogModel(s: State, log: seq<Write>, levels: Levels, runs: RunMap, mem: Run, done: seq<Write>, w: Write)
    returns (s': State)
    requires Abstracts(s, log, levels, runs, mem, done) && s.pc.Idle? && Wals.Loggable(w)
    ensures Reaches(s, s') && Abstracts(s', log + [w], levels, runs, mem, done) && s'.pc == Logged(w)
  {
    s' := s.(disk := s.disk.(wal := log + [w]), pc := Logged(w));
    assert LogWrite(s, s', w);
    ReachesStep(s, s');
  }

  lemma ApplyModel(s: State, log: seq<Write>, levels: Levels, runs: RunMap, mem: Run, done: seq<Write>, w: Write)
    returns (s': State)
    requires Abstracts(s, log, levels, runs, mem, done) && s.pc == Logged(w)
    ensures Reaches(s, s') && Abstracts(s', log, levels, runs, Upsert(mem, w), done + [w]) && s'.pc == Applied
  {
    s' := s.(mem := Upsert(mem, w), pc := Applied, done := done + [w]);
    assert ApplyWrite(s, s');
    ReachesStep(s, s');
  }

  // ---------- A flush ----------

  // Not at the mark, or given up.
  lemma NoFlushModel(s: State, log: seq<Write>, levels: Levels, runs: RunMap, mem: Run, done: seq<Write>)
    returns (s': State)
    requires Abstracts(s, log, levels, runs, mem, done) && s.pc == Applied
    ensures Reaches(s, s') && Abstracts(s', log, levels, runs, mem, done) && s'.pc == Idle
  {
    s' := s.(pc := Idle);
    if |mem| != FLUSH_THRESHOLD {
      assert SkipFlush(s, s');
    } else {
      var name := Progress.UnlistedName(s);
      assert FlushFails(s, s', name, false);
    }
    ReachesStep(s, s');
  }

  lemma SaveModel(s: State, log: seq<Write>, levels: Levels, runs: RunMap, mem: Run, done: seq<Write>,
                  levels': Levels, runs': RunMap, name: bytes)
    returns (s': State)
    requires Abstracts(s, log, levels, runs, mem, done) && s.pc == Applied
    requires |mem| == FLUSH_THRESHOLD && Writable(mem) && name !in TablesAt(levels, 0)
    requires LevelsOk(levels) && LevelsOk(levels')
    requires TablesAt(levels', 0) == TablesAt(levels, 0) + [name] && TablesAt(levels', 1) == TablesAt(levels, 1)
    requires RunsAt(levels', runs', 0) == RunsAt(levels, runs, 0) + [mem]
    requires RunsAt(levels', runs', 1) == RunsAt(levels, runs, 1)
    ensures Reaches(s, s') && Abstracts(s', log, levels', runs', mem, done) && s'.pc == Listed
  {
    var files' := s.disk.files[Id(0, name) := mem];
    var written := s.(pc := TableWritten(name), disk := s.disk.(files := files'));
    s' := written.(pc := Listed, disk := written.disk.(l0 := written.disk.l0 + [name]), l0 := s.l0 + [name]);
    assert WriteTable(s, written, name);
    ReachesStep(s, written);
    assert ListTable(written, s');
    ReachesStep(written, s');
    ReachesJoin(s, written, s');
    SavedFiles(s.disk.files, files', levels, runs, mem, levels', runs', name);
  }

  lemma SavedFiles(files: map<Id, Run>, files': map<Id, Run>, levels: Levels, runs: RunMap, mem: Run,
                   levels': Levels, runs': RunMap, name: bytes)
    requires FilesAre(files, levels, runs) && files' == files[Id(0, name) := mem]
    requires LevelsOk(levels) && LevelsOk(levels') && name !in TablesAt(levels, 0)
    requires TablesAt(levels', 0) == TablesAt(levels, 0) + [name] && TablesAt(levels', 1) == TablesAt(levels, 1)
    requires RunsAt(levels', runs', 0) == RunsAt(levels, runs, 0) + [mem]
    requires RunsAt(levels', runs', 1) == RunsAt(levels, runs, 1)
    ensures FilesAre(files', levels', runs')
  {
    hide LevelsOk, FilesAre, RunsAt, Lists;
    forall id: Id
      ensures id in files' <==> Lists(levels', Disks.Path(id.level, id.name))
      ensures id in files' ==> files'[id] == RunAt(runs', Disks.Path(id.level, id.name))
    {
      SavedFile(files, files', levels, runs, mem, levels', runs', name, id);
    }
    FilesAreAll(files', levels', runs');
  }

  lemma FilesAreAll(files: map<Id, Run>, levels: Levels, runs: RunMap)
    requires forall id: Id :: id in files <==> Lists(levels, Disks.Path(id.level, id.name))
    requires forall id: Id :: id in files ==> files[id] == RunAt(runs, Disks.Path(id.level, id.name))
    ensures FilesAre(files, levels, runs)
  {}

  lemma SavedFile(files: map<Id, Run>, files': map<Id, Run>, levels: Levels, runs: RunMap, mem: Run,
                  levels': Levels, runs': RunMap, name: bytes, id: Id)
    requires FilesAre(files, levels, runs) && files' == files[Id(0, name) := mem]
    requires LevelsOk(levels) && LevelsOk(levels') && name !in TablesAt(levels, 0)
    requires TablesAt(levels', 0) == TablesAt(levels, 0) + [name] && TablesAt(levels', 1) == TablesAt(levels, 1)
    requires RunsAt(levels', runs', 0) == RunsAt(levels, runs, 0) + [mem]
    requires RunsAt(levels', runs', 1) == RunsAt(levels, runs, 1)
    ensures id in files' <==> Lists(levels', Disks.Path(id.level, id.name))
    ensures id in files' ==> files'[id] == RunAt(runs', Disks.Path(id.level, id.name))
  {
    var p := Disks.Path(id.level, id.name);
    if Lists(levels', p) {
      NoHigherLevels(levels', p);
      var tables' := TablesAt(levels', p.level);
      var i :| 0 <= i < |tables'| && tables'[i] == p.name;
      RunOfTable(levels', runs', p, i);
      if id != Id(0, name) {
        RunOfTable(levels, runs, p, i);
      } else {
        assert i == |TablesAt(levels, 0)|;
      }
    } else if Lists(levels, p) {
      NoHigherLevels(levels, p);
    }
  }

  lemma RunOfTable(levels: Levels, runs: RunMap, p: Disks.Path, i: nat)
    requires i < |TablesAt(levels, p.level)| && TablesAt(levels, p.level)[i] == p.name
    ensures RunAt(runs, p) == RunsAt(levels, runs, p.level)[i]
  {}

  lemma TruncateModel(s: State, log: seq<Write>, levels: Levels, runs: RunMap, mem: Run, done: seq<Write>,
                      log': seq<Write>, ok: bool)
    returns (s': State)
    requires Abstracts(s, log, levels, runs, mem, done) && s.pc == Listed && (log' == [] || (!ok && log' == log))
    ensures Reaches(s, s') && Abstracts(s', log', levels, runs, mem, done)
    ensures s'.pc == if ok then Truncated else Idle
  {
    s' := s.(pc := if ok then Truncated else Idle, disk := s.disk.(wal := log'));
    if ok {
      assert TruncateWal(s, s');
    } else {
      assert TruncateFails(s, s', log' == []);
    }
    ReachesStep(s, s');
  }

  lemma ClearModel(s: State, log: seq<Write>, levels: Levels, runs: RunMap, mem: Run, done: seq<Write>)
    returns (s': State)
    requires Abstracts(s, log, levels, runs, mem, done) && s.pc == Truncated
    ensures Reaches(s, s') && Abstracts(s', log, levels, runs, [], done) && s'.pc == Cleared
  {
    s' := s.(pc := Cleared, mem := []);
    assert ClearMem(s, s');
    ReachesStep(s, s');
  }

  // ---------- A compaction ----------

  // Not at the mark, or failed before anything was published.
  lemma NoCompactionModel(s: State, log: seq<Write>, levels: Levels, runs: RunMap, mem: Run, done: seq<Write>)
    returns (s': State)
    requires Abstracts(s, log, levels, runs, mem, done) && s.pc == Cleared
    ensures Reaches(s, s') && Abstracts(s', log, levels, runs, mem, done) && s'.pc == Idle
  {
    s' := s.(pc := Idle);
    if |s.l0| != COMPACTION_THRESHOLD {
      assert SkipCompaction(s, s');
      ReachesStep(s, s');
    } else {
      var compacting := Progress.CompactionCanStart(s);
      assert CompactionStep(s, compacting);
      ReachesStep(s, compacting);
      assert s'.disk == compacting.disk.(files := compacting.disk.files - {});
      assert CompactionFails(compacting, s', {});
      ReachesStep(compacting, s');
      ReachesJoin(s, compacting, s');
    }
  }

  // The machine with its first n chunks written.
  ghost predicate WrittenUpTo(s: State, s': State, names: seq<bytes>, n: nat)
    requires s.pc.Compacting? && n <= |names| == |s.pc.chunks|
  {
    && s' == s.(pc := Compacting(s.pc.chunks, names[..n]), disk := s.disk.(files := s'.disk.files))
    && (forall id :: id in s'.disk.files <==> id in s.disk.files || id in Ids(1, names[..n]))
    && (forall id :: id in s.disk.files ==> s'.disk.files[id] == s.disk.files[id])
    && (forall i :: 0 <= i < n ==> s'.disk.files[Id(1, names[i])] == s.pc.chunks[i])
  }

  lemma {:induction false} ChunksModel(s: State, names: seq<bytes>, n: nat) returns (s': State)
    requires Inv(s) && s.pc.Compacting? && s.pc.written == [] && n <= |names| == |s.pc.chunks|
    requires forall i :: 0 <= i < |names| ==> names[i] !in s.l1 && Id(1, names[i]) !in s.disk.files
    requires forall i, j :: 0 <= i < j < |names| ==> names[i] != names[j]
    ensures Reaches(s, s') && Inv(s') && WrittenUpTo(s, s', names, n)
  {
    if n == 0 {
      s' := s;
      ReachesItself(s);
    } else {
      var before := ChunksModel(s, names, n - 1);
      s' := OneChunkMore(s, before, names, n);
      hide Inv, Reaches, UpStep, WrittenUpTo;
      ReachesStep(before, s');
      ReachesJoin(s, before, s');
    }
  }

  lemma OneChunkMore(s: State, before: State, names: seq<bytes>, n: nat) returns (s': State)
    requires s.pc.Compacting? && s.pc.written == [] && 0 < n <= |names| == |s.pc.chunks|
    requires forall i :: 0 <= i < |names| ==> names[i] !in s.l1 && Id(1, names[i]) !in s.disk.files
    requires forall i, j :: 0 <= i < j < |names| ==> names[i] != names[j]
    requires WrittenUpTo(s, before, names, n - 1)
    ensures UpStep(before, s') && WrittenUpTo(s, s', names, n)
  {
    var name := names[n - 1];
    s' := before.(pc := Compacting(s.pc.chunks, names[..n]),
                  disk := before.disk.(files := before.disk.files[Id(1, name) := s.pc.chunks[n - 1]]));
    assert names[..n] == names[..n - 1] + [name];
    assert WriteChunk(before, s', name);
    OneIdMore(names, n);
    hide UpStep;
  }

  lemma OneIdMore(names: seq<bytes>, n: nat)
    requires 0 < n <= |names|
    ensures Ids(1, names[..n]) == Ids(1, names[..n - 1]) + {Id(1, names[n - 1])}
  {
    forall id | id in Ids(1, names[..n]) ensures id in Ids(1, names[..n - 1]) + {Id(1, names[n - 1])} {
      var i :| 0 <= i < n && id == Id(1, names[..n][i]);
      assert i < n - 1 ==> names[..n - 1][i] == names[i];
    }
    forall id | id in Ids(1, names[..n - 1]) ensures id in Ids(1, names[..n]) {
      var i :| 0 <= i < n - 1 && id == Id(1, names[..n - 1][i]);
      assert names[..n][i] == names[i];
    }
    assert names[..n][n - 1] == names[n - 1];
  }

  // All that was merged is removed.
  lemma {:induction false} RemovalModel(s: State) returns (s': State)
    requires Inv(s) && s.pc.Published?
    ensures Reaches(s, s') && Inv(s') && s' == s.(pc := Idle, disk := s.disk.(files := s.disk.files - s.pc.stale))
    decreases |if s.pc.Published? then s.pc.stale else {}|
  {
    if s.pc.stale == {} {
      s' := s.(pc := Idle);
      assert FinishCompaction(s, s');
      ReachesStep(s, s');
      assert s.disk.files - {} == s.disk.files;
    } else {
      var id :| id in s.pc.stale;
      var next := s.(pc := Published(s.pc.stale - {id}), disk := s.disk.(files := s.disk.files - {id}));
      assert RemoveOld(s, next, id, true);
      ReachesStep(s, next);
      s' := RemovalModel(next);
      ReachesJoin(s, next, s');
      assert s.disk.files - {id} - (s.pc.stale - {id}) == s.disk.files - s.pc.stale;
    }
  }

  lemma CompactModel(s: State, log: seq<Write>, levels: Levels, runs: RunMap, mem: Run, done: seq<Write>,
                     levels': Levels, runs': RunMap)
    returns (s': State)
    requires Abstracts(s, log, levels, runs, mem, done) && s.pc == Cleared && |s.l0| == COMPACTION_THRESHOLD
    requires LevelsOk(levels) && LevelsOk(levels') && TablesAt(levels', 0) == []
    requires forall t :: t in TablesAt(levels', 1) ==> t !in TablesAt(levels, 1)
    requires Compacts(RunsAt(levels', runs', 1), RunsAt(levels, runs, 0), RunsAt(levels, runs, 1))
    ensures Reaches(s, s') && Abstracts(s', log, levels', runs', mem, done) && s'.pc == Idle
  {
    var names, chunks := TablesAt(levels', 1), RunsAt(levels', runs', 1);
    RunsMatch(s, log, levels, runs, mem, done);
    var compacting := s.(pc := Compacting(chunks, []));
    assert StartCompaction(s, compacting, chunks);
    ReachesStep(s, compacting);
    forall i | 0 <= i < |names| ensures names[i] !in s.l1 && Id(1, names[i]) !in s.disk.files {
      assert names[i] in names;
    }
    var written := ChunksModel(compacting, names, |names|);
    ReachesJoin(s, compacting, written);
    assert names[..|names|] == names;
    var stale := Ids(0, s.l0) + Ids(1, s.l1);
    var published := written.(pc := Published(stale), disk := written.disk.(l0 := [], l1 := names), l0 := [],
                              l1 := names);
    assert Publish(written, published);
    ReachesStep(written, published);
    ReachesJoin(s, written, published);
    s' := RemovalModel(published);
    ReachesJoin(s, published, s');
    CompactedFiles(compacting, written, levels, runs, levels', runs');
  }

  lemma CompactedFiles(s: State, written: State, levels: Levels, runs: RunMap, levels': Levels, runs': RunMap)
    requires FilesAre(s.disk.files, levels, runs) && LevelsOk(levels) && LevelsOk(levels') && TablesAt(levels', 0) == []
    requires s.l0 == TablesAt(levels, 0) && s.l1 == TablesAt(levels, 1)
    requires forall t :: t in TablesAt(levels', 1) ==> t !in TablesAt(levels, 1)
    requires s.pc.Compacting? && s.pc.chunks == RunsAt(levels', runs', 1)
    requires WrittenUpTo(s, written, TablesAt(levels', 1), |TablesAt(levels', 1)|)
    ensures FilesAre(written.disk.files - (Ids(0, s.l0) + Ids(1, s.l1)), levels', runs')
  {
    var stale := Ids(0, s.l0) + Ids(1, s.l1);
    OldIsStale(s, levels, runs);
    forall id: Id
      ensures id in written.disk.files - stale <==> Lists(levels', Disks.Path(id.level, id.name))
      ensures id in written.disk.files - stale ==>
                (written.disk.files - stale)[id] == RunAt(runs', Disks.Path(id.level, id.name))
    {
      CompactedFile(s, written, levels', runs', id);
    }
    hide FilesAre, WrittenUpTo, LevelsOk, Lists;
    FilesAreAll(written.disk.files - stale, levels', runs');
  }

  lemma OldIsStale(s: State, levels: Levels, runs: RunMap)
    requires FilesAre(s.disk.files, levels, runs) && LevelsOk(levels)
    requires s.l0 == TablesAt(levels, 0) && s.l1 == TablesAt(levels, 1)
    ensures forall id :: id in s.disk.files <==> id in Ids(0, s.l0) + Ids(1, s.l1)
  {
    forall id: Id ensures id in s.disk.files <==> id in Ids(0, s.l0) + Ids(1, s.l1) {
      if Lists(levels, Disks.Path(id.level, id.name)) {
        NoHigherLevels(levels, Disks.Path(id.level, id.name));
      }
    }
  }

  lemma CompactedFile(s: State, written: State, levels': Levels, runs': RunMap, id: Id)
    requires LevelsOk(levels') && TablesAt(levels', 0) == []
    requires forall t :: t in TablesAt(levels', 1) ==> t !in s.l1
    requires s.pc.Compacting? && s.pc.chunks == RunsAt(levels', runs', 1)
    requires WrittenUpTo(s, written, TablesAt(levels', 1), |TablesAt(levels', 1)|)
    requires forall id :: id in s.disk.files <==> id in Ids(0, s.l0) + Ids(1, s.l1)
    ensures var files := written.disk.files - (Ids(0, s.l0) + Ids(1, s.l1));
            && (id in files <==> Lists(levels', Disks.Path(id.level, id.name)))
            && (id in files ==> files[id] == RunAt(runs', Disks.Path(id.level, id.name)))
  {
    var p, names := Disks.Path(id.level, id.name), TablesAt(levels', 1);
    assert names[..|names|] == names;
    if Lists(levels', p) {
      NoHigherLevels(levels', p);
      var i :| 0 <= i < |names| && names[i] == p.name;
      assert id == Id(1, names[i]) && id in Ids(1, names);
      RunOfTable(levels', runs', p, i);
    }
  }
}
