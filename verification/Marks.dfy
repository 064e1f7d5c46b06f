// How a run comes to stand exactly at a mark, or past it: the inputs for which the bounds fail, and the exact
// condition under which a restarted engine keeps them.

module Marks {
  import opened Base
  import opened Lsm
  import opened Tables
  import opened Machine
  import opened Memory
  import opened Safety
  import opened Bounds
  import Json
  import Progress
  import Wals

  // ---------- Plenty of keys ----------

  const KEYS: nat := 3600

  // Different two-letter keys.
  function Key(n: nat): (k: bytes)
    requires n < KEYS
    ensures |k| == 2 && forall i :: 0 <= i < 2 ==> 0x40 <= k[i] < 0x7C
  {
    [0x40 + n / 60, 0x40 + n % 60]
  }

  function PutOf(n: nat): Write
    requires n < KEYS
  {
    Entry(Key(n), [0x40], Put)
  }

  lemma TwoLettersAreText(k: bytes)
    requires 1 <= |k| <= 2 && forall i :: 0 <= i < |k| ==> 0x40 <= k[i] < 0x7C
    ensures Json.ValidUtf8(k) && |Json.Quoted(k)| <= 12
  {
    var n := Json.RuneLength(k);
    assert n == 1;
    if |k| == 2 {
      TwoLettersAreText(k[1..]);
      assert Json.Escaped(k[..1]) == [k[0]] || |Json.Escaped(k[..1])| == 2;
    } else {
      assert k[1..] == [] && Json.Quoted(k) == Json.Escaped(k[..1]) + [];
    }
  }

  lemma PutOfIsFine(n: nat)
    requires n < KEYS
    ensures EntryWritable(PutOf(n)) && Wals.Loggable(PutOf(n))
  {
    TwoLettersAreText(Key(n));
    TwoLettersAreText([0x40]);
    assert |Json.Quoted(Json.Ascii("PUT"))| <= 18 by { PutIsShort(); }
  }

  lemma PutIsShort()
    ensures |Json.Quoted(Json.Ascii("PUT"))| <= 18
  {
    var t := Json.Ascii("PUT");
    assert t == ['P' as byte, 'U' as byte, 'T' as byte];
    assert Json.RuneLength(t) == 1 && t[1..] == ['U' as byte, 'T' as byte];
    TwoLettersAreText(t[1..]);
  }

  lemma KeysDiffer(m: nat, n: nat)
    requires m < n < KEYS
    ensures Key(m) != Key(n)
  {
    assert m / 60 != n / 60 || m % 60 != n % 60;
  }

  function KeysBelow(n: nat): set<bytes>
    requires n <= KEYS
  {
    set i | 0 <= i < n :: Key(i)
  }

  lemma {:induction false} KeysBelowCount(n: nat)
    requires n <= KEYS
    ensures |KeysBelow(n)| == n
  {
    if n > 0 {
      KeysBelowCount(n - 1);
      forall i | 0 <= i < n - 1 ensures Key(i) != Key(n - 1) { KeysDiffer(i, n - 1); }
      assert KeysBelow(n) == KeysBelow(n - 1) + {Key(n - 1)};
    }
  }

  function KeysOf(run: Run): set<bytes> {
    set i | 0 <= i < |run| :: run[i].K
  }

  lemma {:induction false} KeysOfCount(run: Run)
    ensures |KeysOf(run)| <= |run|
  {
    if run != [] {
      var init, last := run[..|run| - 1], run[|run| - 1];
      KeysOfCount(init);
      assert KeysOf(run) == KeysOf(init) + {last.K};
    }
  }

  lemma {:induction false} SubsetCount(a: set<bytes>, b: set<bytes>)
    requires a <= b
    ensures |a| <= |b|
    decreases |a|
  {
    if a != {} {
      var x :| x in a;
      SubsetCount(a - {x}, b - {x});
    }
  }

  // A memtable up to the mark always leaves a key free.
  lemma FreshKey(mem: Run) returns (n: nat)
    requires |mem| <= FLUSH_THRESHOLD
    ensures n < KEYS && Lookup(mem, Key(n)) == None
  {
    assert FLUSH_THRESHOLD == 1953;
    KeysBelowCount(FLUSH_THRESHOLD + 1);
    KeysOfCount(mem);
    if KeysBelow(FLUSH_THRESHOLD + 1) <= KeysOf(mem) {
      SubsetCount(KeysBelow(FLUSH_THRESHOLD + 1), KeysOf(mem));
      assert false;
    }
    var k :| k in KeysBelow(FLUSH_THRESHOLD + 1) && k !in KeysOf(mem);
    n :| 0 <= n <= FLUSH_THRESHOLD && Key(n) == k;
    forall i | 0 <= i < |mem| ensures mem[i].K != k { assert mem[i].K in KeysOf(mem); }
    LookupMiss(mem, k);
  }

  // ---------- Filling the memtable ----------

  // A good step that is the machine's own: what is written, the log can give back.
  ghost predicate PlainStep(s: State, s': State) {
    GoodStep(s, s') && UpStep(s, s')
  }

  ghost predicate PlainPath(s: State, trace: seq<State>, s': State) {
    && |trace| > 0 && trace[0] == s && trace[|trace| - 1] == s'
    && forall i :: 0 <= i < |trace| - 1 ==> PlainStep(trace[i], trace[i + 1])
  }

  lemma PathGrows(s: State, trace: seq<State>, s': State, s'': State) returns (longer: seq<State>)
    requires PlainPath(s, trace, s') && PlainStep(s', s'')
    ensures PlainPath(s, longer, s'')
  {
    hide PlainStep;
    longer := trace + [s''];
  }

  lemma PathsJoin(s: State, a: seq<State>, s': State, b: seq<State>, s'': State) returns (joined: seq<State>)
    requires PlainPath(s, a, s') && PlainPath(s', b, s'')
    ensures PlainPath(s, joined, s'')
  {
    hide PlainStep;
    joined := a + b[1..];
    forall i | 0 <= i < |joined| - 1 ensures PlainStep(joined[i], joined[i + 1]) {
      if i >= |a| - 1 {
        assert joined[i] == b[i - |a| + 1] && joined[i + 1] == b[i - |a| + 2];
      }
    }
  }

  lemma {:induction false} PathKeeps(s: State, trace: seq<State>, s': State)
    requires PlainPath(s, trace, s') && Inv(s)
    ensures Inv(s')
    decreases |trace|
  {
    hide UpStep, GoodStep;
    var n := |trace| - 1;
    if n > 0 {
      PathKeeps(s, trace[..n], trace[n - 1]);
      assert PlainStep(trace[n - 1], trace[n]);
      UpStepKeeps(trace[n - 1], trace[n]);
    }
  }

  lemma PathIsGood(s: State, trace: seq<State>, s': State)
    requires PlainPath(s, trace, s')
    ensures GoodRun(s, trace)
  {
    hide UpStep, GoodStep;
    assert forall i :: 0 <= i < |trace| - 1 ==> PlainStep(trace[i], trace[i + 1]);
  }

  // One more key, up to the point where the flush is decided.
  lemma WriteOneMore(s: State) returns (trace: seq<State>, s': State, w: Write)
    requires Live(s) && s.pc.Idle? && |s.mem| <= FLUSH_THRESHOLD
    ensures PlainPath(s, trace, s') && Live(s') && s'.pc.Applied?
    ensures EntryWritable(w) && Lookup(s.mem, w.K) == None
    ensures s' ==
            s.(disk := s.disk.(wal := s.disk.wal + [w]), mem := Upsert(s.mem, w), pc := Applied, done := s.done + [w])
    ensures |s'.mem| == |s.mem| + 1
  {
    var n := FreshKey(s.mem);
    w := PutOf(n);
    PutOfIsFine(n);
    var logged := s.(disk := s.disk.(wal := s.disk.wal + [w]), pc := Logged(w));
    s' := logged.(mem := Upsert(s.mem, w), pc := Applied, done := s.done + [w]);
    assert LogWrite(s, logged, w) && ApplyWrite(logged, s');
    LiveStepKeeps(s, logged);
    LiveStepKeeps(logged, s');
    UpsertSorted(s.mem, w);
    trace := [s, logged, s'];
  }

  // Filling up to the flush decision at the mark, whatever the memtable holds already.
  lemma {:induction false} FillToMark(s: State) returns (trace: seq<State>, s': State)
    requires Live(s) && s.pc.Idle? && |s.mem| < FLUSH_THRESHOLD
    ensures PlainPath(s, trace, s') && Live(s') && s'.pc.Applied? && |s'.mem| == FLUSH_THRESHOLD
    ensures s'.l0 == s.l0 && AllWritable(s'.mem) == AllWritable(s.mem)
    ensures Replay(s.disk.wal) == s.mem ==> Replay(s'.disk.wal) == s'.mem
    decreases FLUSH_THRESHOLD - |s.mem|
  {
    var w;
    trace, s', w := WriteOneMore(s);
    WritableKept(s.mem, w);
    assert s'.disk.wal[..|s.disk.wal|] == s.disk.wal;
    if |s'.mem| < FLUSH_THRESHOLD {
      var idle := s'.(pc := Idle);
      assert SkipFlush(s', idle);
      LiveStepKeeps(s', idle);
      trace := PathGrows(s, trace, s', idle);
      var rest;
      rest, s' := FillToMark(idle);
      trace := PathsJoin(s, trace, idle, rest, s');
    }
  }

  // A new key neither removes an entry that cannot be stored nor adds one.
  lemma WritableKept(mem: Run, w: Write)
    requires Sorted(mem) && EntryWritable(w) && Lookup(mem, w.K) == None
    ensures AllWritable(Upsert(mem, w)) == AllWritable(mem)
  {
    if AllWritable(mem) {
      WritableUpsert(mem, w);
    } else {
      var i :| 0 <= i < |mem| && !EntryWritable(mem[i]);
      LookupHit(mem, i);
      UpsertLookup(mem, w, mem[i].K);
      var j := LookupWitness(Upsert(mem, w), mem[i].K);
      assert Upsert(mem, w)[j] == mem[i];
    }
  }

  // ---------- Exactly when a restarted engine stays within its marks ----------

  // One entry that cannot be stored is enough: at the mark the flush is rejected.
  lemma UnwritableStepsOver(s: State)
    requires Live(s) && s.pc.Idle? && |s.mem| < FLUSH_THRESHOLD && !AllWritable(s.mem)
    ensures !StaysWithinMarks(s)
  {
    var trace, full := FillToMark(s);
    PathIsGood(s, trace, full);
    var idle := full.(pc := Idle);
    assert FlushRejected(full, idle);
    var longer := trace + [idle];
    assert GoodRun(s, longer) by {
      hide GoodStep;
      assert GoodStep(full, idle);
    }
    assert !WithinMarks(longer[|trace|]) && longer[|trace|].pc.Idle?;
  }

  // Exactly when: whatever encodable entries are written after a restart, as long as nothing fails the engine stays
  // within its marks, if and only if what it reads back of the log are fewer keys than a full memtable, all of them
  // with entries that a table can store, and it finds fewer level-0 tables than start a compaction. The disk need
  // not be one of the machine's own runs.
  lemma RestartIsBoundedIff(d: Machine.Disk, writes: seq<Write>)
    requires FilesSorted(d.files) && forall key :: LastWrite(writes, key) == Recovered(d, key)
    ensures StaysWithinMarks(Restarted(d, writes)) <==>
            |Replay(d.wal)| < 1953 && AllWritable(Replay(d.wal)) && |Pruned(d.files, 0, d.l0)| < 5
  {
    var s := Restarted(d, writes);
    RestartIsLive(d, writes);
    assert GoodRun(s, [s]) && [s][0] == s;
    if Bounded(s) {
      BoundedStays(s);
    } else if |s.mem| < FLUSH_THRESHOLD && !AllWritable(s.mem) {
      UnwritableStepsOver(s);
    }
  }

  // ---------- Runs with a single fault ----------

  // From a fresh engine, with one crash and its restart at step c, and nothing else out of the ordinary.
  ghost predicate OneCrashRun(trace: seq<State>, c: nat) {
    && c + 2 < |trace| && Init(trace[0])
    && Crash(trace[c], trace[c + 1]) && Recover(trace[c + 1], trace[c + 2])
    && forall i :: 0 <= i < |trace| - 1 && i != c && i != c + 1 ==> PlainStep(trace[i], trace[i + 1])
  }

  ghost predicate SomeCompactionFails(s: State, s': State) {
    exists removed :: CompactionFails(s, s', removed)
  }

  // From a fresh engine, with one compaction that fails at step c.
  ghost predicate OneFailedCompactionRun(trace: seq<State>, c: nat) {
    && c + 1 < |trace| && Init(trace[0])
    && SomeCompactionFails(trace[c], trace[c + 1])
    && forall i :: 0 <= i < |trace| - 1 && i != c ==> PlainStep(trace[i], trace[i + 1])
  }

  function Fresh(): (s: State)
    ensures Init(s)
  {
    State(Disk([], map[], [], []), [], [], [], Idle, [])
  }

  lemma CrashAfter(trace: seq<State>, s: State) returns (crashed: seq<State>, up: State)
    requires PlainPath(Fresh(), trace, s) && !s.pc.Down?
    ensures OneCrashRun(crashed, |trace| - 1) && crashed[|crashed| - 1] == up && |crashed| == |trace| + 2
    ensures Inv(up) && up.pc.Idle? && up.disk == s.disk && up.l0 == s.disk.l0 && up.mem == Replay(s.disk.wal)
  {
    hide PlainStep;
    InitHolds(Fresh());
    PathKeeps(Fresh(), trace, s);
    var down := State(s.disk, [], [], [], Down, s.done + InFlight(s.pc));
    up := down.(mem := Replay(s.disk.wal), l0 := Pruned(s.disk.files, 0, s.disk.l0),
                l1 := Pruned(s.disk.files, 1, s.disk.l1), pc := Idle);
    CrashKeeps(s, down);
    RecoverKeeps(down, up);
    NothingPruned(s.disk.files, 0, s.disk.l0);
    crashed := trace + [down, up];
  }

  lemma GoodAfterCrash(crashed: seq<State>, c: nat, s: State, rest: seq<State>, s': State) returns (trace: seq<State>)
    requires OneCrashRun(crashed, c) && |crashed| == c + 3 && crashed[c + 2] == s && PlainPath(s, rest, s')
    ensures OneCrashRun(trace, c) && trace[|trace| - 1] == s'
  {
    hide PlainStep, Crash, Recover;
    trace := crashed + rest[1..];
    forall i | 0 <= i < |trace| - 1 && i != c && i != c + 1 ensures PlainStep(trace[i], trace[i + 1]) {
      if i >= c + 2 {
        assert trace[i] == rest[i - c - 2] && trace[i + 1] == rest[i - c - 1];
      }
    }
  }

  // The bound does not survive a crash between the last write's two effects and the flush: the restarted engine
  // sits exactly at the mark, and the next new key goes past it. Nothing fails, and every entry is encodable.
  lemma RestartAtMarkStepsPast() returns (trace: seq<State>, c: nat)
    ensures OneCrashRun(trace, c) && trace[|trace| - 1].pc.Idle? && PastMark(trace[|trace| - 1])
  {
    InitHolds(Fresh());
    assert FLUSH_THRESHOLD == 1953;
    assert Replay([]) == [];
    var good, full := FillToMark(Fresh());
    var crashed, up := CrashAfter(good, full);
    var rest, over, w := WriteOneMore(up);
    var idle := over.(pc := Idle);
    assert SkipFlush(over, idle) && PlainStep(over, idle);
    rest := PathGrows(up, rest, over, idle);
    c := |good| - 1;
    trace := GoodAfterCrash(crashed, c, up, rest, idle);
  }

  // ---------- Filling level 0 ----------

  lemma FlushFull(full: State) returns (trace: seq<State>, s': State)
    requires Live(full) && full.pc.Applied? && |full.mem| == FLUSH_THRESHOLD && AllWritable(full.mem)
    ensures PlainPath(full, trace, s') && Live(s') && s'.pc.Cleared? && |s'.l0| == |full.l0| + 1
  {
    var name := Progress.UnlistedName(full);
    var written := full.(pc := TableWritten(name),
                         disk := full.disk.(files := full.disk.files[Id(0, name) := full.mem]));
    var listed := written.(pc := Listed, disk := written.disk.(l0 := written.disk.l0 + [name]), l0 := full.l0 + [name]);
    var truncated := listed.(pc := Truncated, disk := listed.disk.(wal := []));
    s' := truncated.(pc := Cleared, mem := []);
    assert WriteTable(full, written, name) && ListTable(written, listed);
    assert TruncateWal(listed, truncated) && ClearMem(truncated, s');
    trace := [full, written, listed, truncated, s'];
    LiveStepKeeps(full, written);
    LiveStepKeeps(written, listed);
    LiveStepKeeps(listed, truncated);
    LiveStepKeeps(truncated, s');
  }

  // One memtable more.
  lemma OneTableMore(s: State) returns (trace: seq<State>, s': State)
    requires Live(s) && s.pc.Idle? && s.mem == []
    ensures PlainPath(s, trace, s') && Live(s') && s'.pc.Cleared? && |s'.l0| == |s.l0| + 1
  {
    assert FLUSH_THRESHOLD == 1953;
    var full, rest;
    trace, full := FillToMark(s);
    rest, s' := FlushFull(full);
    trace := PathsJoin(s, trace, full, rest, s');
  }

  // The fresh engine with n tables on level 0, just before the next compaction test.
  lemma {:induction false} TablesToMark(n: nat) returns (trace: seq<State>, s: State)
    requires 1 <= n <= COMPACTION_THRESHOLD
    ensures PlainPath(Fresh(), trace, s) && Live(s) && s.pc.Cleared? && |s.l0| == n
  {
    if n == 1 {
      InitHolds(Fresh());
      trace, s := OneTableMore(Fresh());
    } else {
      var cleared, rest;
      trace, cleared := TablesToMark(n - 1);
      var idle := cleared.(pc := Idle);
      assert SkipCompaction(cleared, idle);
      LiveStepKeeps(cleared, idle);
      trace := PathGrows(Fresh(), trace, cleared, idle);
      rest, s := OneTableMore(idle);
      trace := PathsJoin(Fresh(), trace, idle, rest, s);
    }
  }

  // A crash between the fifth flush and its compaction: the log is empty, the memtable too, and yet no compaction
  // will ever happen again.
  lemma CrashAtTableMarkStopsCompaction() returns (trace: seq<State>, c: nat)
    ensures OneCrashRun(trace, c) && trace[|trace| - 1].pc.Idle?
    ensures Replay(trace[|trace| - 1].disk.wal) == [] && TablesPastMark(trace[|trace| - 1])
  {
    var good, cleared := TablesToMark(COMPACTION_THRESHOLD);
    InitHolds(Fresh());
    PathKeeps(Fresh(), good, cleared);
    var up;
    trace, up := CrashAfter(good, cleared);
    ManyTablesArePastMark(up);
    c := |good| - 1;
  }

  // So does one compaction that fails.
  lemma FailedCompactionStopsCompaction() returns (trace: seq<State>, c: nat)
    ensures OneFailedCompactionRun(trace, c)
    ensures trace[|trace| - 1].pc.Idle? && TablesPastMark(trace[|trace| - 1])
  {
    var good, cleared := TablesToMark(COMPACTION_THRESHOLD);
    var compacting := Progress.CompactionCanStart(cleared);
    assert PlainStep(cleared, compacting);
    good := PathGrows(Fresh(), good, cleared, compacting);
    var idle := compacting.(pc := Idle);
    assert idle.disk == compacting.disk.(files := compacting.disk.files - {});
    assert CompactionFails(compacting, idle, {});
    InitHolds(Fresh());
    PathKeeps(Fresh(), good, compacting);
    UpStepKeeps(compacting, idle);
    ManyTablesArePastMark(idle);
    trace, c := good + [idle], |good| - 1;
    assert SomeCompactionFails(compacting, idle);
    hide PlainStep, SomeCompactionFails;
    forall i | 0 <= i < |trace| - 1 && i != c ensures PlainStep(trace[i], trace[i + 1]) {
      assert trace[i] == good[i] && trace[i + 1] == good[i + 1];
    }
  }
}
