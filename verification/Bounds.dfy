// The exact triggers: in failure-free runs neither the memtable nor level 0 steps over its mark.

module Bounds {
  import opened Base
  import opened Lsm
  import opened Tables
  import opened Machine
  import opened Memory
  import opened Safety
  import Progress

  // The encoder rejects the memtable: nothing has failed, but the flush is given up.
  ghost predicate FlushRejected(s: State, s': State) {
    s.pc.Applied? && |s.mem| == FLUSH_THRESHOLD && !Writable(s.mem) && s' == s.(pc := Idle)
  }

  // A step of a run without failures and crashes, in which only entries are written that a table can store, whether
  // the log can give them back or not.
  ghost predicate GoodStep(s: State, s': State) {
    && (WriteStep(s, s') || (exists w :: LogAnyWrite(s, s', w)) || CompactionStep(s, s') || FlushRejected(s, s'))
    && (s'.pc.Logged? ==> EntryWritable(s'.pc.w))
  }

  lemma GoodIsLive(s: State, s': State)
    requires GoodStep(s, s')
    ensures LiveStep(s, s')
  {
    if FlushRejected(s, s') {
      var name := Progress.UnlistedName(s);
      assert FlushFails(s, s', name, false);
    }
  }

  ghost predicate AllWritable(run: Run) {
    forall i :: 0 <= i < |run| ==> EntryWritable(run[i])
  }

  ghost predicate Bounded(s: State) {
    && AllWritable(s.mem)
    && (s.pc.Logged? ==> EntryWritable(s.pc.w))
    && match s.pc
       case Idle => |s.mem| < FLUSH_THRESHOLD && |s.l0| < COMPACTION_THRESHOLD
       case Logged(_) => |s.mem| < FLUSH_THRESHOLD && |s.l0| < COMPACTION_THRESHOLD
       case Applied => |s.mem| <= FLUSH_THRESHOLD && |s.l0| < COMPACTION_THRESHOLD
       case TableWritten(_) => |s.mem| == FLUSH_THRESHOLD && |s.l0| < COMPACTION_THRESHOLD
       case Listed => |s.mem| == FLUSH_THRESHOLD && |s.l0| <= COMPACTION_THRESHOLD
       case Truncated => |s.mem| == FLUSH_THRESHOLD && |s.l0| <= COMPACTION_THRESHOLD
       case Cleared => |s.mem| == 0 && |s.l0| <= COMPACTION_THRESHOLD
       case Compacting(_, _) => |s.mem| == 0 && |s.l0| == COMPACTION_THRESHOLD
       case Published(_) => |s.mem| == 0 && |s.l0| == 0
       case Down => false
  }

  lemma WritableUpsert(run: Run, w: Write)
    requires AllWritable(run) && EntryWritable(w)
    ensures AllWritable(Upsert(run, w))
  {
    UpsertKeys(run, w);
    forall i | 0 <= i < |Upsert(run, w)| ensures EntryWritable(Upsert(run, w)[i]) {
      assert Upsert(run, w)[i] in Upsert(run, w);
    }
  }

  lemma BoundedKept(s: State, s': State)
    requires Live(s) && Bounded(s) && GoodStep(s, s')
    ensures Bounded(s') && !FlushRejected(s, s')
  {
    if ApplyWrite(s, s') {
      UpsertSorted(s.mem, s.pc.w);
      WritableUpsert(s.mem, s.pc.w);
    }
  }

  // A run without failures and crashes from s on.
  ghost predicate GoodRun(s: State, trace: seq<State>) {
    |trace| > 0 && trace[0] == s && forall i :: 0 <= i < |trace| - 1 ==> GoodStep(trace[i], trace[i + 1])
  }

  lemma {:induction false} GoodRunKeeps(s: State, trace: seq<State>, i: nat)
    requires GoodRun(s, trace) && i < |trace| && Live(s)
    ensures Live(trace[i]) && (Bounded(s) ==> Bounded(trace[i]))
  {
    if i > 0 {
      GoodRunKeeps(s, trace, i - 1);
      GoodIsLive(trace[i - 1], trace[i]);
      LiveStepKeeps(trace[i - 1], trace[i]);
      if Bounded(s) {
        BoundedKept(trace[i - 1], trace[i]);
      }
    }
  }

  // Main result. Between operations the memtable is below its mark and so is level 0; a flush finds a memtable
  // that is exactly one full table and that the encoder accepts.
  lemma TriggersNeverStepOver(s: State, trace: seq<State>, i: nat)
    requires Init(s) && GoodRun(s, trace) && i < |trace|
    ensures trace[i].pc.Idle? ==> WithinMarks(trace[i])
    ensures trace[i].pc.Applied? && |trace[i].mem| >= 1953 ==> |trace[i].mem| == 1953 && Writable(trace[i].mem)
    ensures trace[i].pc.Cleared? && |trace[i].l0| >= 5 ==> |trace[i].l0| == 5
  {
    InitHolds(s);
    GoodRunKeeps(s, trace, i);
  }

  ghost predicate WithinMarks(s: State) {
    |s.mem| < 1953 && |s.l0| < 5
  }

  // Whatever encodable entries are written from now on, as long as nothing fails, the engine is within its marks
  // between operations.
  ghost predicate StaysWithinMarks(s: State) {
    forall trace: seq<State>, i :: GoodRun(s, trace) && 0 <= i < |trace| && trace[i].pc.Idle? ==> WithinMarks(trace[i])
  }

  lemma BoundedStays(s: State)
    requires Live(s) && Bounded(s)
    ensures StaysWithinMarks(s)
  {
    forall trace: seq<State>, i | GoodRun(s, trace) && 0 <= i < |trace| && trace[i].pc.Idle?
      ensures WithinMarks(trace[i])
    {
      GoodRunKeeps(s, trace, i);
    }
  }

  // ---------- Past the mark of the memtable ----------

  ghost predicate PastMark(s: State) {
    |s.mem| > 1953 && (s.pc.Idle? || s.pc.Logged? || s.pc.Applied?)
  }

  lemma PastMarkKept(s: State, s': State)
    requires Live(s) && PastMark(s) && LiveStep(s, s')
    ensures PastMark(s') && s'.l0 == s.l0
  {
    if ApplyWrite(s, s') {
      UpsertSorted(s.mem, s.pc.w);
    }
  }

  // Once the memtable holds more keys than the mark, no flush happens any more until a restart, whatever is
  // written and whatever fails.
  lemma {:induction false} NoFlushPastMark(trace: seq<State>, i: nat)
    requires LiveRun(trace) && PastMark(trace[0]) && i < |trace|
    ensures PastMark(trace[i]) && trace[i].l0 == trace[0].l0
  {
    if i > 0 {
      NoFlushPastMark(trace, i - 1);
      LiveRunKeeps(trace, i - 1);
      PastMarkKept(trace[i - 1], trace[i]);
    }
  }

  // ---------- Past the mark of level 0 ----------

  // Everything that can happen at all.
  ghost predicate AnyStep(s: State, s': State) {
    LiveStep(s, s') || Crash(s, s') || Recover(s, s')
  }

  // What is left of a list when some of its elements are dropped.
  predicate Within(a: seq<bytes>, b: seq<bytes>) {
    if b == [] then a == []
    else
      var n := |b| - 1;
      Within(a, b[..n]) || (a != [] && a[|a| - 1] == b[n] && Within(a[..|a| - 1], b[..n]))
  }

  lemma {:induction false} WithinItself(a: seq<bytes>)
    ensures Within(a, a)
  {
    if a != [] {
      WithinItself(a[..|a| - 1]);
    }
  }

  lemma {:induction false} PrunedWithin(files: map<Id, Run>, level: nat, names: seq<bytes>)
    ensures Within(Pruned(files, level, names), names)
  {
    if names != [] {
      var init := names[..|names| - 1];
      PrunedWithin(files, level, init);
      var kept := Pruned(files, level, init);
      assert (kept + [names[|names| - 1]])[..|kept|] == kept;
    }
  }

  // Tables that are there are not dropped.
  lemma {:induction false} WithinIsKept(files: map<Id, Run>, level: nat, a: seq<bytes>, b: seq<bytes>)
    requires Within(a, b) && AllThere(files, level, a)
    ensures |a| <= |Pruned(files, level, b)|
  {
    if b != [] {
      var n := |b| - 1;
      if Within(a, b[..n]) {
        WithinIsKept(files, level, a, b[..n]);
      } else {
        assert Id(level, a[|a| - 1]) in files;
        WithinIsKept(files, level, a[..|a| - 1], b[..n]);
      }
    }
  }

  // At least this many tables that readers go to, all of them there and named by the manifest, whatever else it names.
  ghost predicate TablesListed(s: State, n: nat) {
    if s.pc.Down? then n <= |Pruned(s.disk.files, 0, s.disk.l0)|
    else n <= |s.l0| && Within(s.l0, s.disk.l0) && AllThere(s.disk.files, 0, s.l0)
  }

  // With five tables or more between operations, the next flush makes six, and the test for five fails.
  ghost predicate TablesPastMark(s: State) {
    && TablesListed(s, 5)
    && match s.pc
       case TableWritten(name) => name !in s.l0 && Id(0, name) in s.disk.files
       case Listed => |s.l0| > 5
       case Truncated => |s.l0| > 5
       case Cleared => |s.l0| > 5
       case Compacting(_, _) => false
       case Published(_) => false
       case _ => true
  }

  // A step that lists nothing in memory, as far as level 0 is concerned.
  lemma QuietStep(s: State, s': State)
    requires TablesPastMark(s) && LiveStep(s, s') && !ListTable(s, s')
    ensures s'.l0 == s.l0 && !s'.pc.Down?
    ensures s'.disk.l0 == s.disk.l0 || (s.pc.TableWritten? && s'.disk.l0 == s.disk.l0 + [s.pc.name])
    ensures forall name :: name in s.l0 && Id(0, name) in s.disk.files ==> Id(0, name) in s'.disk.files
  {
    hide Compacts, Writable, Upsert, Within;
  }

  lemma TablesPastMarkKept(s: State, s': State)
    requires TablesPastMark(s) && LiveStep(s, s')
    ensures TablesPastMark(s') && |s'.disk.l0| >= |s.disk.l0|
  {
    HowReached(s, s');
    if !ListTable(s, s') {
      QuietStep(s, s');
    }
    hide LiveStep;
  }

  lemma RestartPastMark(s: State, s': State)
    requires TablesPastMark(s) && (Crash(s, s') || Recover(s, s'))
    ensures TablesPastMark(s')
  {
    if Crash(s, s') {
      WithinIsKept(s.disk.files, 0, s.l0, s.disk.l0);
    } else {
      PrunedThere(s.disk.files, 0, s.disk.l0);
      PrunedWithin(s.disk.files, 0, s.disk.l0);
    }
  }

  lemma AnyStepPastMark(s: State, s': State)
    requires TablesPastMark(s) && AnyStep(s, s')
    ensures TablesPastMark(s') && |s'.disk.l0| >= |s.disk.l0|
  {
    if LiveStep(s, s') {
      TablesPastMarkKept(s, s');
    } else {
      RestartPastMark(s, s');
    }
  }

  // Once five level-0 tables are listed while the engine is idle or down, no compaction happens any more, in this
  // process or any later one, whatever is written, whatever fails, and however often the engine crashes.
  lemma {:induction false} NoCompactionPastMark(trace: seq<State>, i: nat)
    requires |trace| > 0 && TablesPastMark(trace[0]) && i < |trace|
    requires forall k :: 0 <= k < |trace| - 1 ==> AnyStep(trace[k], trace[k + 1])
    ensures TablesPastMark(trace[i]) && !trace[i].pc.Compacting? && !trace[i].pc.Published?
    ensures |trace[i].disk.l0| >= |trace[0].disk.l0|
  {
    hide AnyStep, TablesListed;
    if i > 0 {
      NoCompactionPastMark(trace, i - 1);
      AnyStepPastMark(trace[i - 1], trace[i]);
    }
  }

  // From a state of the machine's own runs, where memory and manifest agree.
  lemma ManyTablesArePastMark(s: State)
    requires Inv(s) && (s.pc.Idle? || s.pc.Down?) && |s.disk.l0| >= 5
    ensures TablesPastMark(s)
  {
    NothingPruned(s.disk.files, 0, s.disk.l0);
    WithinItself(s.disk.l0);
  }
}
