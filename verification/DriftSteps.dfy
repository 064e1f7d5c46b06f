// What each step keeps of an engine whose manifest and memory have drifted apart.

module DriftSteps {
  import opened Base
  import opened Lsm
  import opened Tables
  import opened Machine
  import opened Memory
  import opened Safety
  import opened Faults
  import opened Anchors
  import Naming

  // ---------- Each step ----------

  ghost predicate Lists(s: State, s': State) {
    ListTable(s, s') || Publish(s, s')
  }

  // What a step that lists nothing may do to a file: a flush writes its table, a compaction its next chunk.
  ghost predicate FileAfter(s: State, s': State, id: Id)
    requires id in s'.disk.files
  {
    || (id in s.disk.files && s'.disk.files[id] == s.disk.files[id])
    || (s.pc.Applied? && id == Id(0, Naming.NextName(s.l0)) && s'.disk.files[id] == s.mem)
    || (WritesChunk(s, s'.disk.files[id]) && s'.pc.Compacting? && |s.pc.written| < |s'.pc.written|
        && id == Id(1, s'.pc.written[|s.pc.written|]))
  }

  lemma QuietFiles(s: State, s': State, id: Id)
    requires UpStep(s, s') && Named(s, s') && !Lists(s, s') && id in s'.disk.files
    ensures FileAfter(s, s', id)
  {
    hide Compacts, Writable;
  }

  lemma QuietLists(s: State, s': State)
    requires UpStep(s, s') && !Lists(s, s')
    ensures s'.l0 == s.l0 && s'.l1 == s.l1 && s'.disk.l0 == s.disk.l0 && s'.disk.l1 == s.disk.l1
    ensures s'.pc.TableWritten? ==> s.pc.Applied?
    ensures BeforeListing(s.pc) ==> BeforeListing(s'.pc)
  {
    hide Compacts, Writable;
  }

  // The same step, of the twin.
  lemma TwinSteps(s: State, kept: seq<Write>, a: Anchor, s': State, a': Anchor)
    requires Anchored(s, kept, a) && UpStep(s, s')
    requires if Publish(s, s') then a'.l0 == [] && a'.l1 == s'.l1
             else a'.l1 == a.l1 && a'.l0 == if ListTable(s, s') then a.l0 + [s.pc.name] else a.l0
    ensures var t, t' := Twin(s, kept, a), Twin(s', kept + Taken(s, s'), a');
            UpStep(t, t') || (s.pc.Cleared? && t' == t.(pc := Idle))
  {
    hide Compacts, Writable;
    var t, t' := Twin(s, kept, a), Twin(s', kept + Taken(s, s'), a');
    assert kept + [] == kept;
    if w :| LogWrite(s, s', w) { assert LogWrite(t, t', w); }
    else if n :| WriteTable(s, s', n) { assert n !in a.l0; assert WriteTable(t, t', n); }
    else if n, left :| FlushFails(s, s', n, left) { assert n !in a.l0; assert FlushFails(t, t', n, left); }
    else if left :| ListingFails(s, s', left) { assert ListingFails(t, t', left); }
    else if emptied :| TruncateFails(s, s', emptied) { assert TruncateFails(t, t', emptied); }
    else if removed :| CompactionFails(s, s', removed) { assert CompactionFails(t, t', removed); }
    else if chunks :| StartCompaction(s, s', chunks) { assert !a.split; assert StartCompaction(t, t', chunks); }
    else if n :| WriteChunk(s, s', n) { assert WriteChunk(t, t', n); }
    else if id, r :| RemoveOld(s, s', id, r) { assert RemoveOld(t, t', id, r); }
  }

  lemma TwinKept(s: State, kept: seq<Write>, a: Anchor, s': State, a': Anchor)
    requires Anchored(s, kept, a) && Live(s) && Inv(Twin(s, kept, a)) && UpStep(s, s')
    requires if Publish(s, s') then a'.l0 == [] && a'.l1 == s'.l1
             else a'.l1 == a.l1 && a'.l0 == if ListTable(s, s') then a.l0 + [s.pc.name] else a.l0
    ensures Live(s') && Inv(Twin(s', kept + Taken(s, s'), a'))
    ensures var files, files' := s.disk.files, s'.disk.files;
            Runs(files', 0, a.l0) == Runs(files, 0, a.l0) && Runs(files', 1, a.l1) == Runs(files, 1, a.l1)
  {
    var t, t' := Twin(s, kept, a), Twin(s', kept + Taken(s, s'), a');
    TwinSteps(s, kept, a, s', a');
    hide UpStep, Inv, Live, LiveStep;
    LiveStepKeeps(s, s');
    if UpStep(t, t') {
      UpStepKeeps(t, t');
      ReadRunsStay(t, t');
    }
  }

  // What a step that lists nothing adds to the extra tables.
  function QuietAnchor(s: State, a: Anchor, s': State): Anchor {
    var top := if s.pc.Applied? && (s'.pc.TableWritten? || s'.disk.files != s.disk.files)
      then {Naming.NextName(s.l0)} else a.top;
    var below := if s.pc.Compacting? && s'.pc.Compacting? && |s.pc.written| < |s'.pc.written|
      then a.below + {s'.pc.written[|s.pc.written|]} else a.below;
    a.(top := top, below := below)
  }

  lemma QuietLoose(s: State, a: Anchor, s': State)
    requires Loose(s.disk.files, 0, s.disk.l0, a.l0, a.top) && Loose(s.disk.files, 1, s.disk.l1, a.l1, a.below)
    requires TopOk(s, a) && UpStep(s, s') && Named(s, s') && !Lists(s, s')
    ensures var a' := QuietAnchor(s, a, s');
            && Loose(s'.disk.files, 0, s'.disk.l0, a.l0, a'.top) && Loose(s'.disk.files, 1, s'.disk.l1, a.l1, a'.below)
  {
    QuietLists(s, s');
    var a', files, files' := QuietAnchor(s, a, s'), s.disk.files, s'.disk.files;
    hide Loose, UpStep;
    forall x | Id(0, x) in files' ensures Id(0, x) in files || x in a'.top { QuietFiles(s, s', Id(0, x)); }
    forall x | Id(1, x) in files' ensures Id(1, x) in files || x in a'.below { QuietFiles(s, s', Id(1, x)); }
    LooseKept(files, files', 0, s.disk.l0, a.l0, a.top, a'.top);
    LooseKept(files, files', 1, s.disk.l1, a.l1, a.below, a'.below);
  }

  lemma QuietTop(s: State, a: Anchor, s': State)
    requires TopOk(s, a) && UpStep(s, s') && Named(s, s') && !Lists(s, s')
    ensures TopOk(s', QuietAnchor(s, a, s'))
  {
    QuietLists(s, s');
    var a' := QuietAnchor(s, a, s');
    hide Compacts, Writable;
    if s.pc.Applied? && a'.top != a.top {
      if n :| WriteTable(s, s', n) {
      } else {
        var n, left :| FlushFails(s, s', n, left);
        var next := Naming.NextName(s.l0);
        assert s'.disk.files[Id(0, n)] == s.mem && s'.disk.files[Id(0, next)] == s.mem;
        assert n == next;
      }
    }
  }

  // What a memtable says is right, as it is what readers see.
  lemma MemIsRight(s: State, kept: seq<Write>, a: Anchor, key: bytes)
    requires ViewIsMap(Twin(s, kept, a)) && Lookup(s.mem, key).Some?
    ensures Lookup(s.mem, key) == LastWrite(kept, key)
  {
    assert View(Twin(s, kept, a), key) == LastWrite(kept, key);
  }

  lemma QuietLog(s: State, kept: seq<Write>, s': State, key: bytes)
    requires UpStep(s, s') && !Lists(s, s') && BeforeListing(s.pc)
    requires Lookup(Replay(s'.disk.wal), key) == None
    ensures Lookup(Replay(s.disk.wal), key) == None
    ensures LastWrite(kept + Taken(s, s') + InFlight(s'.pc), key) == LastWrite(kept + InFlight(s.pc), key)
  {
    if w :| LogWrite(s, s', w) {
      assert s'.disk.wal[..|s.disk.wal|] == s.disk.wal && (kept + [w])[..|kept|] == kept;
      assert kept + [] == kept;
      ReplayIsLastWrite(s.disk.wal, key);
      UpsertLookup(Replay(s.disk.wal), w, key);
    } else {
      SameLog(s, s');
      assert kept + Taken(s, s') + InFlight(s'.pc) == kept + (Taken(s, s') + InFlight(s'.pc));
    }
  }

  lemma SameLog(s: State, s': State)
    requires UpStep(s, s') && !Lists(s, s') && BeforeListing(s.pc) && !exists w :: LogWrite(s, s', w)
    ensures s'.disk.wal == s.disk.wal && Taken(s, s') + InFlight(s'.pc) == InFlight(s.pc)
  {
    hide Compacts, Writable;
  }

  // A new extra table holds the memtable, or the next chunk; the others are as they were.
  lemma TopFiles(s: State, a: Anchor, s': State, x: bytes)
    requires UpStep(s, s') && Named(s, s') && !Lists(s, s')
    requires x in QuietAnchor(s, a, s').top && Id(0, x) in s'.disk.files
    ensures || (s.pc.Applied? && s'.disk.files[Id(0, x)] == s.mem)
            || (x in a.top && Id(0, x) in s.disk.files && s'.disk.files[Id(0, x)] == s.disk.files[Id(0, x)])
  {
    if x in a.top && !s.pc.Applied? {
      QuietFiles(s, s', Id(0, x));
    } else if s'.pc.TableWritten? {
      NewTable(s, s');
    }
  }

  lemma NewTable(s: State, s': State)
    requires UpStep(s, s') && s'.pc.TableWritten?
    ensures Id(0, s'.pc.name) in s'.disk.files && s'.disk.files[Id(0, s'.pc.name)] == s.mem
  {
    hide Compacts, Writable;
  }

  lemma BelowFiles(s: State, a: Anchor, s': State, x: bytes)
    requires UpStep(s, s') && Named(s, s') && !Lists(s, s')
    requires x in QuietAnchor(s, a, s').below && Id(1, x) in s'.disk.files
    ensures || WritesChunk(s, s'.disk.files[Id(1, x)])
            || (x in a.below && Id(1, x) in s.disk.files && s'.disk.files[Id(1, x)] == s.disk.files[Id(1, x)])
  {
    QuietFiles(s, s', Id(1, x));
  }

  lemma QuietTopRight(s: State, kept: seq<Write>, a: Anchor, s': State)
    requires TopRight(s, kept, a.top) && TopOk(s, a) && ViewIsMap(Twin(s, kept, a))
    requires UpStep(s, s') && Named(s, s') && !Lists(s, s')
    ensures TopRight(s', kept + Taken(s, s'), QuietAnchor(s, a, s').top)
  {
    var a', kept', files' := QuietAnchor(s, a, s'), kept + Taken(s, s'), s'.disk.files;
    hide UpStep, Named, ViewIsMap;
    forall x, key | x in a'.top && Id(0, x) in files' && Lookup(Replay(s'.disk.wal), key) == None
                    && Lookup(files'[Id(0, x)], key).Some?
      ensures Lookup(files'[Id(0, x)], key) == LastWrite(kept' + InFlight(s'.pc), key)
    {
      QuietLog(s, kept, s', key);
      TopFiles(s, a, s', x);
      if s.pc.Applied? {
        assert kept + InFlight(s.pc) == kept;
        if files'[Id(0, x)] == s.mem { MemIsRight(s, kept, a, key); }
      }
    }
  }

  // The next chunk says what level 1 says, unless level 0 overrides it.
  lemma ChunkIsRight(s: State, run: Run, key: bytes)
    requires Live(s) && WritesChunk(s, run) && Lookup(run, key).Some?
    requires ScanNewest(Runs(s.disk.files, 0, s.l0), key) == None
    ensures Lookup(run, key) == ScanNewest(Runs(s.disk.files, 1, s.l1), key)
  {
    var chunks, i := s.pc.chunks, |s.pc.written|;
    OnePieceHolds(chunks, i, key);
    ScanChunks(chunks, key);
    ScanHit(chunks, i, key);
    assert Lookup(Flatten(chunks), key)
        == StoreLookup(Runs(s.disk.files, 0, s.l0), Runs(s.disk.files, 1, s.l1), key);
  }

  lemma QuietBelow(s: State, a: Anchor, s': State)
    requires BelowRight(s.disk.files, a) && Live(s) && (s.pc.Compacting? ==> a.l0 == s.l0 && a.l1 == s.l1)
    requires UpStep(s, s') && Named(s, s') && !Lists(s, s')
    requires Runs(s'.disk.files, 0, a.l0) == Runs(s.disk.files, 0, a.l0)
    requires Runs(s'.disk.files, 1, a.l1) == Runs(s.disk.files, 1, a.l1)
    ensures BelowRight(s'.disk.files, QuietAnchor(s, a, s'))
  {
    var a', files' := QuietAnchor(s, a, s'), s'.disk.files;
    hide Runs, Live, UpStep, Named;
    forall x, key | x in a'.below && Id(1, x) in files' && ScanNewest(Runs(files', 0, a'.l0), key) == None
                    && Lookup(files'[Id(1, x)], key).Some?
      ensures Lookup(files'[Id(1, x)], key) == ScanNewest(Runs(files', 1, a'.l1), key)
    {
      BelowFiles(s, a, s', x);
      if WritesChunk(s, files'[Id(1, x)]) {
        ChunkIsRight(s, files'[Id(1, x)], key);
      }
    }
  }

  lemma QuietKeeps(s: State, kept: seq<Write>, a: Anchor, s': State)
    requires Adrift(s, kept, a) && UpStep(s, s') && Named(s, s') && !Lists(s, s')
    ensures Adrift(s', kept + Taken(s, s'), QuietAnchor(s, a, s'))
  {
    var a' := QuietAnchor(s, a, s');
    TwinKept(s, kept, a, s', a');
    QuietLoose(s, a, s');
    QuietTop(s, a, s');
    QuietTopRight(s, kept, a, s');
    QuietBelow(s, a, s');
    QuietLists(s, s');
    HowReached(s, s');
    hide UpStep, LiveStep, Named, Loose, Inv, Live, TopRight, BelowRight, TopOk;
  }

  function ListAnchor(s: State, a: Anchor): Anchor
    requires s.pc.TableWritten?
  {
    a.(l0 := a.l0 + [s.pc.name], top := {})
  }

  lemma ListLoose(s: State, a: Anchor, s': State)
    requires Loose(s.disk.files, 0, s.disk.l0, a.l0, a.top) && Loose(s.disk.files, 1, s.disk.l1, a.l1, a.below)
    requires TopOk(s, a) && ListTable(s, s') && (a.split ==> SplitOk(s, a))
    ensures var a' := ListAnchor(s, a);
            && Loose(s'.disk.files, 0, s'.disk.l0, a'.l0, {}) && Loose(s'.disk.files, 1, s'.disk.l1, a.l1, a.below)
    ensures a.split ==> SplitOk(s', ListAnchor(s, a))
  {
    LooseSnoc(s.disk.files, 0, s.disk.l0, a.l0, a.top, s.pc.name);
    hide Loose;
    if a.split {
      assert s'.l0[COMPACTION_THRESHOLD..] == a.l0 + [s.pc.name];
    }
  }

  lemma ListKeeps(s: State, kept: seq<Write>, a: Anchor, s': State)
    requires Adrift(s, kept, a) && UpStep(s, s') && ListTable(s, s')
    ensures Adrift(s', kept + Taken(s, s'), ListAnchor(s, a))
  {
    TwinKept(s, kept, a, s', ListAnchor(s, a));
    ListLoose(s, a, s');
    ListBelow(s, a);
    hide UpStep, Loose, Inv, Live, BelowRight, SplitOk;
  }

  lemma ListBelow(s: State, a: Anchor)
    requires BelowRight(s.disk.files, a) && s.pc.TableWritten? && Id(0, s.pc.name) in s.disk.files
    ensures BelowRight(s.disk.files, ListAnchor(s, a))
  {
    var a', files := ListAnchor(s, a), s.disk.files;
    hide Runs;
    forall x, key | x in a'.below && Id(1, x) in files && ScanNewest(Runs(files, 0, a'.l0), key) == None
                    && Lookup(files[Id(1, x)], key).Some?
      ensures Lookup(files[Id(1, x)], key) == ScanNewest(Runs(files, 1, a'.l1), key)
    {
      RunsSnoc(files, 0, a.l0, s.pc.name, key);
    }
  }

  // A compaction that is published puts manifest and memory together again.
  lemma PublishKeeps(s: State, kept: seq<Write>, a: Anchor, s': State)
    requires Adrift(s, kept, a) && UpStep(s, s') && Publish(s, s')
    ensures Adrift(s', kept + Taken(s, s'), a.(l0 := [], l1 := s'.l1, top := {}, below := {}))
  {
    var a' := a.(l0 := [], l1 := s'.l1, top := {}, below := {});
    TwinKept(s, kept, a, s', a');
    var written := s'.l1;
    assert AllThere(s'.disk.files, 1, written);
    NothingPruned(s'.disk.files, 1, written);
    LooseSelf(s'.disk.files, 1, written, {});
    hide UpStep, Inv, Live;
  }

  lemma TwinUnlisted(s: State, kept: seq<Write>, a: Anchor, s': State, left: bool)
    requires Live(s) && Inv(Twin(s, kept, a)) && ListingUnsynced(s, s', left)
    ensures Live(s') && Inv(Twin(s', kept, a))
    ensures var files, files' := s.disk.files, s'.disk.files;
            Runs(files', 0, a.l0) == Runs(files, 0, a.l0) && Runs(files', 1, a.l1) == Runs(files, 1, a.l1)
  {
    var t, t' := Twin(s, kept, a), Twin(s', kept, a);
    assert ListingFails(t, t', left) && UpStep(t, t') && LiveStep(s, s');
    hide UpStep, LiveStep;
    UpStepKeeps(t, t');
    ReadRunsStay(t, t');
    LiveStepKeeps(s, s');
  }

  lemma UnlistedLoose(s: State, a: Anchor, s': State, left: bool)
    requires Loose(s.disk.files, 0, s.disk.l0, a.l0, a.top) && Loose(s.disk.files, 1, s.disk.l1, a.l1, a.below)
    requires TopOk(s, a) && ListingUnsynced(s, s', left)
    ensures Loose(s'.disk.files, 0, s'.disk.l0, a.l0, a.top) && Loose(s'.disk.files, 1, s'.disk.l1, a.l1, a.below)
  {
    var name, files, files' := s.pc.name, s.disk.files, s'.disk.files;
    LooseSnoc(files, 0, s.disk.l0, a.l0, a.top, name);
    assert a.top + {name} == a.top;
    LooseKept(files, files', 0, s.disk.l0 + [name], a.l0, a.top, a.top);
    LooseKept(files, files', 1, s.disk.l1, a.l1, a.below, a.below);
  }

  lemma ListingUnsyncedKeeps(s: State, kept: seq<Write>, a: Anchor, s': State, left: bool)
    requires Adrift(s, kept, a) && ListingUnsynced(s, s', left)
    ensures Adrift(s', kept, a.(extra := a.extra + 1))
  {
    TwinUnlisted(s, kept, a, s', left);
    UnlistedLoose(s, a, s', left);
    hide Inv, Live, Loose, Runs;
  }

  // ---------- The compaction that memory takes for failed ----------

  lemma {:induction false} SurvivingAnswers(writes: seq<Write>, s: State, removed: set<Id>, key: bytes)
    requires s.pc.Compacting? && |s.pc.written| == |s.pc.chunks|
    ensures LastWrite(Surviving(writes, s, removed), key) ==
            if LostWith(s, removed, key) then None else LastWrite(writes, key)
  {
    hide LostWith;
    if writes != [] {
      var init, last := writes[..|writes| - 1], writes[|writes| - 1];
      SurvivingAnswers(init, s, removed, key);
      var before := Surviving(init, s, removed);
      assert (before + [last])[..|before|] == before;
    }
  }

  lemma {:induction false} NothingRemovedAllSurvive(writes: seq<Write>, s: State)
    requires s.pc.Compacting? && |s.pc.written| == |s.pc.chunks|
    ensures Surviving(writes, s, {}) == writes
  {
    if writes != [] {
      NothingRemovedAllSurvive(writes[..|writes| - 1], s);
      assert !LostWith(s, {}, writes[|writes| - 1].K);
    }
  }

  function SplitAnchor(s': State, a: Anchor): Anchor {
    Anchor([], Pruned(s'.disk.files, 1, s'.disk.l1), true, {}, {}, a.extra)
  }

  lemma SplitTwin(s: State, kept: seq<Write>, a: Anchor, s': State, kept': seq<Write>, removed: set<Id>)
    requires Inv(Twin(s, kept, a)) && Loses(s, kept, s', kept', removed) && Live(s')
    ensures Inv(Twin(s', kept', SplitAnchor(s', a)))
  {
    var a' := SplitAnchor(s', a);
    var t, t', end := Twin(s, kept, a), Twin(s', kept', a'), Twin(s', kept, a).(disk := s'.disk);
    assert PublishUnsynced(t, end, removed);
    assert s'.disk.wal == [] && s'.mem == [];
    PrunedThere(s'.disk.files, 1, s'.disk.l1);
    assert kept' + InFlight(t'.pc) == kept';
    forall key
      ensures View(t', key) == LastWrite(kept', key)
      ensures Overlay(Replay(t'.disk.wal), t'.disk.files, a'.l0, a'.l1, key) == LastWrite(kept', key)
    {
      UnsyncedPublishLosesExactly(t, end, removed, key);
      SurvivingAnswers(kept, s, removed, key);
      assert LostWith(t, removed, key) == LostWith(s, removed, key);
      assert Pruned(s'.disk.files, 0, []) == [];
    }
  }

  lemma PublishUnsyncedKeeps(s: State, kept: seq<Write>, a: Anchor, s': State, kept': seq<Write>, removed: set<Id>)
    requires Adrift(s, kept, a) && Loses(s, kept, s', kept', removed)
    ensures Adrift(s', kept', SplitAnchor(s', a))
  {
    assert LiveStep(s, s');
    LiveStepKeeps(s, s');
    SplitTwin(s, kept, a, s', kept', removed);
    LooseSelf(s'.disk.files, 1, s'.disk.l1, {});
    assert !a.split;
    hide LiveStep, Loose, Inv, Live, LostWith;
  }

  // ---------- Crashes ----------

  lemma RestartKeeps(s: State, kept: seq<Write>, a: Anchor, s': State, kept': seq<Write>)
    requires Adrift(s, kept, a) && Restarts(s, kept, s', kept')
    ensures Adrift(s', kept', Anchor(s'.l0, s'.l1, false, {}, {}, a.extra))
  {
    var a', files := Anchor(s'.l0, s'.l1, false, {}, {}, a.extra), s.disk.files;
    forall key ensures LastWrite(kept', key) == Recovered(s.disk, key) { AdriftAnswers(s, kept, a, key); }
    RestartIsLive(s.disk, kept');
    LooseSelf(files, 0, s.disk.l0, {});
    LooseSelf(files, 1, s.disk.l1, {});
    LooseShorter(files, 0, s.disk.l0, a.l0, a.top);
    RestartedTwin(s', a');
    hide Loose, Inv, Live;
  }

  // What is left after dropping what is gone is no shorter than the tables that are all there.
  lemma {:induction false} LooseShorter(files: map<Id, Run>, level: nat, d: seq<bytes>, b: seq<bytes>, m: set<bytes>)
    requires Loose(files, level, d, b, m)
    ensures AllThere(files, level, b) ==> |b| <= |Pruned(files, level, d)|
  {
    if d != [] && AllThere(files, level, b) {
      var x, init := d[|d| - 1], d[..|d| - 1];
      if b != [] && b[|b| - 1] == x && Loose(files, level, init, b[..|b| - 1], m + {x}) {
        assert Id(level, b[|b| - 1]) in files;
        LooseShorter(files, level, init, b[..|b| - 1], m + {x});
      } else {
        LooseShorter(files, level, init, b, m);
      }
    }
  }

  lemma RestartedTwin(s: State, a: Anchor)
    requires Live(s) && s.pc.Idle? && s.mem == Replay(s.disk.wal) && a.l0 == s.l0 && a.l1 == s.l1
    ensures Inv(Twin(s, s.done, a))
  {
    var t := Twin(s, s.done, a);
    assert t.done + InFlight(t.pc) == t.done;
    forall key
      ensures Overlay(Replay(t.disk.wal), t.disk.files, t.disk.l0, t.disk.l1, key) ==
              LastWrite(t.done + InFlight(t.pc), key)
    {
      assert View(t, key) == LastWrite(t.done, key);
    }
  }
}
