// When a manifest was renamed into place but could not be synced, it names tables that memory does not know of, or
// memory reads tables that it no longer names. What the two have in common all the same.

module Anchors {
  import opened Base
  import opened Lsm
  import opened Tables
  import opened Machine
  import opened Memory
  import opened Safety
  import opened Faults
  import Naming

  // ---------- A manifest that names more than there is ----------

  // The list d is b with more names in between: names whose file is gone, and names in m or behind which the same
  // name comes again.
  predicate Loose(files: map<Id, Run>, level: nat, d: seq<bytes>, b: seq<bytes>, m: set<bytes>) {
    if d == [] then b == []
    else
      var x, n := d[|d| - 1], |d| - 1;
      || (b != [] && b[|b| - 1] == x && Loose(files, level, d[..n], b[..|b| - 1], m + {x}))
      || ((Id(level, x) !in files || x in m) && Loose(files, level, d[..n], b, m))
  }

  lemma {:induction false} LooseKept(files: map<Id, Run>, files': map<Id, Run>, level: nat,
                                     d: seq<bytes>, b: seq<bytes>, m: set<bytes>, m': set<bytes>)
    requires Loose(files, level, d, b, m) && m <= m'
    requires forall x :: Id(level, x) in files' ==> Id(level, x) in files || x in m'
    ensures Loose(files', level, d, b, m')
  {
    if d != [] {
      var x, n := d[|d| - 1], |d| - 1;
      if b != [] && b[|b| - 1] == x && Loose(files, level, d[..n], b[..|b| - 1], m + {x}) {
        LooseKept(files, files', level, d[..n], b[..|b| - 1], m + {x}, m' + {x});
      } else {
        LooseKept(files, files', level, d[..n], b, m, m');
      }
    }
  }

  lemma {:induction false} LooseSelf(files: map<Id, Run>, level: nat, d: seq<bytes>, m: set<bytes>)
    ensures Loose(files, level, d, Pruned(files, level, d), m)
  {
    if d != [] {
      var x, init := d[|d| - 1], d[..|d| - 1];
      var kept := Pruned(files, level, init);
      LooseSelf(files, level, init, m);
      LooseSelf(files, level, init, m + {x});
      assert (kept + [x])[..|kept|] == kept;
    }
  }

  lemma LooseSnoc(files: map<Id, Run>, level: nat, d: seq<bytes>, b: seq<bytes>, m: set<bytes>, x: bytes)
    requires Loose(files, level, d, b, m)
    ensures m <= {x} ==> Loose(files, level, d + [x], b + [x], {})
    ensures Loose(files, level, d + [x], b, m + {x})
  {
    assert (d + [x])[..|d|] == d && (b + [x])[..|b|] == b;
    if m <= {x} {
      LooseKept(files, files, level, d, b, m, {} + {x});
    }
    LooseKept(files, files, level, d, b, m, m + {x});
  }

  ghost predicate FromExtra(files: map<Id, Run>, level: nat, m: set<bytes>, key: bytes, v: Option<StorageEntry>) {
    v.Some? && exists x :: x in m && Id(level, x) in files && Lookup(files[Id(level, x)], key) == v
  }

  lemma RunsSnoc(files: map<Id, Run>, level: nat, names: seq<bytes>, x: bytes, key: bytes)
    requires Id(level, x) in files
    ensures Runs(files, level, names + [x]) == Runs(files, level, names) + [files[Id(level, x)]]
    ensures ScanNewest(Runs(files, level, names + [x]), key) ==
            var hit := Lookup(files[Id(level, x)], key);
            if hit.Some? then hit else ScanNewest(Runs(files, level, names), key)
  {
    assert Runs(files, level, names + [x]) == Runs(files, level, names) + [files[Id(level, x)]];
    ScanSnoc(Runs(files, level, names), files[Id(level, x)], key);
  }

  // The loose list answers as the tight one does, or out of an extra table.
  lemma {:induction false} LooseScan(files: map<Id, Run>, level: nat, d: seq<bytes>, b: seq<bytes>, m: set<bytes>,
                                     key: bytes)
    requires Loose(files, level, d, b, m) && AllThere(files, level, b)
    ensures var v := ScanNewest(Runs(files, level, Pruned(files, level, d)), key);
            v == ScanNewest(Runs(files, level, b), key) || FromExtra(files, level, m, key, v)
  {
    if d != [] {
      var x, init := d[|d| - 1], d[..|d| - 1];
      if Id(level, x) in files {
        RunsSnoc(files, level, Pruned(files, level, init), x, key);
      }
      if b != [] && b[|b| - 1] == x && Loose(files, level, init, b[..|b| - 1], m + {x}) {
        assert b == b[..|b| - 1] + [x] && Id(level, b[|b| - 1]) in files;
        RunsSnoc(files, level, b[..|b| - 1], x, key);
        LooseScan(files, level, init, b[..|b| - 1], m + {x}, key);
      } else {
        LooseScan(files, level, init, b, m, key);
      }
    }
  }

  // ---------- The state of an engine adrift ----------

  // What the disk's lists come down to, and what there may be beside them: on level 0 the table of a listing that
  // was not synced, on level 1 tables that happen to have the name of one that is gone. When split, memory still
  // reads the tables of a compaction whose result the manifest has.
  datatype Anchor = Anchor(l0: seq<bytes>, l1: seq<bytes>, split: bool, top: set<bytes>, below: set<bytes>, extra: nat)

  // The engine that would go on from the disk's lists: kept are the writes that the disk holds.
  function Twin(s: State, kept: seq<Write>, a: Anchor): State {
    s.(disk := s.disk.(l0 := a.l0, l1 := a.l1), l0 := a.l0, l1 := a.l1, done := kept)
  }

  // Unless the log overrides it, what an extra table of level 0 says is right.
  ghost predicate TopRight(s: State, kept: seq<Write>, top: set<bytes>) {
    forall x, key :: x in top && Id(0, x) in s.disk.files && Lookup(Replay(s.disk.wal), key) == None
                     && Lookup(s.disk.files[Id(0, x)], key).Some? ==>
      Lookup(s.disk.files[Id(0, x)], key) == LastWrite(kept + InFlight(s.pc), key)
  }

  // Unless level 0 overrides it, what an extra table of level 1 says is what level 1 says.
  ghost predicate BelowRight(files: map<Id, Run>, a: Anchor) {
    forall x, key :: x in a.below && Id(1, x) in files && ScanNewest(Runs(files, 0, a.l0), key) == None
                     && Lookup(files[Id(1, x)], key).Some? ==>
      Lookup(files[Id(1, x)], key) == ScanNewest(Runs(files, 1, a.l1), key)
  }

  // Where the flush has not listed its table yet.
  predicate BeforeListing(pc: Pc) {
    pc.Idle? || pc.Logged? || pc.Applied? || pc.TableWritten?
  }

  ghost predicate TopOk(s: State, a: Anchor) {
    && (forall x :: x in a.top ==> x == Naming.NextName(s.l0) && x !in s.l0)
    && (a.top != {} ==> BeforeListing(s.pc))
    && (s.pc.TableWritten? ==> s.pc.name in a.top)
  }

  // Memory has the five tables of the compaction in front of what the disk lists, and never compacts again.
  ghost predicate SplitOk(s: State, a: Anchor) {
    && |s.l0| == COMPACTION_THRESHOLD + |a.l0| && s.l0[COMPACTION_THRESHOLD..] == a.l0
    && (BeforeListing(s.pc) || ((s.pc.Listed? || s.pc.Truncated? || s.pc.Cleared?) && a.l0 != []))
  }

  // When not split, the disk's lists come down to those of memory.
  ghost predicate Anchored(s: State, kept: seq<Write>, a: Anchor) {
    if a.split then SplitOk(s, a) else a.l0 == s.l0 && a.l1 == s.l1 && kept == s.done
  }

  ghost predicate Adrift(s: State, kept: seq<Write>, a: Anchor) {
    && Live(s) && Inv(Twin(s, kept, a))
    && Loose(s.disk.files, 0, s.disk.l0, a.l0, a.top) && Loose(s.disk.files, 1, s.disk.l1, a.l1, a.below)
    && TopRight(s, kept, a.top) && BelowRight(s.disk.files, a) && TopOk(s, a)
    && |s.disk.l0| <= |a.l0| + a.extra && (s.pc.Compacting? ==> |s.l0| == COMPACTION_THRESHOLD)
    && Anchored(s, kept, a)
  }

  // Readers see what has taken effect, and a restart finds what the disk has kept.
  lemma AdriftAnswers(s: State, kept: seq<Write>, a: Anchor, key: bytes)
    requires Adrift(s, kept, a)
    ensures View(s, key) == LastWrite(s.done, key)
    ensures Recovered(s.disk, key) == LastWrite(kept + InFlight(s.pc), key)
  {
    var t, files := Twin(s, kept, a), s.disk.files;
    assert Overlay(Replay(t.disk.wal), t.disk.files, a.l0, a.l1, key) == LastWrite(kept + InFlight(s.pc), key);
    LooseScan(files, 0, s.disk.l0, a.l0, a.top, key);
    LooseScan(files, 1, s.disk.l1, a.l1, a.below, key);
    hide Inv, Live, Loose, Lookup, LastWrite;
    var v := ScanNewest(Runs(files, 0, Pruned(files, 0, s.disk.l0)), key);
    if Lookup(Replay(s.disk.wal), key) == None && v != ScanNewest(Runs(files, 0, a.l0), key) {
      var x :| x in a.top && Id(0, x) in files && Lookup(files[Id(0, x)], key) == v;
    }
  }

  // ---------- What can happen ----------

  // A flush takes the name that follows from the tables that memory knows of.
  ghost predicate Named(s: State, s': State) {
    var id := Id(0, Naming.NextName(s.l0));
    && (s'.pc.TableWritten? ==> s'.pc.name == id.name)
    && (s.pc.Applied? ==> s'.disk.files == s.disk.files || s'.disk.files == s.disk.files[id := s.mem])
  }

  // The write that takes effect in this step.
  function Taken(s: State, s': State): seq<Write> {
    if s.pc.Logged? && s'.pc.Applied? then [s.pc.w] else []
  }

  // All writes but those to keys that were removed.
  ghost function Surviving(writes: seq<Write>, s: State, removed: set<Id>): seq<Write>
    requires s.pc.Compacting? && |s.pc.written| == |s.pc.chunks|
  {
    if writes == [] then []
    else
      var init, last := Surviving(writes[..|writes| - 1], s, removed), writes[|writes| - 1];
      if LostWith(s, removed, last.K) then init else init + [last]
  }

  ghost predicate Loses(s: State, kept: seq<Write>, s': State, kept': seq<Write>, removed: set<Id>) {
    PublishUnsynced(s, s', removed) && kept' == Surviving(kept, s, removed)
  }

  // Steps of the machine, failures included; flushes and compactions whose manifest is left unsynced, any number of
  // them; crashes, after which the engine restarts with what the disk holds.
  ghost predicate DriftStep(s: State, kept: seq<Write>, s': State, kept': seq<Write>) {
    || (UpStep(s, s') && Named(s, s') && kept' == kept + Taken(s, s'))
    || ((exists left :: ListingUnsynced(s, s', left)) && kept' == kept)
    || (exists removed :: Loses(s, kept, s', kept', removed))
    || Restarts(s, kept, s', kept')
  }

  // The machine's own crash and restart, but for the history, which is what the disk has kept.
  ghost predicate Restarts(s: State, kept: seq<Write>, s': State, kept': seq<Write>) {
    kept' == kept + InFlight(s.pc) && s' == Restarted(s.disk, kept')
  }

  // As long as there are numbers left, a flush can go on under its name.
  lemma FlushCanGoOn(s: State) returns (s': State)
    requires s.pc.Applied? && |s.mem| == FLUSH_THRESHOLD && Writable(s.mem)
    requires Naming.MaxIndex(s.l0) < Naming.MAX_INT
    ensures UpStep(s, s') && Named(s, s') && s'.pc.TableWritten?
  {
    Naming.FreshName(s.l0);
    var name := Naming.NextName(s.l0);
    s' := s.(pc := TableWritten(name), disk := s.disk.(files := s.disk.files[Id(0, name) := s.mem]));
    assert WriteTable(s, s', name);
  }
}
