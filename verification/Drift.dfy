// What becomes of the map when manifests were renamed into place but could not be synced, and the engine goes on.

module Drift {
  import opened Base
  import opened Lsm
  import opened Tables
  import opened Machine
  import opened Memory
  import opened Safety
  import opened Faults
  import opened Anchors
  import opened DriftSteps

  // ---------- All runs ----------

  ghost predicate Unsynced(s: State, s': State) {
    exists left :: ListingUnsynced(s, s', left)
  }

  lemma DriftStepKeeps(s: State, kept: seq<Write>, a: Anchor, s': State, kept': seq<Write>) returns (a': Anchor)
    requires Adrift(s, kept, a) && DriftStep(s, kept, s', kept')
    ensures Adrift(s', kept', a') && a'.extra == a.extra + if Unsynced(s, s') then 1 else 0
  {
    hide Adrift, UpStep, Named, Restarts, Surviving;
    if left :| ListingUnsynced(s, s', left) {
      a' := a.(extra := a.extra + 1);
      ListingUnsyncedKeeps(s, kept, a, s', left);
      OnlyUnsynced(s, kept, s', kept');
    } else if removed :| Loses(s, kept, s', kept', removed) {
      a' := SplitAnchor(s', a);
      PublishUnsyncedKeeps(s, kept, a, s', kept', removed);
    } else if Restarts(s, kept, s', kept') {
      a' := Anchor(s'.l0, s'.l1, false, {}, {}, a.extra);
      RestartKeeps(s, kept, a, s', kept');
    } else if ListTable(s, s') {
      a' := ListAnchor(s, a);
      ListKeeps(s, kept, a, s');
    } else if Publish(s, s') {
      a' := a.(l0 := [], l1 := s'.l1, top := {}, below := {});
      PublishKeeps(s, kept, a, s');
    } else {
      a' := QuietAnchor(s, a, s');
      QuietKeeps(s, kept, a, s');
    }
  }

  // A listing that is left unsynced is no other step at the same time, but for the history.
  lemma OnlyUnsynced(s: State, kept: seq<Write>, s': State, kept': seq<Write>)
    requires Unsynced(s, s') && DriftStep(s, kept, s', kept')
    ensures kept' == kept
  {
    hide Compacts, Writable, Surviving;
    assert kept + [] == kept;
  }

  ghost predicate DriftRun(trace: seq<State>, kept: seq<seq<Write>>) {
    && |trace| == |kept| > 0
    && Inv(trace[0]) && trace[0].pc.Idle? && kept[0] == trace[0].done
    && forall i :: 0 <= i < |trace| - 1 ==> DriftStep(trace[i], kept[i], trace[i + 1], kept[i + 1])
  }

  ghost function UnsyncedCount(trace: seq<State>, i: nat): nat
    requires i < |trace|
  {
    if i == 0 then 0 else UnsyncedCount(trace, i - 1) + if Unsynced(trace[i - 1], trace[i]) then 1 else 0
  }

  lemma StartsAdrift(s: State) returns (a: Anchor)
    requires Inv(s) && s.pc.Idle?
    ensures Adrift(s, s.done, a) && a.extra == 0
  {
    a := Anchor(s.l0, s.l1, false, {}, {}, 0);
    NothingPruned(s.disk.files, 0, s.disk.l0);
    NothingPruned(s.disk.files, 1, s.disk.l1);
    LooseSelf(s.disk.files, 0, s.disk.l0, {});
    LooseSelf(s.disk.files, 1, s.disk.l1, {});
    assert Twin(s, s.done, a) == s;
  }

  lemma {:induction false} DriftRunKeeps(trace: seq<State>, kept: seq<seq<Write>>, i: nat) returns (a: Anchor)
    requires DriftRun(trace, kept) && i < |trace|
    ensures Adrift(trace[i], kept[i], a) && a.extra == UnsyncedCount(trace, i)
  {
    hide DriftStep, Adrift, Inv, Unsynced;
    if i == 0 {
      a := StartsAdrift(trace[0]);
    } else {
      a := DriftRunKeeps(trace, kept, i - 1);
      a := DriftStepKeeps(trace[i - 1], kept[i - 1], a, trace[i], kept[i]);
    }
  }

  // Main result. However the engine goes on after manifests that could not be synced, through flushes, compactions,
  // further failures, crashes and restarts: readers see all that has taken effect, and at every moment a restart
  // finds exactly the writes that the disk has kept, and the one in flight. It counts at most one level-0 table too
  // many for each listing that was left unsynced.
  lemma DriftIsExact(trace: seq<State>, kept: seq<seq<Write>>, i: nat, key: bytes)
    requires DriftRun(trace, kept) && i < |trace|
    ensures View(trace[i], key) == LastWrite(trace[i].done, key)
    ensures Recovered(trace[i].disk, key) == LastWrite(kept[i] + InFlight(trace[i].pc), key)
    ensures |Pruned(trace[i].disk.files, 0, trace[i].disk.l0)| <= |trace[i].l0| + UnsyncedCount(trace, i)
  {
    var a := DriftRunKeeps(trace, kept, i);
    AdriftAnswers(trace[i], kept[i], a, key);
    PrunedShorter(trace[i].disk.files, 0, trace[i].disk.l0);
  }

  lemma {:induction false} PrunedShorter(files: map<Id, Run>, level: nat, names: seq<bytes>)
    ensures |Pruned(files, level, names)| <= |names|
  {
    if names != [] {
      PrunedShorter(files, level, names[..|names| - 1]);
    }
  }

  // ---------- What the disk has kept ----------

  ghost predicate RemovesNothing(s: State, s': State) {
    forall removed :: PublishUnsynced(s, s', removed) ==> removed == {}
  }

  // No cleanup between these two moments removes a table that the manifest names.
  ghost predicate NothingRemoved(trace: seq<State>, i: nat, j: nat)
    requires i <= j < |trace|
  {
    forall k :: i <= k < j ==> RemovesNothing(trace[k], trace[k + 1])
  }

  lemma KeptStep(s: State, kept: seq<Write>, s': State, kept': seq<Write>)
    requires DriftStep(s, kept, s', kept')
    requires RemovesNothing(s, s')
    ensures kept <= kept' && (kept == s.done ==> kept' == s'.done)
  {
    if removed :| Loses(s, kept, s', kept', removed) {
      NothingRemovedAllSurvive(kept, s);
    }
  }

  lemma {:induction false} KeptGrows(trace: seq<State>, kept: seq<seq<Write>>, i: nat, j: nat)
    requires DriftRun(trace, kept) && i <= j < |trace| && NothingRemoved(trace, i, j)
    ensures kept[i] <= kept[j] && (kept[i] == trace[i].done ==> kept[j] == trace[j].done)
  {
    hide DriftStep, Inv, RemovesNothing;
    if i < j {
      KeptGrows(trace, kept, i, j - 1);
      KeptStep(trace[j - 1], kept[j - 1], trace[j], kept[j]);
    }
  }

  // As long as no cleanup removes a table that the manifest names, a restart finds
  // everything.
  lemma DriftIsHarmless(trace: seq<State>, kept: seq<seq<Write>>, i: nat, key: bytes)
    requires DriftRun(trace, kept) && i < |trace| && NothingRemoved(trace, 0, i)
    ensures kept[i] == trace[i].done
    ensures Recovered(trace[i].disk, key) == LastWrite(trace[i].done + InFlight(trace[i].pc), key)
  {
    KeptGrows(trace, kept, 0, i);
    DriftIsExact(trace, kept, i, key);
  }

  lemma {:induction false} LastWriteJoin(before: seq<Write>, later: seq<Write>, key: bytes)
    ensures LastWrite(before + later, key) ==
            if LastWrite(later, key).Some? then LastWrite(later, key) else LastWrite(before, key)
  {
    if later == [] {
      assert before + later == before;
    } else {
      assert (before + later)[..|before + later| - 1] == before + later[..|later| - 1];
      LastWriteJoin(before, later[..|later| - 1], key);
    }
  }

  // What such a cleanup costs, at any later time: exactly the keys in new tables that it removed, until they are
  // written again.
  lemma LossIsExact(trace: seq<State>, kept: seq<seq<Write>>, i: nat, j: nat, removed: set<Id>, key: bytes)
    requires DriftRun(trace, kept) && i < j < |trace| && NothingRemoved(trace, 0, i) && NothingRemoved(trace, i + 1, j)
    requires PublishUnsynced(trace[i], trace[i + 1], removed)
    ensures kept[i + 1] <= kept[j]
    ensures var later := kept[j][|kept[i + 1]|..] + InFlight(trace[j].pc);
            Recovered(trace[j].disk, key) ==
              if LastWrite(later, key).Some? then LastWrite(later, key)
              else if LostWith(trace[i], removed, key) then None
              else LastWrite(trace[i].done, key)
  {
    hide DriftStep, LostWith, Inv, Adrift, RemovesNothing, Recovered, LastWrite;
    KeptGrows(trace, kept, 0, i);
    KeptGrows(trace, kept, i + 1, j);
    DriftIsExact(trace, kept, j, key);
    var a := DriftRunKeeps(trace, kept, i);
    LossStep(trace[i], kept[i], a, trace[i + 1], kept[i + 1], removed, key);
    var before := kept[i + 1];
    assert kept[j] + InFlight(trace[j].pc) == before + (kept[j][|before|..] + InFlight(trace[j].pc));
    LastWriteJoin(before, kept[j][|before|..] + InFlight(trace[j].pc), key);
  }

  lemma LossStep(s: State, kept: seq<Write>, a: Anchor, s': State, kept': seq<Write>, removed: set<Id>, key: bytes)
    requires Adrift(s, kept, a) && DriftStep(s, kept, s', kept') && PublishUnsynced(s, s', removed)
    ensures LastWrite(kept', key) == if LostWith(s, removed, key) then None else LastWrite(kept, key)
  {
    OnlyLoses(s, kept, a, s', kept', removed);
    SurvivingAnswers(kept, s, removed, key);
  }

  // It is no other step at the same time.
  lemma OnlyLoses(s: State, kept: seq<Write>, a: Anchor, s': State, kept': seq<Write>, removed: set<Id>)
    requires Adrift(s, kept, a) && DriftStep(s, kept, s', kept') && PublishUnsynced(s, s', removed)
    ensures Loses(s, kept, s', kept', removed)
  {
    assert !a.split && a.l0 != [] && s.disk.l0 != [];
    assert removed <= s.disk.files.Keys && removed == s.disk.files.Keys - s'.disk.files.Keys;
    hide Adrift, Loose, Compacts, Writable, Surviving, LostWith;
    assert !UpStep(s, s');
    if other :| Loses(s, kept, s', kept', other) {
      assert other <= Ids(1, s.pc.written) && other == s.disk.files.Keys - s'.disk.files.Keys;
    }
  }

  // The count does go up: when a flush goes through after one whose listing was left unsynced, its table is named
  // twice, and a restart counts it twice.
  lemma RestartCountsTwice(s: State, kept: seq<Write>, a: Anchor, s': State, down: State, up: State)
    requires Adrift(s, kept, a) && ListTable(s, s') && s.disk.l0 == s.l0 + [s.pc.name]
    requires Crash(s', down) && Recover(down, up)
    ensures |up.l0| == |s'.l0| + 1
  {
    var files, name := s.disk.files, s.pc.name;
    hide Inv, Loose, TopRight, BelowRight, TopOk, SplitOk, ViewIsMap, FilesSorted, Runs;
    assert s'.disk.l0 == s.l0 + [name] + [name] && AllThere(files, 0, s'.disk.l0);
    NothingPruned(files, 0, s'.disk.l0);
  }
}
