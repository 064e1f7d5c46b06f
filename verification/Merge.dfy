// The meaning of the k-way merge: what is still to come, what has been emitted, and why no lookup changes.

module Merge {
  import opened Base
  import opened Lsm
  import opened Heaps

  // The unread part of each source, oldest first; the first l0 of them are level 0, the others level 1.
  type Sources = seq<Run>

  ghost function SourceLookup(sources: Sources, l0: nat, key: bytes): Option<StorageEntry>
    requires l0 <= |sources|
  {
    StoreLookup(sources[..l0], sources[l0..], key)
  }

  function LevelOf(l0: nat, i: nat): nat {
    if i < l0 then 0 else 1
  }

  function ItemOf(e: Entry, l0: nat, i: nat): HeapItem {
    HeapItem(e.K, e.Stored(), i, LevelOf(l0, i))
  }

  ghost function HeadOf(run: Run, l0: nat, i: nat): multiset<HeapItem> {
    if run == [] then multiset{} else multiset{ItemOf(run[0], l0, i)}
  }

  // What the heap holds: one item for each source that is not exhausted.
  ghost function Heads(sources: Sources, l0: nat, n: nat): multiset<HeapItem>
    requires n <= |sources|
  {
    if n == 0 then multiset{} else Heads(sources, l0, n - 1) + HeadOf(sources[n - 1], l0, n - 1)
  }

  lemma {:induction false} HeadsHolds(sources: Sources, l0: nat, n: nat, i: nat)
    requires i < n <= |sources| && sources[i] != []
    ensures ItemOf(sources[i][0], l0, i) in Heads(sources, l0, n)
  {
    if i < n - 1 {
      HeadsHolds(sources, l0, n - 1, i);
    }
  }

  lemma {:induction false} HeadsWitness(sources: Sources, l0: nat, n: nat, x: HeapItem)
    requires n <= |sources| && x in Heads(sources, l0, n)
    ensures x.tableIndex < n && sources[x.tableIndex] != []
    ensures x == ItemOf(sources[x.tableIndex][0], l0, x.tableIndex)
  {
    if x !in HeadOf(sources[n - 1], l0, n - 1) {
      HeadsWitness(sources, l0, n - 1, x);
    }
  }

  lemma {:induction false} HeadsSame(sources: Sources, sources': Sources, l0: nat, n: nat)
    requires n <= |sources| == |sources'| && forall j :: 0 <= j < n ==> sources[j] == sources'[j]
    ensures Heads(sources, l0, n) == Heads(sources', l0, n)
  {
    if n > 0 {
      HeadsSame(sources, sources', l0, n - 1);
    }
  }

  lemma Exchange<T>(a: multiset<T>, x: multiset<T>, b: multiset<T>, y: multiset<T>, last: multiset<T>)
    requires a + x == b + y
    ensures a + last + x == b + last + y
  {
    assert a + last + x == (a + x) + last && b + last + y == (b + y) + last;
  }

  // Replacing the unread part of one source exchanges its head and no other.
  lemma {:induction false} HeadsUpdate(sources: Sources, l0: nat, n: nat, i: nat, rest: Run)
    requires i < n <= |sources|
    ensures Heads(sources[i := rest], l0, n) + HeadOf(sources[i], l0, i)
         == Heads(sources, l0, n) + HeadOf(rest, l0, i)
  {
    hide HeadOf;
    if i == n - 1 {
      HeadsSame(sources, sources[i := rest], l0, n - 1);
    } else {
      HeadsUpdate(sources, l0, n - 1, i, rest);
      var changed: Sources := sources[i := rest];
      var last := HeadOf(sources[n - 1], l0, n - 1);
      assert HeadOf(changed[n - 1], l0, n - 1) == last;
      Exchange(Heads(changed, l0, n - 1), HeadOf(sources[i], l0, i), Heads(sources, l0, n - 1), HeadOf(rest, l0, i),
               last);
    }
  }

  lemma HeadsSnoc(sources: Sources, l0: nat, run: Run)
    ensures Heads(sources + [run], l0, |sources| + 1) == Heads(sources, l0, |sources|) + HeadOf(run, l0, |sources|)
  {
    HeadsPrefix(sources, run, l0, |sources|);
  }

  lemma {:induction false} HeadsPrefix(sources: Sources, run: Run, l0: nat, n: nat)
    requires n <= |sources|
    ensures Heads(sources + [run], l0, n) == Heads(sources, l0, n)
  {
    if n > 0 {
      HeadsPrefix(sources, run, l0, n - 1);
    }
  }

  // ---------- One step of the merge ----------

  ghost predicate AllSorted(sources: Sources) {
    forall i :: 0 <= i < |sources| ==> Sorted(sources[i])
  }

  // Source i's head goes before every other head.
  ghost predicate IsLeast(sources: Sources, l0: nat, i: nat) {
    && i < |sources| && sources[i] != []
    && forall j :: 0 <= j < |sources| && sources[j] != [] ==>
         !Before(ItemOf(sources[j][0], l0, j), ItemOf(sources[i][0], l0, i))
  }

  // A source can only hold the least key at its head.
  lemma LeastKeyIsHead(run: Run, key: bytes)
    requires Sorted(run) && (run != [] ==> !Less(run[0].K, key))
    ensures Lookup(run, key) == if run != [] && run[0].K == key then Some(run[0].Stored()) else None
  {
    if run != [] && run[0].K != key {
      LessTotal(run[0].K, key);
      forall j | 0 <= j < |run| ensures run[j].K != key {
        if j > 0 {
          LessTransitive(key, run[0].K, run[j].K);
          LessIrreflexive(key);
        }
      }
      LookupMiss(run, key);
    }
  }

  lemma HeadsAtOrBehind(sources: Sources, l0: nat, i: nat, j: nat)
    requires IsLeast(sources, l0, i) && j < |sources| && sources[j] != []
    ensures !Less(sources[j][0].K, sources[i][0].K)
  {
    if sources[j][0].K == sources[i][0].K {
      LessIrreflexive(sources[i][0].K);
    }
  }

  // The first item popped for a key is the answer for that key.
  lemma LeastAnswers(sources: Sources, l0: nat, i: nat)
    requires l0 <= |sources| && AllSorted(sources) && IsLeast(sources, l0, i)
    ensures SourceLookup(sources, l0, sources[i][0].K) == Some(sources[i][0].Stored())
  {
    var key := sources[i][0].K;
    forall j | 0 <= j < |sources|
      ensures Lookup(sources[j], key) ==
              if sources[j] != [] && sources[j][0].K == key then Some(sources[j][0].Stored()) else None
    {
      if sources[j] != [] {
        HeadsAtOrBehind(sources, l0, i, j);
      }
      LeastKeyIsHead(sources[j], key);
    }
    if i < l0 {
      ScanHit(sources[..l0], i, key);
    } else {
      ScanMiss(sources[..l0], key);
      ScanHit(sources[l0..], i - l0, key);
    }
  }

  // Dropping the head of one source changes no answer but the one for its key.
  lemma DropKeepsOthers(sources: Sources, l0: nat, i: nat, key: bytes)
    requires l0 <= |sources| && i < |sources| && sources[i] != [] && key != sources[i][0].K
    ensures SourceLookup(sources[i := sources[i][1..]], l0, key) == SourceLookup(sources, l0, key)
  {
    var sources': Sources := sources[i := sources[i][1..]];
    forall j | 0 <= j < |sources| ensures Lookup(sources'[j], key) == Lookup(sources[j], key) {}
    ScanSame(sources[..l0], sources'[..l0], key);
    ScanSame(sources[l0..], sources'[l0..], key);
  }

  // Emitted entries first, then what the sources still hold.
  ghost function Combined(out: Run, sources: Sources, l0: nat, key: bytes): Option<StorageEntry>
    requires l0 <= |sources|
  {
    if Lookup(out, key).Some? then Lookup(out, key) else SourceLookup(sources, l0, key)
  }

  // No source can still bring a key below the last one emitted.
  ghost predicate AtOrBehind(out: Run, sources: Sources) {
    forall i :: out != [] && 0 <= i < |sources| && sources[i] != [] ==> !Less(sources[i][0].K, out[|out| - 1].K)
  }

  ghost predicate Merging(origin: Sources, sources: Sources, l0: nat, out: Run) {
    && l0 <= |origin| && |sources| == |origin|
    && AllSorted(sources) && Sorted(out)
    && AtOrBehind(out, sources)
    && (forall key :: Combined(out, sources, l0, key) == SourceLookup(origin, l0, key))
  }

  // What the loop emits when it pops the head of source i.
  function Emit(out: Run, e: Entry): Run {
    if out == [] || out[|out| - 1].K != e.K then out + [e] else out
  }

  lemma TailSorted(run: Run)
    requires Sorted(run) && run != []
    ensures Sorted(run[1..])
    ensures |run| > 1 ==> Less(run[0].K, run[1..][0].K)
  {}

  lemma EmitSorted(sources: Sources, l0: nat, out: Run, i: nat)
    requires i < |sources| && sources[i] != [] && Sorted(out)
    requires out != [] ==> !Less(sources[i][0].K, out[|out| - 1].K)
    ensures Sorted(Emit(out, sources[i][0]))
    ensures forall j :: 0 <= j < |out| && out[j].K == sources[i][0].K ==> j == |out| - 1
  {
    var e := sources[i][0];
    if out != [] {
      var last := out[|out| - 1].K;
      LessTotal(e.K, last);
      if e.K != last {
        SortedSnoc(out, e);
      }
      forall j | 0 <= j < |out| && out[j].K == e.K ensures j == |out| - 1 {
        LessIrreflexive(e.K);
      }
    }
  }

  lemma EmitLookup(out: Run, e: Entry, key: bytes)
    requires forall j :: 0 <= j < |out| && out[j].K == e.K ==> j == |out| - 1
    requires Sorted(out)
    ensures key != e.K ==> Lookup(Emit(out, e), key) == Lookup(out, key)
    ensures Emit(out, e) == out ==> Lookup(out, e.K).Some?
    ensures Emit(out, e) != out ==> Lookup(out, e.K) == None && Lookup(Emit(out, e), e.K) == Some(e.Stored())
  {
    LookupAppend(out, [e], key);
    LookupAppend(out, [e], e.K);
    if Emit(out, e) == out {
      LookupHit(out, |out| - 1);
    } else {
      LookupMiss(out, e.K);
    }
  }

  // Popping the least head, emitting it unless its key was emitted last, and moving that source on.
  lemma MergeStep(origin: Sources, sources: Sources, l0: nat, out: Run, i: nat)
    requires Merging(origin, sources, l0, out) && IsLeast(sources, l0, i)
    ensures Merging(origin, sources[i := sources[i][1..]], l0, Emit(out, sources[i][0]))
  {
    var e := sources[i][0];
    var sources': Sources := sources[i := sources[i][1..]];
    var out' := Emit(out, e);
    TailSorted(sources[i]);
    EmitSorted(sources, l0, out, i);
    forall j | 0 <= j < |sources'| && sources'[j] != []
      ensures out' != [] && !Less(sources'[j][0].K, out'[|out'| - 1].K)
    {
      assert out'[|out'| - 1].K == e.K;
      if j == i {
        LessAsymmetric(e.K, sources'[i][0].K);
      } else {
        HeadsAtOrBehind(sources, l0, i, j);
      }
    }
    forall key ensures Combined(out', sources', l0, key) == SourceLookup(origin, l0, key) {
      CombinedStep(sources, l0, out, i, key);
      assert Combined(out, sources, l0, key) == SourceLookup(origin, l0, key);
    }
  }

  lemma CombinedStep(sources: Sources, l0: nat, out: Run, i: nat, key: bytes)
    requires l0 <= |sources| && AllSorted(sources) && Sorted(out) && IsLeast(sources, l0, i)
    requires out != [] ==> !Less(sources[i][0].K, out[|out| - 1].K)
    ensures Combined(Emit(out, sources[i][0]), sources[i := sources[i][1..]], l0, key) ==
            Combined(out, sources, l0, key)
  {
    EmitSorted(sources, l0, out, i);
    EmitLookup(out, sources[i][0], key);
    if key != sources[i][0].K {
      DropKeepsOthers(sources, l0, i, key);
    } else {
      LeastAnswers(sources, l0, i);
    }
  }

  // With every source exhausted, the output alone answers as the sources did.
  lemma MergeEnds(origin: Sources, sources: Sources, l0: nat, out: Run)
    requires Merging(origin, sources, l0, out)
    requires forall i :: 0 <= i < |sources| ==> sources[i] == []
    ensures Sorted(out) && forall key :: Lookup(out, key) == SourceLookup(origin, l0, key)
  {
    forall key ensures Lookup(out, key) == SourceLookup(origin, l0, key) {
      ScanMiss(sources[..l0], key);
      ScanMiss(sources[l0..], key);
      assert Combined(out, sources, l0, key) == SourceLookup(origin, l0, key);
    }
  }

  // The emitted run holds every key of the sources exactly once, and no other key.
  lemma MergedKeys(origin: Sources, l0: nat, out: Run, key: bytes)
    requires l0 <= |origin| && Sorted(out) && (forall k :: Lookup(out, k) == SourceLookup(origin, l0, k))
    ensures Lookup(out, key).Some? <==> exists i :: 0 <= i < |origin| && Lookup(origin[i], key).Some?
    ensures forall i, j :: 0 <= i < j < |out| ==> out[i].K != out[j].K
  {
    assert Lookup(out, key) == SourceLookup(origin, l0, key);
    forall i | 0 <= i < |origin| && Lookup(origin[i], key).Some? ensures SourceLookup(origin, l0, key).Some? {
      if i < l0 {
        ScanFinds(origin[..l0], i, key);
      } else {
        ScanFinds(origin[l0..], i - l0, key);
      }
    }
    if ScanNewest(origin[..l0], key).Some? {
      var i := ScanWitness(origin[..l0], key);
      assert Lookup(origin[i], key).Some?;
    } else if ScanNewest(origin[l0..], key).Some? {
      var i := ScanWitness(origin[l0..], key);
      assert Lookup(origin[l0 + i], key).Some?;
    }
    forall i, j | 0 <= i < j < |out| ensures out[i].K != out[j].K {
      LessIrreflexive(out[i].K);
    }
  }

  lemma {:induction false} ScanFinds(runs: seq<Run>, i: nat, key: bytes)
    requires i < |runs| && Lookup(runs[i], key).Some?
    ensures ScanNewest(runs, key).Some?
  {
    if i < |runs| - 1 {
      ScanFinds(runs[..|runs| - 1], i, key);
    }
  }

  lemma {:induction false} ScanWitness(runs: seq<Run>, key: bytes) returns (i: nat)
    requires ScanNewest(runs, key).Some?
    ensures i < |runs| && Lookup(runs[i], key) == ScanNewest(runs, key)
  {
    if Lookup(runs[|runs| - 1], key).Some? {
      i := |runs| - 1;
    } else {
      i := ScanWitness(runs[..|runs| - 1], key);
    }
  }
}
