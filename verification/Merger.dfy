// The merge of a compaction at work: readers over the source tables, and the heap of their next entries.

module Mergers {
  import opened Base
  import opened Lsm
  import opened Tables
  import opened TableFiles
  import opened Readers
  import opened Heaps
  import opened Merge

  lemma {:induction false} LevelsCount(sources: Sources, l0: nat, l0': nat, n: nat)
    requires n <= |sources| && n <= l0 && n <= l0'
    ensures Heads(sources, l0, n) == Heads(sources, l0', n)
  {
    if n > 0 {
      LevelsCount(sources, l0, l0', n - 1);
    }
  }

  // The heap after a source has moved on: what was left, and the source's next head.
  lemma MovedHeads(items: multiset<HeapItem>, item: HeapItem, sources: Sources, l0: nat, i: nat, rest: Run)
    requires i < |sources| && sources[i] != [] && item == ItemOf(sources[i][0], l0, i)
    requires items + multiset{item} == Heads(sources, l0, |sources|)
    ensures Heads(sources[i := rest], l0, |sources|) == items + HeadOf(rest, l0, i)
  {
    HeadsUpdate(sources, l0, |sources|, i, rest);
    Cancel(Heads(sources[i := rest], l0, |sources|), items + HeadOf(rest, l0, i), multiset{item});
  }

  lemma Cancel<T>(a: multiset<T>, b: multiset<T>, x: multiset<T>)
    requires a + x == b + x
    ensures a == b
  {
    assert (a + x) - x == a && (b + x) - x == b;
  }

  lemma EnqueuedHeads(sources: Sources, sources': Sources, l0: nat, l0': nat, run: Run, item: HeapItem)
    requires run != [] && sources' == sources + [run]
    requires l0' == l0 <= |sources| || (l0 == |sources| && l0' == l0 + 1)
    requires item == ItemOf(run[0], l0', |sources|)
    ensures Heads(sources', l0', |sources'|) == Heads(sources, l0, |sources|) + multiset{item}
  {
    if l0' != l0 {
      LevelsCount(sources, l0, l0', |sources|);
    }
    HeadsSnoc(sources, l0', run);
  }

  class Merger {
    const h: SstableHeap
    var readers: seq<SstableReader>
    // What each source still has to give, the entry waiting in the heap included.
    ghost var sources: Sources
    ghost var l0: nat

    ghost predicate ReadersOk()
      reads this, readers
    {
      && |readers| == |sources| && l0 <= |sources|
      && (forall i, j :: 0 <= i < j < |readers| ==> readers[i] != readers[j])
      && (forall i {:trigger readers[i]} :: 0 <= i < |readers| ==>
           && readers[i].Valid() && Sorted(sources[i])
           && (sources[i] != [] ==> readers[i].Rest() == Ok(sources[i][1..])))
    }

    ghost predicate Valid()
      reads this, h, readers
    {
      ReadersOk() && h.Valid() && multiset(h.items) == Heads(sources, l0, |sources|)
    }

    // Between a pop and the move of its source: the heap misses exactly the popped item.
    ghost predicate Popped(item: HeapItem)
      reads this, h, readers
    {
      && ReadersOk() && h.Valid()
      && multiset(h.items) + multiset{item} == Heads(sources, l0, |sources|)
      && IsLeast(sources, l0, item.tableIndex)
      && item == ItemOf(sources[item.tableIndex][0], l0, item.tableIndex)
    }

    constructor ()
      ensures Valid() && fresh(h) && readers == [] && sources == [] && l0 == 0
    {
      h := new SstableHeap();
      readers := [];
      sources := [];
      l0 := 0;
    }

    // Opens one table and puts its first entry on the heap; an empty table is not kept. An intact file can be read.
    method AddTable(crc: Checksum, level: nat, file: bytes, ghost run: Run) returns (err: Option<Error>)
      requires Valid() && Encodes(crc, file, run)
      requires level == 0 ==> l0 == |sources|
      requires level <= 1
      modifies this, h
      ensures Valid() && err.None?
      ensures sources == old(sources) + (if run == [] then [] else [run])
      ensures l0 == if level == 0 then |sources| else old(l0)
      ensures forall r :: r in readers ==> r in old(readers) || fresh(r)
    {
      var table := OpenBlockBasedTable(file);
      var r := new SstableReader(crc, table.value);
      BlocksOfRun(crc, table.value, run, 0);
      assert RunFrom(run, 0) == run;
      err := r.Advance();
      if err.None? && r.hasNext {
        Enqueue(r, level, run);
      }
    }

    // The reader becomes the last source.
    method Adopt(r: SstableReader, level: nat, ghost run: Run)
      requires ReadersOk() && r.Valid() && r !in readers
      requires run != [] && Sorted(run) && r.Rest() == Ok(run[1..])
      requires level <= 1 && (level == 0 ==> l0 == |sources|)
      modifies this
      ensures ReadersOk() && sources == old(sources) + [run] && readers == old(readers) + [r]
      ensures l0 == if level == 0 then old(l0) + 1 else old(l0)
    {
      readers := readers + [r];
      sources := sources + [run];
      if level == 0 {
        l0 := l0 + 1;
      }
    }

    method Enqueue(r: SstableReader, level: nat, ghost run: Run)
      requires Valid() && r.Valid() && r !in readers
      requires run != [] && Sorted(run) && r.entry == run[0] && r.Rest() == Ok(run[1..])
      requires level <= 1 && (level == 0 ==> l0 == |sources|)
      modifies this, h
      ensures Valid() && sources == old(sources) + [run] && readers == old(readers) + [r]
      ensures l0 == if level == 0 then |sources| else old(l0)
    {
      var item := HeapItem(r.entry.K, r.entry.Stored(), |readers|, level);
      ghost var before, l0Before := sources, l0;
      Adopt(r, level, run);
      h.Push(item);
      EnqueuedHeads(before, sources, l0Before, l0, run, item);
    }

    // heap.Init over what has been pushed.
    method Begin()
      requires Valid()
      modifies h
      ensures Valid()
    {
      h.Init();
    }

    method PopLeast() returns (item: HeapItem)
      requires Valid() && h.items != []
      modifies h
      ensures Popped(item)
    {
      ghost var items := h.items;
      item := h.Pop();
      assert item in Heads(sources, l0, |sources|);
      HeadsWitness(sources, l0, |sources|, item);
      forall j | 0 <= j < |sources| && sources[j] != []
        ensures !Before(ItemOf(sources[j][0], l0, j), ItemOf(sources[item.tableIndex][0], l0, item.tableIndex))
      {
        HeadsHolds(sources, l0, |sources|, j);
        assert ItemOf(sources[j][0], l0, j) in multiset(items);
      }
    }

    // The reader of source i takes up its next entry.
    method AdvanceSource(i: nat) returns (err: Option<Error>)
      requires ReadersOk() && i < |readers| && sources[i] != []
      modifies this`sources, readers[i]
      ensures err.None? && ReadersOk() && sources == old(sources)[i := old(sources)[i][1..]]
      ensures readers[i].hasNext <==> sources[i] != []
      ensures sources[i] != [] ==> readers[i].entry == sources[i][0]
    {
      forall j | 0 <= j < |readers| && j != i ensures readers[j] != readers[i] {}
      err := readers[i].Advance();
      TailSorted(sources[i]);
      sources := sources[i := sources[i][1..]];
    }

    // Advances the reader of the popped item and puts its next entry on the heap.
    method MoveOn(item: HeapItem) returns (err: Option<Error>)
      requires Popped(item)
      modifies this, h, readers
      ensures readers == old(readers) && l0 == old(l0)
      ensures err.None? && Valid() && sources == old(sources)[item.tableIndex := old(sources)[item.tableIndex][1..]]
    {
      var i := item.tableIndex;
      MovedHeads(multiset(h.items), item, sources, l0, i, sources[i][1..]);
      err := AdvanceSource(i);
      var r := readers[i];
      if err.None? && r.hasNext {
        h.Push(HeapItem(r.entry.K, r.entry.Stored(), i, item.level));
      }
    }

    lemma SourcesSorted()
      requires ReadersOk()
      ensures AllSorted(sources)
    {
      forall i | 0 <= i < |sources| ensures Sorted(sources[i]) {
        var r := readers[i];
      }
    }

    // An empty heap means that every source has been read to its end.
    lemma Exhausted()
      requires Valid() && h.items == []
      ensures forall i :: 0 <= i < |sources| ==> sources[i] == []
    {
      forall i | 0 <= i < |sources| ensures sources[i] == [] {
        if sources[i] != [] {
          HeadsHolds(sources, l0, |sources|, i);
        }
      }
    }
  }

  // How many entries are still unread.
  ghost function Unread(sources: Sources): nat {
    if sources == [] then 0 else Unread(sources[..|sources| - 1]) + |sources[|sources| - 1]|
  }

  lemma {:induction false} UnreadDrops(sources: Sources, i: nat)
    requires i < |sources| && sources[i] != []
    ensures Unread(sources[i := sources[i][1..]]) == Unread(sources) - 1
  {
    var after: Sources := sources[i := sources[i][1..]];
    if i == |sources| - 1 {
      assert after[..|sources| - 1] == sources[..|sources| - 1];
    } else {
      UnreadDrops(sources[..|sources| - 1], i);
      assert after[..|sources| - 1] == sources[..|sources| - 1][i := sources[i][1..]];
    }
  }
}
