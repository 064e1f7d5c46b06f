// The merge heap: container/heap over the three-part order of the compaction.

module Heaps {
  import opened Base

  datatype HeapItem = HeapItem(key: bytes, entry: StorageEntry, tableIndex: nat, level: nat)

  // Smaller keys first; for one key the lower level first, then the newer table.
  predicate Before(a: HeapItem, b: HeapItem) {
    if a.key != b.key then Less(a.key, b.key)
    else if a.level != b.level then a.level < b.level
    else a.tableIndex > b.tableIndex
  }

  lemma BeforeAsymmetric(a: HeapItem, b: HeapItem)
    requires Before(a, b)
    ensures !Before(b, a)
  {
    if a.key != b.key {
      LessAsymmetric(a.key, b.key);
    }
  }

  lemma NotBeforeTransitive(a: HeapItem, b: HeapItem, c: HeapItem)
    requires !Before(b, a) && !Before(c, b)
    ensures !Before(c, a)
  {
    LessTotal(a.key, b.key);
    LessTotal(b.key, c.key);
    if a.key != b.key && b.key != c.key {
      LessTransitive(a.key, b.key, c.key);
    }
    if a.key != c.key && (a.key != b.key || b.key != c.key) {
      LessAsymmetric(a.key, c.key);
    }
    if a.key == c.key && a.key != b.key {
      LessAsymmetric(a.key, b.key);
    }
  }

  predicate Child(p: int, c: int) {
    0 <= p && (c == 2 * p + 1 || c == 2 * p + 2)
  }

  // No child goes before its parent, for the parents from lo on among the first n items.
  ghost predicate HeapFrom(items: seq<HeapItem>, lo: nat, n: nat)
    requires n <= |items|
  {
    forall p, c :: lo <= p && c < n && Child(p, c) ==> !Before(items[c], items[p])
  }

  lemma {:induction false} RootGoesFirst(items: seq<HeapItem>, n: nat, j: nat)
    requires j < n <= |items| && HeapFrom(items, 0, n)
    ensures !Before(items[j], items[0])
  {
    if j > 0 {
      var p := (j - 1) / 2;
      assert Child(p, j);
      RootGoesFirst(items, n, p);
      NotBeforeTransitive(items[0], items[p], items[j]);
    }
  }

  function Swapped(items: seq<HeapItem>, i: nat, j: nat): (s: seq<HeapItem>)
    requires i < |items| && j < |items|
    ensures |s| == |items| && multiset(s) == multiset(items)
  {
    items[i := items[j]][j := items[i]]
  }

  // While an item sinks from i0, only the pairs below its current place i are open.
  ghost predicate Sinking(items: seq<HeapItem>, i0: nat, i: nat, n: nat)
    requires n <= |items|
  {
    && (forall p, c :: i0 <= p && p != i && c < n && Child(p, c) ==> !Before(items[c], items[p]))
    && (forall p, c :: i0 <= p && c < n && Child(p, i) && Child(i, c) ==> !Before(items[c], items[p]))
  }

  // While an item rises, only the pair above its current place i is open.
  ghost predicate Rising(items: seq<HeapItem>, i: nat, n: nat)
    requires n <= |items|
  {
    && (forall p, c :: c < n && c != i && Child(p, c) ==> !Before(items[c], items[p]))
    && (forall p, c :: c < n && Child(p, i) && Child(i, c) ==> !Before(items[c], items[p]))
  }

  lemma SinkStep(items: seq<HeapItem>, i0: nat, i: nat, j: nat, n: nat)
    requires i0 <= i && j < n <= |items| && Child(i, j) && Sinking(items, i0, i, n)
    requires Before(items[j], items[i])
    requires forall c :: c < n && Child(i, c) ==> !Before(items[c], items[j])
    ensures Sinking(Swapped(items, i, j), i0, j, n)
  {
    BeforeAsymmetric(items[j], items[i]);
  }

  lemma RiseStep(items: seq<HeapItem>, i: nat, j: nat, n: nat)
    requires j < n <= |items| && Child(i, j) && Rising(items, j, n)
    requires Before(items[j], items[i])
    ensures Rising(Swapped(items, i, j), i, n)
  {
    var s := Swapped(items, i, j);
    BeforeAsymmetric(items[j], items[i]);
    forall p, c | c < n && c != i && Child(p, c) ensures !Before(s[c], s[p]) {
      if p == i && c != j {
        NotBeforeTransitive(items[j], items[i], items[c]);
      }
    }
    forall p, c | c < n && Child(p, i) && Child(i, c) ensures !Before(s[c], s[p]) {
      assert !Before(items[i], items[p]);
      if c != j {
        NotBeforeTransitive(items[p], items[i], items[c]);
      }
    }
  }

  class SstableHeap {
    var items: seq<HeapItem>

    ghost predicate Valid()
      reads this
    {
      HeapFrom(items, 0, |items|)
    }

    constructor ()
      ensures Valid() && items == []
    {
      items := [];
    }

    // container/heap's up.
    method Up(last: nat)
      requires last < |items| && Rising(items, last, |items|)
      modifies this
      ensures Valid() && multiset(items) == old(multiset(items))
    {
      var j := last;
      while true
        invariant 0 <= j < |items| == old(|items|) && Rising(items, j, |items|)
        invariant multiset(items) == old(multiset(items))
        decreases j
      {
        var i := if j == 0 then 0 else (j - 1) / 2;
        assert j > 0 ==> Child(i, j);
        if i == j || !Before(items[j], items[i]) {
          break;
        }
        RiseStep(items, i, j, |items|);
        items := Swapped(items, i, j);
        j := i;
      }
    }

    // container/heap's down.
    method Down(i0: nat, n: nat)
      requires i0 < n <= |items| && HeapFrom(items, i0 + 1, n)
      modifies this
      ensures |items| == old(|items|) && multiset(items) == old(multiset(items))
      ensures HeapFrom(items, i0, n) && items[n..] == old(items[n..])
    {
      var i := i0;
      while true
        invariant i0 <= i < n <= |items| == old(|items|) && Sinking(items, i0, i, n)
        invariant multiset(items) == old(multiset(items)) && items[n..] == old(items[n..])
        decreases n - i
      {
        if 2 * i + 1 >= n {
          break;
        }
        var j := FirstChild(i, n);
        if !Before(items[j], items[i]) {
          SunkenEnough(items, i0, i, j, n);
          break;
        }
        SinkStep(items, i0, i, j, n);
        items := Swapped(items, i, j);
        i := j;
      }
    }

    // Of the children of i, the one that goes first.
    method FirstChild(i: nat, n: nat) returns (j: nat)
      requires 2 * i + 1 < n <= |items|
      ensures j < n && Child(i, j)
      ensures forall c :: c < n && Child(i, c) ==> !Before(items[c], items[j])
    {
      j := 2 * i + 1;
      if j + 1 < n && Before(items[j + 1], items[j]) {
        BeforeAsymmetric(items[j + 1], items[j]);
        j := j + 1;
      }
    }

    // Establishes the heap order over whatever order the items are in.
    method Init()
      modifies this
      ensures Valid() && multiset(items) == old(multiset(items))
    {
      var n := |items|;
      var i := n / 2;
      while i > 0
        invariant 0 <= i <= n == |items| && HeapFrom(items, i, n)
        invariant multiset(items) == old(multiset(items))
      {
        i := i - 1;
        Down(i, n);
      }
    }

    method Push(x: HeapItem)
      requires Valid()
      modifies this
      ensures Valid() && multiset(items) == old(multiset(items)) + multiset{x}
    {
      items := items + [x];
      Up(|items| - 1);
    }

    method Pop() returns (item: HeapItem)
      requires Valid() && items != []
      modifies this
      ensures Valid() && multiset(items) + multiset{item} == old(multiset(items))
      ensures forall x :: x in old(items) ==> !Before(x, item)
    {
      RootIsLeast(items);
      var n := |items| - 1;
      items := Swapped(items, 0, n);
      if n > 0 {
        Down(0, n);
      }
      item := items[n];
      LastSplitsOff(items);
      items := items[..n];
    }
  }

  lemma RootIsLeast(items: seq<HeapItem>)
    requires items != [] && HeapFrom(items, 0, |items|)
    ensures forall x :: x in items ==> !Before(x, items[0])
  {
    forall j | 0 <= j < |items| ensures !Before(items[j], items[0]) {
      RootGoesFirst(items, |items|, j);
    }
  }

  lemma LastSplitsOff(items: seq<HeapItem>)
    requires items != []
    ensures multiset(items[..|items| - 1]) + multiset{items[|items| - 1]} == multiset(items)
  {
    assert items == items[..|items| - 1] + [items[|items| - 1]];
  }

  lemma SunkenEnough(items: seq<HeapItem>, i0: nat, i: nat, j: nat, n: nat)
    requires i0 <= i && j < n <= |items| && Child(i, j) && Sinking(items, i0, i, n)
    requires forall c :: c < n && Child(i, c) ==> !Before(items[c], items[j])
    requires !Before(items[j], items[i])
    ensures HeapFrom(items, i0, n)
  {
    forall c | c < n && Child(i, c) ensures !Before(items[c], items[i]) {
      NotBeforeTransitive(items[i], items[j], items[c]);
    }
  }
}
