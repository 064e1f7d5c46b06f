// The ordered in-memory table: a skip list of 16 linked levels that refines a sorted run.

module SkipLists {
  import opened Base

  const MAX_LEVELS: nat := 16

  // ---------- Heights: which node a link must skip to ----------

  // The first position after k that is taller than level i (|heights| when there is none).
  ghost function NextTall(heights: seq<nat>, k: nat, i: nat): (n: nat)
    requires k < |heights|
    ensures k < n <= |heights|
    ensures n < |heights| ==> heights[n] > i
    decreases |heights| - k
  {
    if k + 1 == |heights| || heights[k + 1] > i then k + 1 else NextTall(heights, k + 1, i)
  }

  lemma {:induction false} NextTallSkips(heights: seq<nat>, k: nat, i: nat)
    requires k < |heights|
    ensures forall j :: k < j < NextTall(heights, k, i) ==> heights[j] <= i
    decreases |heights| - k
  {
    if !(k + 1 == |heights| || heights[k + 1] > i) {
      NextTallSkips(heights, k + 1, i);
    }
  }

  // A taller node behind k bounds the link of k, and the first such node is its target.
  lemma {:induction false} NextTallIs(heights: seq<nat>, k: nat, i: nat, t: nat)
    requires k < t <= |heights|
    requires forall j :: k < j < t ==> heights[j] <= i
    requires t < |heights| ==> heights[t] > i
    ensures NextTall(heights, k, i) == t
    decreases |heights| - k
  {
    if k + 1 < t {
      NextTallIs(heights, k + 1, i, t);
    }
  }

  ghost function Inserted<T>(s: seq<T>, p: nat, x: T): seq<T>
    requires p < |s|
  {
    s[..p + 1] + [x] + s[p + 1..]
  }

  // Where an old position ends up once something has been inserted behind position p.
  function Shifted(k: nat, p: nat): nat {
    if k <= p then k else k + 1
  }

  // Inserting a tower of height h behind p captures exactly the links of the levels below h that jump over p.
  lemma NextTallInserted(heights: seq<nat>, p: nat, h: nat, k: nat, i: nat)
    requires p < |heights| && k < |heights|
    ensures var n := NextTall(heights, k, i);
            NextTall(Inserted(heights, p, h), Shifted(k, p), i) ==
            if k <= p < n && i < h then p + 1 else Shifted(n, p)
  {
    var after := Inserted(heights, p, h);
    var n := NextTall(heights, k, i);
    NextTallSkips(heights, k, i);
    var t := if k <= p < n && i < h then p + 1 else Shifted(n, p);
    forall j | Shifted(k, p) < j < t ensures after[j] <= i {
      assert j <= p ==> after[j] == heights[j];
      assert j > p + 1 ==> after[j] == heights[j - 1];
    }
    NextTallIs(after, Shifted(k, p), i, t);
  }

  // The inserted tower takes over the captured link.
  lemma NextTallOfInserted(heights: seq<nat>, p: nat, h: nat, u: nat, i: nat)
    requires u <= p < |heights| && p < NextTall(heights, u, i)
    ensures NextTall(Inserted(heights, p, h), p + 1, i) == NextTall(heights, u, i) + 1
  {
    var after := Inserted(heights, p, h);
    var n := NextTall(heights, u, i);
    NextTallSkips(heights, u, i);
    forall j | p + 1 < j < n + 1 ensures after[j] <= i { assert after[j] == heights[j - 1]; }
    NextTallIs(after, p + 1, i, n + 1);
  }

  // ---------- Nodes ----------

  class Node {
    const key: bytes
    var value: StorageEntry
    var next: seq<Node?>

    constructor (key: bytes, value: StorageEntry, height: nat)
      ensures this.key == key && this.value == value
      ensures |next| == height
    {
      this.key := key;
      this.value := value;
      this.next := seq(height, _ => null);
    }
  }

  ghost function NodeAt(all: seq<Node>, k: nat): Node? {
    if k < |all| then all[k] else null
  }

  // Position 0 is the sentinel; all positions behind it carry strictly increasing keys.
  ghost predicate Ordered(all: seq<Node>) {
    && |all| >= 1
    && (forall j, k :: 0 <= j < k < |all| ==> all[j] != all[k])
    && (forall j, k :: 1 <= j < k < |all| ==> Less(all[j].key, all[k].key))
  }

  ghost predicate Towers(heights: seq<nat>, levels: nat) {
    && 1 <= levels <= MAX_LEVELS
    && |heights| >= 1 && heights[0] == MAX_LEVELS
    && forall k :: 1 <= k < |heights| ==> 1 <= heights[k] <= levels
  }

  // Every link of every level reaches the next node tall enough for that level.
  ghost predicate Linked(all: seq<Node>, heights: seq<nat>)
    reads all
  {
    && |all| == |heights|
    && (forall k :: 0 <= k < |all| ==> |all[k].next| == heights[k])
    && (forall k, i {:trigger all[k].next[i]} :: 0 <= k < |all| && 0 <= i < heights[k] ==>
         all[k].next[i] == NodeAt(all, NextTall(heights, k, i)))
  }

  ghost predicate Spells(all: seq<Node>, contents: seq<Entry>)
    reads all
  {
    && |all| == |contents| + 1
    && forall k :: 0 <= k < |contents| ==>
         contents[k] == Entry(all[k + 1].key, all[k + 1].value.Value, all[k + 1].value.Type)
  }

  // m is the last position of level i whose key is below the key searched for.
  ghost predicate Precedes(all: seq<Node>, heights: seq<nat>, i: nat, m: nat, key: bytes) {
    && |all| == |heights|
    && m < |all| && i < heights[m]
    && (m == 0 || Less(all[m].key, key))
    && var n := NextTall(heights, m, i);
       n < |all| ==> !Less(all[n].key, key)
  }

  lemma Bracket(all: seq<Node>, heights: seq<nat>, i: nat, p: nat, key: bytes)
    requires Ordered(all) && Precedes(all, heights, i, p, key)
    ensures forall m :: 1 <= m <= p ==> Less(all[m].key, key)
    ensures forall m :: NextTall(heights, p, i) <= m < |all| ==> !Less(all[m].key, key)
  {
    forall m | 1 <= m <= p ensures Less(all[m].key, key) {
      if m < p {
        LessTransitive(all[m].key, all[p].key, key);
      }
    }
    var n := NextTall(heights, p, i);
    forall m | n <= m < |all| ensures !Less(all[m].key, key) {
      if n < m && Less(all[m].key, key) {
        LessTransitive(all[n].key, all[m].key, key);
      }
    }
  }

  // The positions met by following the links of level i from position k on.
  ghost function Chain(heights: seq<nat>, k: nat, i: nat): seq<nat>
    requires k < |heights|
    decreases |heights| - k
  {
    var n := NextTall(heights, k, i);
    if n < |heights| then [n] + Chain(heights, n, i) else []
  }

  // Each level visits, in ascending order, exactly the nodes tall enough for it.
  lemma {:induction false} ChainIs(heights: seq<nat>, k: nat, i: nat)
    requires k < |heights|
    ensures forall p :: p in Chain(heights, k, i) <==> k < p < |heights| && heights[p] > i
    ensures forall a, b :: 0 <= a < b < |Chain(heights, k, i)| ==> Chain(heights, k, i)[a] < Chain(heights, k, i)[b]
    decreases |heights| - k
  {
    var n := NextTall(heights, k, i);
    NextTallSkips(heights, k, i);
    if n < |heights| {
      ChainIs(heights, n, i);
      var rest := Chain(heights, n, i);
      forall b | 0 <= b < |rest| ensures n < rest[b] { assert rest[b] in rest; }
    }
  }

  // So every level is sorted, a sublist of the one below, and the lowest holds everything.
  lemma LevelsAreNested(all: seq<Node>, heights: seq<nat>, levels: nat, i: nat)
    requires Ordered(all) && |all| == |heights| && Towers(heights, levels)
    ensures forall p :: p in Chain(heights, 0, i + 1) ==> p in Chain(heights, 0, i)
    ensures forall p :: p in Chain(heights, 0, 0) <==> 1 <= p < |all|
    ensures forall a, b :: 0 <= a < b < |Chain(heights, 0, i)| ==>
              && Chain(heights, 0, i)[a] < |all| && Chain(heights, 0, i)[b] < |all|
              && Less(all[Chain(heights, 0, i)[a]].key, all[Chain(heights, 0, i)[b]].key)
  {
    ChainIs(heights, 0, i);
    ChainIs(heights, 0, i + 1);
    ChainIs(heights, 0, 0);
    var c := Chain(heights, 0, i);
    forall a, b | 0 <= a < b < |c| ensures c[a] < |all| && c[b] < |all| && Less(all[c[a]].key, all[c[b]].key) {
      assert c[a] in c && c[b] in c;
    }
  }

  method GenerateLevel() returns (level: nat)
    ensures 1 <= level <= MAX_LEVELS == 16
  {
    level := 1;
    var heads: bool := *;
    while level < MAX_LEVELS && heads
      invariant 1 <= level <= MAX_LEVELS
      decreases MAX_LEVELS - level
    {
      level := level + 1;
      heads := *;
    }
  }

  class SkipList {
    var head: Node
    var levels: nat
    var size: nat
    ghost var all: seq<Node>
    ghost var heights: seq<nat>
    ghost var Contents: seq<Entry>
    ghost var Repr: set<Node>

    ghost predicate Valid()
      reads this, Repr
    {
      && (forall k :: 0 <= k < |all| ==> all[k] in Repr)
      && Ordered(all) && all[0] == head
      && Towers(heights, levels)
      && Linked(all, heights)
      && Spells(all, Contents)
      && size == |Contents|
    }

    constructor ()
      ensures Valid() && fresh(Repr)
      ensures Contents == [] && size == 0
    {
      head := new Node([], StorageEntry(Put, []), MAX_LEVELS);
      levels := 1;
      size := 0;
      new;
      head.next := seq(MAX_LEVELS, _ => null);
      Repr := {head};
      all := [head];
      heights := [MAX_LEVELS];
      Contents := [];
    }

    // A valid list always holds a sorted run.
    lemma ContentsSorted()
      requires Valid()
      ensures Sorted(Contents)
    {
      forall i, j | 0 <= i < j < |Contents| ensures Less(Contents[i].K, Contents[j].K) {
        assert Less(all[i + 1].key, all[j + 1].key);
      }
    }

    // The inner loop of every descent: walk right along level i while the next key is smaller.
    method WalkRight(i: nat, start: Node, ghost from: nat, key: bytes) returns (current: Node, ghost m: nat)
      requires Valid() && from < |all| && start == all[from]
      requires i < heights[from] && (from == 0 || Less(start.key, key))
      ensures m < |all| && all[m] == current
      ensures Precedes(all, heights, i, m, key)
    {
      current, m := start, from;
      while current.next[i] != null && Less(current.next[i].key, key)
        invariant m < |all| && all[m] == current && i < heights[m]
        invariant m == 0 || Less(current.key, key)
        decreases |all| - m
      {
        current, m := current.next[i], NextTall(heights, m, i);
      }
    }

    // At level 0 the position before a key decides whether the table holds the key.
    lemma DecideAt(m: nat, key: bytes)
      requires Valid() && Precedes(all, heights, 0, m, key)
      ensures NextTall(heights, m, 0) == m + 1
      ensures forall j :: 0 <= j < m ==> Less(Contents[j].K, key)
      ensures m < |Contents| ==> !Less(Contents[m].K, key)
      ensures Lookup(Contents, key) ==
              if m + 1 < |all| && all[m + 1].key == key then Some(all[m + 1].value) else None
    {
      ContentsSorted();
      Bracket(all, heights, 0, m, key);
      forall j | 0 <= j < |Contents|
        ensures if j < m then Less(Contents[j].K, key) else !Less(Contents[j].K, key)
        ensures j != m ==> Contents[j].K != key
      {
        assert Contents[j].K == all[j + 1].key;
        LessIrreflexive(key);
        if j > m {
          assert Less(all[m + 1].key, all[j + 1].key);
        }
      }
      if m + 1 < |all| && all[m + 1].key == key {
        LookupHit(Contents, m);
      } else {
        LookupMiss(Contents, key);
      }
    }

    method Get(key: bytes) returns (r: Option<StorageEntry>)
      requires Valid()
      ensures r == Lookup(Contents, key)
    {
      var current := head;
      ghost var m: nat := 0;
      var i := levels;
      while i > 0
        invariant 0 <= i <= levels
        invariant m < |all| && all[m] == current && i <= heights[m]
        invariant m == 0 || Less(current.key, key)
        invariant i < levels ==> Precedes(all, heights, i, m, key)
      {
        i := i - 1;
        current, m := WalkRight(i, current, m, key);
      }
      DecideAt(m, key);
      var found := current.next[0];
      if found != null && found.key == key {
        return Some(found.value);
      }
      return None;
    }

    // update[i] is the node immediately before key at level i, for every populated level.
    method FindPredecessors(key: bytes, update: array<Node?>) returns (ghost pos: seq<nat>)
      requires Valid() && update.Length == MAX_LEVELS
      modifies update
      ensures |pos| == MAX_LEVELS
      ensures forall i :: 0 <= i < levels ==> Precedes(all, heights, i, pos[i], key) && update[i] == all[pos[i]]
    {
      var current := head;
      ghost var m: nat := 0;
      pos := seq(MAX_LEVELS, _ => 0);
      var i := levels;
      while i > 0
        invariant 0 <= i <= levels && |pos| == MAX_LEVELS
        invariant m < |all| && all[m] == current && i <= heights[m]
        invariant m == 0 || Less(current.key, key)
        invariant forall j :: i <= j < levels ==> Precedes(all, heights, j, pos[j], key) && update[j] == all[pos[j]]
      {
        i := i - 1;
        current, m := WalkRight(i, current, m, key);
        update[i] := current;
        pos := pos[i := m];
      }
    }

    // The position to insert behind lies between each predecessor and its successor.
    lemma Straddles(i: nat, u: nat, p: nat, key: bytes)
      requires Ordered(all)
      requires Precedes(all, heights, 0, p, key) && Precedes(all, heights, i, u, key)
      ensures u <= p < NextTall(heights, u, i)
    {
      Bracket(all, heights, 0, p, key);
      Bracket(all, heights, i, u, key);
      NextTallSkips(heights, p, 0);
    }

    // Before the new node becomes part of the list: links below done are redirected, the others are as they were.
    ghost predicate Splicing(node: Node, pos: seq<nat>, done: nat)
      requires |pos| == MAX_LEVELS && done <= |node.next| <= MAX_LEVELS
      requires |all| == |heights|
      reads this, all, node
    {
      && (forall k :: 0 <= k < |all| ==> |all[k].next| == heights[k])
      && (forall k, j {:trigger all[k].next[j]} :: 0 <= k < |all| && 0 <= j < heights[k] ==>
           all[k].next[j] == if j < done && k == pos[j] then node else NodeAt(all, NextTall(heights, k, j)))
      && (forall j :: 0 <= j < done ==> pos[j] < |all| && node.next[j] == NodeAt(all, NextTall(heights, pos[j], j)))
    }

    // Every predecessor's link jumps over the position to insert behind.
    ghost predicate Straddling(pos: seq<nat>, p: nat, h: nat)
      requires h <= |pos|
      reads this
    {
      forall j {:trigger pos[j]} :: 0 <= j < h ==>
        pos[j] <= p < |heights| && j < heights[pos[j]] && p < NextTall(heights, pos[j], j)
    }

    // Once all links are redirected, the pointers spell out the list with the node inserted.
    lemma SplicedLinks(node: Node, pos: seq<nat>, p: nat)
      requires |all| == |heights| && |pos| == MAX_LEVELS && 1 <= |node.next| <= MAX_LEVELS && p < |all|
      requires Straddling(pos, p, |node.next|) && Splicing(node, pos, |node.next|)
      ensures Linked(Inserted(all, p, node), Inserted(heights, p, |node.next|))
    {
      var all', heights' := Inserted(all, p, node), Inserted(heights, p, |node.next|);
      forall k | 0 <= k < |all'| ensures |all'[k].next| == heights'[k] {}
      forall k, i | 0 <= k < |all'| && 0 <= i < heights'[k]
        ensures all'[k].next[i] == NodeAt(all', NextTall(heights', k, i))
      {
        if k == p + 1 {
          SplicedNewLink(node, pos, p, i);
        } else {
          SplicedOldLink(node, pos, p, if k <= p then k else k - 1, i);
        }
      }
    }

    lemma SplicedNewLink(node: Node, pos: seq<nat>, p: nat, i: nat)
      requires |all| == |heights| && |pos| == MAX_LEVELS && i < |node.next| <= MAX_LEVELS && p < |all|
      requires Straddling(pos, p, |node.next|) && Splicing(node, pos, |node.next|)
      ensures node.next[i] == NodeAt(Inserted(all, p, node), NextTall(Inserted(heights, p, |node.next|), p + 1, i))
    {
      NextTallOfInserted(heights, p, |node.next|, pos[i], i);
    }

    lemma SplicedOldLink(node: Node, pos: seq<nat>, p: nat, k: nat, i: nat)
      requires |all| == |heights| && |pos| == MAX_LEVELS && 1 <= |node.next| <= MAX_LEVELS && p < |all|
      requires Straddling(pos, p, |node.next|) && Splicing(node, pos, |node.next|)
      requires k < |all| && i < heights[k]
      ensures all[k].next[i] ==
              NodeAt(Inserted(all, p, node), NextTall(Inserted(heights, p, |node.next|), Shifted(k, p), i))
    {
      NextTallInserted(heights, p, |node.next|, k, i);
      if i < |node.next| {
        NextTallSkips(heights, k, i);
        NextTallSkips(heights, pos[i], i);
        // the last tower at or before p that reaches level i is the predecessor, and only that one jumps over p
        assert k <= p < NextTall(heights, k, i) <==> k == pos[i];
      }
    }

    // The order survives an insertion between the two neighbours of the key.
    lemma OrderedInserted(node: Node, p: nat)
      requires Ordered(all) && node !in all
      requires Precedes(all, heights, 0, p, node.key) && NextTall(heights, p, 0) == p + 1
      requires p + 1 < |all| ==> all[p + 1].key != node.key
      ensures Ordered(Inserted(all, p, node))
    {
      Bracket(all, heights, 0, p, node.key);
      var all' := Inserted(all, p, node);
      forall k | p + 1 < k < |all'| ensures Less(node.key, all'[k].key) {
        assert all'[k] == all[k - 1];
        LessTotal(node.key, all[k - 1].key);
        if k - 1 > p + 1 {
          LessTotal(node.key, all[p + 1].key);
          LessTransitive(node.key, all[p + 1].key, all[k - 1].key);
        }
      }
    }

    // Levels that the list did not use before start at the sentinel.
    method Raise(level: nat, update: array<Node?>, ghost pos: seq<nat>, key: bytes) returns (ghost pos': seq<nat>)
      requires Valid() && update.Length == MAX_LEVELS && |pos| == MAX_LEVELS && levels < level <= MAX_LEVELS
      requires forall j :: 0 <= j < levels ==> Precedes(all, heights, j, pos[j], key) && update[j] == all[pos[j]]
      modifies this, update
      ensures Valid() && unchanged(this`head, this`size, this`all, this`heights, this`Contents, this`Repr)
      ensures levels == level
      ensures |pos'| == MAX_LEVELS && pos'[0] == pos[0]
      ensures forall j :: 0 <= j < level ==> Precedes(all, heights, j, pos'[j], key) && update[j] == all[pos'[j]]
    {
      pos' := pos;
      for i := levels to level
        invariant |pos'| == MAX_LEVELS && pos'[0] == pos[0]
        invariant forall j :: 0 <= j < i ==> Precedes(all, heights, j, pos'[j], key) && update[j] == all[pos'[j]]
        modifies update
      {
        update[i] := head;
        pos' := pos'[i := 0];
      }
      levels := level;
    }

    // One round of the linking loop of add: the new node takes over its predecessor's link at level i.
    method Redirect(node: Node, before: Node, i: nat, ghost pos: seq<nat>)
      requires i < |node.next| <= MAX_LEVELS && |pos| == MAX_LEVELS && |all| == |heights|
      requires forall j, k :: 0 <= j < k < |all| ==> all[j] != all[k]
      requires node !in all && Splicing(node, pos, i)
      requires pos[i] < |all| && i < heights[pos[i]] && before == all[pos[i]]
      modifies before`next, node`next
      ensures |node.next| == old(|node.next|) && Splicing(node, pos, i + 1)
    {
      assert before.next[i] == NodeAt(all, NextTall(heights, pos[i], i));
      node.next := node.next[i := before.next[i]];
      before.next := before.next[i := node];
    }

    method RedirectAll(node: Node, update: array<Node?>, ghost pos: seq<nat>)
      requires update.Length == MAX_LEVELS && |pos| == MAX_LEVELS && 1 <= |node.next| <= MAX_LEVELS
      requires forall j, k :: 0 <= j < k < |all| ==> all[j] != all[k]
      requires node !in all && Linked(all, heights)
      requires forall j {:trigger pos[j]} :: 0 <= j < |node.next| ==>
                 pos[j] < |all| && j < heights[pos[j]] && update[j] == all[pos[j]]
      modifies (set x | x in all)`next, node`next
      ensures |node.next| == old(|node.next|) && Splicing(node, pos, |node.next|)
    {
      ghost var h := |node.next|;
      for i := 0 to |node.next|
        invariant |node.next| == h && Splicing(node, pos, i)
      {
        ghost var u := pos[i];
        Redirect(node, update[i], i, pos);
      }
    }

    // The links of the list with the node in place.
    lemma LinksCommitted(node: Node, pos: seq<nat>)
      requires Ordered(all) && |all| == |heights| && |pos| == MAX_LEVELS && 1 <= |node.next| <= MAX_LEVELS
      requires forall j :: 0 <= j < |node.next| ==> Precedes(all, heights, j, pos[j], node.key)
      requires Splicing(node, pos, |node.next|)
      ensures Linked(Inserted(all, pos[0], node), Inserted(heights, pos[0], |node.next|))
    {
      forall j | 0 <= j < |node.next| ensures pos[j] <= pos[0] < NextTall(heights, pos[j], j) {
        Straddles(j, pos[j], pos[0], node.key);
      }
      SplicedLinks(node, pos, pos[0]);
    }

    // Where a write lands, in terms of the position found at level 0.
    lemma LandsAt(p: nat, e: Entry)
      requires Valid() && Precedes(all, heights, 0, p, e.K)
      ensures NextTall(heights, p, 0) == p + 1 && |all[p].next| > 0 && all[p].next[0] == NodeAt(all, p + 1)
      ensures Upsert(Contents, e) ==
              if p + 1 < |all| && all[p + 1].key == e.K then Contents[p := e] else Contents[..p] + [e] + Contents[p..]
    {
      DecideAt(p, e.K);
      UpsertSplit(Contents, e, p);
    }

    // The new node becomes part of the list.
    method Commit(node: Node, ghost p: nat)
      requires p < |all| == |heights| && |Contents| + 1 == |all| && all[0] == head && size == |Contents|
      requires Ordered(Inserted(all, p, node)) && Towers(Inserted(heights, p, |node.next|), levels)
      requires Linked(Inserted(all, p, node), Inserted(heights, p, |node.next|))
      requires Spells(all, Contents) && (forall k :: 0 <= k < |all| ==> all[k] in Repr)
      modifies this
      ensures Valid() && Repr == old(Repr) + {node} && levels == old(levels)
      ensures Contents == old(Contents)[..p] + [Entry(node.key, node.value.Value, node.value.Type)] + old(Contents)[p..]
    {
      ghost var e := Entry(node.key, node.value.Value, node.value.Type);
      size := size + 1;
      heights := Inserted(heights, p, |node.next|);
      all := Inserted(all, p, node);
      Contents := Contents[..p] + [e] + Contents[p..];
      Repr := Repr + {node};
    }

    method Link(key: bytes, val: StorageEntry, update: array<Node?>, level: nat, ghost pos: seq<nat>)
      requires Valid() && update.Length == MAX_LEVELS && |pos| == MAX_LEVELS && 1 <= level <= levels
      requires forall j :: 0 <= j < level ==> Precedes(all, heights, j, pos[j], key) && update[j] == all[pos[j]]
      requires pos[0] < |all| && NextTall(heights, pos[0], 0) == pos[0] + 1
      requires pos[0] + 1 < |all| ==> all[pos[0] + 1].key != key
      modifies this, (set x | x in all)`next
      ensures Valid() && fresh(Repr - old(Repr))
      ensures Contents == old(Contents)[..pos[0]] + [Entry(key, val.Value, val.Type)] + old(Contents)[pos[0]..]
    {
      var node := new Node(key, val, level);
      OrderedInserted(node, pos[0]);
      RedirectAll(node, update, pos);
      LinksCommitted(node, pos);
      Commit(node, pos[0]);
    }

    // The key is new: choose a height and link a node for it.
    method AddNew(key: bytes, val: StorageEntry, update: array<Node?>, ghost pos: seq<nat>)
      requires Valid() && update.Length == MAX_LEVELS && |pos| == MAX_LEVELS
      requires forall j :: 0 <= j < levels ==> Precedes(all, heights, j, pos[j], key) && update[j] == all[pos[j]]
      requires pos[0] < |all| && NextTall(heights, pos[0], 0) == pos[0] + 1
      requires pos[0] + 1 < |all| ==> all[pos[0] + 1].key != key
      modifies this, (set x | x in all)`next, update
      ensures Valid() && fresh(Repr - old(Repr))
      ensures Contents == old(Contents)[..pos[0]] + [Entry(key, val.Value, val.Type)] + old(Contents)[pos[0]..]
    {
      var level := GenerateLevel();
      ghost var pos' := pos;
      if level > levels {
        pos' := Raise(level, update, pos, key);
      }
      Link(key, val, update, level, pos');
    }

    // Adding an existing key replaces its value.
    method Overwrite(node: Node, val: StorageEntry, ghost p: nat)
      requires Valid() && p < |Contents| && all[p + 1] == node
      modifies this`Contents, node`value
      ensures Valid() && Contents == old(Contents)[p := Entry(node.key, val.Value, val.Type)]
    {
      node.value := val;
      Contents := Contents[p := Entry(node.key, val.Value, val.Type)];
    }

    method Add(key: bytes, val: StorageEntry)
      requires Valid()
      modifies this, Repr
      ensures Valid() && fresh(Repr - old(Repr))
      ensures Contents == Upsert(old(Contents), Entry(key, val.Value, val.Type))
    {
      var update := new Node?[MAX_LEVELS];
      ghost var pos := FindPredecessors(key, update);
      LandsAt(pos[0], Entry(key, val.Value, val.Type));
      var next := update[0].next[0];
      if next != null && next.key == key {
        Overwrite(next, val, pos[0]);
      } else {
        AddNew(key, val, update, pos);
      }
    }

    // A key-sorted snapshot of the list.
    method Entries() returns (entries: seq<Entry>)
      requires Valid()
      ensures entries == Contents
      ensures forall i, j :: 0 <= i < j < |entries| ==> BytewiseLess(entries[i].K, entries[j].K)
    {
      ContentsSorted();
      forall i, j | 0 <= i < j < |Contents| ensures BytewiseLess(Contents[i].K, Contents[j].K) {
        LessIsBytewise(Contents[i].K, Contents[j].K);
      }
      entries := [];
      var current := head.next[0];
      ghost var m := NextTall(heights, 0, 0);
      while current != null
        invariant 1 <= m <= |all| && current == NodeAt(all, m)
        invariant entries == Contents[..m - 1]
        decreases |all| - m
      {
        entries := entries + [Entry(current.key, current.value.Value, current.value.Type)];
        current, m := current.next[0], NextTall(heights, m, 0);
      }
    }

    method Clear()
      requires Valid()
      modifies this, Repr
      ensures Valid() && fresh(Repr - old(Repr))
      ensures Contents == [] && size == 0
    {
      head.next := seq(MAX_LEVELS, _ => null);
      levels := 1;
      size := 0;
      all := [head];
      heights := [MAX_LEVELS];
      Contents := [];
    }
  }
}
