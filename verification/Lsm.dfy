// The meaning of a stack of runs: newest table first, level 0 before level 1.

module Lsm {
  import opened Base

  type Run = seq<Entry>

  // Tables of one level are listed oldest first and searched from the end.
  function ScanNewest(runs: seq<Run>, key: bytes): Option<StorageEntry> {
    if runs == [] then None
    else if Lookup(runs[|runs| - 1], key).Some? then Lookup(runs[|runs| - 1], key)
    else ScanNewest(runs[..|runs| - 1], key)
  }

  function StoreLookup(l0: seq<Run>, l1: seq<Run>, key: bytes): Option<StorageEntry> {
    if ScanNewest(l0, key).Some? then ScanNewest(l0, key) else ScanNewest(l1, key)
  }

  lemma {:induction false} ScanHit(runs: seq<Run>, i: nat, key: bytes)
    requires i < |runs| && Lookup(runs[i], key).Some?
    requires forall j :: i < j < |runs| ==> Lookup(runs[j], key) == None
    ensures ScanNewest(runs, key) == Lookup(runs[i], key)
  {
    if i < |runs| - 1 {
      ScanHit(runs[..|runs| - 1], i, key);
    }
  }

  lemma {:induction false} ScanMiss(runs: seq<Run>, key: bytes)
    requires forall j :: 0 <= j < |runs| ==> Lookup(runs[j], key) == None
    ensures ScanNewest(runs, key) == None
  {
    if runs != [] {
      ScanMiss(runs[..|runs| - 1], key);
    }
  }

  // The scan depends on nothing but what each table answers.
  lemma {:induction false} ScanSame(runs: seq<Run>, runs': seq<Run>, key: bytes)
    requires |runs| == |runs'|
    requires forall j :: 0 <= j < |runs| ==> Lookup(runs[j], key) == Lookup(runs'[j], key)
    ensures ScanNewest(runs, key) == ScanNewest(runs', key)
  {
    if runs != [] {
      ScanSame(runs[..|runs| - 1], runs'[..|runs| - 1], key);
    }
  }

  lemma ScanSnoc(runs: seq<Run>, run: Run, key: bytes)
    ensures ScanNewest(runs + [run], key) == if Lookup(run, key).Some? then Lookup(run, key) else ScanNewest(runs, key)
  {
    assert (runs + [run])[..|runs|] == runs;
  }

  // ---------- Cutting one run into consecutive tables ----------

  function Flatten(chunks: seq<Run>): Run {
    if chunks == [] then [] else Flatten(chunks[..|chunks| - 1]) + chunks[|chunks| - 1]
  }

  lemma FlattenGrows(chunks: seq<Run>, chunk: Run, grown: seq<Run>)
    requires grown == chunks + [chunk]
    ensures Flatten(grown) == Flatten(chunks) + chunk
  {
    assert grown[..|chunks|] == chunks;
  }

  // Searching the pieces of a sorted run, last piece first, is searching the run.
  lemma {:induction false} ScanChunks(chunks: seq<Run>, key: bytes)
    requires Sorted(Flatten(chunks))
    ensures ScanNewest(chunks, key) == Lookup(Flatten(chunks), key)
  {
    if chunks != [] {
      var init, last := chunks[..|chunks| - 1], chunks[|chunks| - 1];
      var whole := Flatten(chunks);
      assert whole[..|Flatten(init)|] == Flatten(init);
      forall i, j | 0 <= i < j < |Flatten(init)| ensures Less(Flatten(init)[i].K, Flatten(init)[j].K) {
        assert Less(whole[i].K, whole[j].K);
      }
      ScanChunks(init, key);
      LookupAppend(Flatten(init), last, key);
      if Lookup(Flatten(init), key).Some? && Lookup(last, key).Some? {
        var i := LookupWitness(Flatten(init), key);
        var j := LookupWitness(last, key);
        assert Less(whole[i].K, whole[|Flatten(init)| + j].K);
        LessIrreflexive(key);
      }
    }
  }

  lemma {:induction false} InFlatten(chunks: seq<Run>, i: nat, k: nat) returns (p: nat)
    requires i < |chunks| && k < |chunks[i]|
    ensures p < |Flatten(chunks)| && Flatten(chunks)[p] == chunks[i][k]
  {
    var init := chunks[..|chunks| - 1];
    if i == |chunks| - 1 {
      p := |Flatten(init)| + k;
    } else {
      p := InFlatten(init, i, k);
    }
  }

  // Pieces of a sorted run cover disjoint, ascending ranges of keys.
  lemma {:induction false} PiecesAscend(chunks: seq<Run>, i: nat, j: nat)
    requires Sorted(Flatten(chunks)) && i < j < |chunks| && chunks[i] != [] && chunks[j] != []
    ensures Less(chunks[i][|chunks[i]| - 1].K, chunks[j][0].K)
  {
    var init, last, whole := chunks[..|chunks| - 1], chunks[|chunks| - 1], Flatten(chunks);
    if j == |chunks| - 1 {
      var p := InFlatten(init, i, |chunks[i]| - 1);
      assert whole[p] == Flatten(init)[p] && whole[|Flatten(init)|] == last[0];
    } else {
      assert whole[..|Flatten(init)|] == Flatten(init);
      forall a, b | 0 <= a < b < |Flatten(init)| ensures Less(Flatten(init)[a].K, Flatten(init)[b].K) {
        assert Less(whole[a].K, whole[b].K);
      }
      PiecesAscend(init, i, j);
    }
  }

  lemma {:induction false} PieceSorted(chunks: seq<Run>, i: nat)
    requires Sorted(Flatten(chunks)) && i < |chunks|
    ensures Sorted(chunks[i])
  {
    var init, last, whole := chunks[..|chunks| - 1], chunks[|chunks| - 1], Flatten(chunks);
    if i == |chunks| - 1 {
      forall a, b | 0 <= a < b < |last| ensures Less(last[a].K, last[b].K) {
        assert whole[|Flatten(init)| + a] == last[a] && whole[|Flatten(init)| + b] == last[b];
      }
    } else {
      assert whole[..|Flatten(init)|] == Flatten(init);
      forall a, b | 0 <= a < b < |Flatten(init)| ensures Less(Flatten(init)[a].K, Flatten(init)[b].K) {
        assert Less(whole[a].K, whole[b].K);
      }
      PieceSorted(init, i);
    }
  }

  // A key is in one piece only.
  lemma OnePieceHolds(chunks: seq<Run>, j: nat, key: bytes)
    requires Sorted(Flatten(chunks)) && j < |chunks| && Lookup(chunks[j], key).Some?
    ensures forall i :: 0 <= i < |chunks| && i != j ==> Lookup(chunks[i], key) == None
  {
    forall i | 0 <= i < |chunks| && i != j ensures Lookup(chunks[i], key) == None {
      if Lookup(chunks[i], key).Some? {
        if i < j {
          NotInBoth(chunks, i, j, key);
        } else {
          NotInBoth(chunks, j, i, key);
        }
      }
    }
  }

  lemma NotInBoth(chunks: seq<Run>, i: nat, j: nat, key: bytes)
    requires Sorted(Flatten(chunks)) && i < j < |chunks|
    ensures Lookup(chunks[i], key) == None || Lookup(chunks[j], key) == None
  {
    if Lookup(chunks[i], key).Some? && Lookup(chunks[j], key).Some? {
      var a := LookupWitness(chunks[i], key);
      var b := LookupWitness(chunks[j], key);
      PieceSorted(chunks, i);
      PieceSorted(chunks, j);
      PiecesAscend(chunks, i, j);
      var last, first := chunks[i][|chunks[i]| - 1].K, chunks[j][0].K;
      if a < |chunks[i]| - 1 {
        LessTransitive(key, last, first);
      }
      if b > 0 {
        LessTransitive(key, first, key);
      }
      LessIrreflexive(key);
    }
  }
}
