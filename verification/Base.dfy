// Byte strings with Go's ordering, storage entries, and sorted runs of entries.

module Base {

  datatype Option<+T> = None | Some(value: T)

  datatype Error =
    | TooManyEntries | NotSorted | EmptyField | FieldTooLong | ContainsNul | InvalidType
    | NotPageAligned | InvalidBlockCount | InvalidIndex | BlockOutOfRange | CrcMismatch
    | InvalidEntryCount | UnsortedBlock
    | InvalidSidecar
    | InvalidManifest
    | MalformedLine | LineTooLong | IoFailure

  datatype Result<+T> = Ok(value: T) | Err(error: Error)

  type byte = x: int | 0 <= x < 0x100
  type bytes = seq<byte>
  type uint32 = x: int | 0 <= x < 0x1_0000_0000
  type uint64 = x: int | 0 <= x < 0x1_0000_0000_0000_0000

  datatype EntryType = Put | Delete | Other(name: bytes)

  datatype StorageEntry = StorageEntry(Type: EntryType, Value: bytes)

  datatype Entry = Entry(K: bytes, V: bytes, Type: EntryType)
  {
    function Stored(): StorageEntry { StorageEntry(Type, V) }
  }

  // ---------- The order on keys: Go's byte-wise string comparison ----------

  predicate Less(a: bytes, b: bytes) {
    if b == [] then false
    else if a == [] then true
    else if a[0] != b[0] then a[0] < b[0]
    else Less(a[1..], b[1..])
  }

  lemma LessIrreflexive(a: bytes)
    ensures !Less(a, a)
  {}

  lemma {:induction false} LessTransitive(a: bytes, b: bytes, c: bytes)
    requires Less(a, b) && Less(b, c)
    ensures Less(a, c)
  {
    if a != [] && a[0] == b[0] == c[0] {
      LessTransitive(a[1..], b[1..], c[1..]);
    }
  }

  lemma {:induction false} LessTotal(a: bytes, b: bytes)
    ensures Less(a, b) || a == b || Less(b, a)
  {
    if a != [] && b != [] && a[0] == b[0] {
      LessTotal(a[1..], b[1..]);
      assert a == [a[0]] + a[1..] && b == [b[0]] + b[1..];
    }
  }

  lemma LessAsymmetric(a: bytes, b: bytes)
    requires Less(a, b)
    ensures !Less(b, a) && a != b
  {
    LessIrreflexive(a);
    if Less(b, a) {
      LessTransitive(a, b, a);
    }
  }

  // The two agree up to k, and there the first one ends or has the smaller byte.
  ghost predicate FirstDifference(a: bytes, b: bytes, k: int) {
    0 <= k <= |a| && k <= |b| && a[..k] == b[..k] && (k == |a| < |b| || (k < |a| && k < |b| && a[k] < b[k]))
  }

  ghost predicate BytewiseLess(a: bytes, b: bytes) {
    exists k :: FirstDifference(a, b, k)
  }

  // The order is decided by the first byte in which two strings differ, and a proper prefix comes first.
  lemma {:induction false} LessIsBytewise(a: bytes, b: bytes)
    ensures Less(a, b) <==> BytewiseLess(a, b)
  {
    if a == [] || b == [] || a[0] != b[0] {
      assert Less(a, b) ==> FirstDifference(a, b, 0);
      forall k | 0 < k <= |a| && k <= |b| ensures a[..k] == b[..k] ==> a[0] == b[0] {
        assert a[..k][0] == a[0] && b[..k][0] == b[0];
      }
    } else {
      LessIsBytewise(a[1..], b[1..]);
      if k :| FirstDifference(a[1..], b[1..], k) {
        assert a[..k + 1] == [a[0]] + a[1..][..k] && b[..k + 1] == [b[0]] + b[1..][..k];
        assert FirstDifference(a, b, k + 1);
      }
      if k :| FirstDifference(a, b, k) {
        assert a[1..][..k - 1] == a[..k][1..] && b[1..][..k - 1] == b[..k][1..];
        assert FirstDifference(a[1..], b[1..], k - 1);
      }
    }
  }

  // ---------- Sorted runs ----------

  ghost predicate Sorted(run: seq<Entry>) {
    forall i, j :: 0 <= i < j < |run| ==> Less(run[i].K, run[j].K)
  }

  // Comparing a new entry with the last one, as the source does, keeps the whole run sorted.
  lemma SortedSnoc(run: seq<Entry>, e: Entry)
    requires Sorted(run) && (run != [] ==> Less(run[|run| - 1].K, e.K))
    ensures Sorted(run + [e])
  {
    forall i | 0 <= i < |run| ensures Less(run[i].K, e.K) {
      if i < |run| - 1 {
        LessTransitive(run[i].K, run[|run| - 1].K, e.K);
      }
    }
  }

  // The plain scan: what every faster lookup must agree with.
  function Lookup(run: seq<Entry>, key: bytes): Option<StorageEntry> {
    if run == [] then None
    else if run[0].K == key then Some(run[0].Stored())
    else Lookup(run[1..], key)
  }

  lemma {:induction false} LookupHit(run: seq<Entry>, i: nat)
    requires Sorted(run) && i < |run|
    ensures Lookup(run, run[i].K) == Some(run[i].Stored()) == Some(StorageEntry(run[i].Type, run[i].V))
  {
    if i > 0 {
      LessAsymmetric(run[0].K, run[i].K);
      assert run[i] == run[1..][i - 1];
      LookupHit(run[1..], i - 1);
    }
  }

  lemma {:induction false} LookupMiss(run: seq<Entry>, key: bytes)
    requires forall i :: 0 <= i < |run| ==> run[i].K != key
    ensures Lookup(run, key) == None
  {
    if run != [] {
      LookupMiss(run[1..], key);
    }
  }

  lemma {:induction false} LookupWitness(run: seq<Entry>, key: bytes) returns (i: nat)
    requires Lookup(run, key).Some?
    ensures i < |run| && run[i].K == key && Lookup(run, key) == Some(run[i].Stored())
  {
    if run[0].K == key {
      i := 0;
    } else {
      var j := LookupWitness(run[1..], key);
      i := j + 1;
    }
  }

  lemma {:induction false} LookupAppend(a: seq<Entry>, b: seq<Entry>, key: bytes)
    ensures Lookup(a + b, key) == if Lookup(a, key).Some? then Lookup(a, key) else Lookup(b, key)
  {
    if a == [] {
      assert a + b == b;
    } else {
      assert (a + b)[1..] == a[1..] + b;
      LookupAppend(a[1..], b, key);
    }
  }

  // Insert or overwrite: the meaning of a write to an ordered table.
  function Upsert(run: seq<Entry>, e: Entry): seq<Entry> {
    if run == [] then [e]
    else if run[0].K == e.K then [e] + run[1..]
    else if Less(e.K, run[0].K) then [e] + run
    else [run[0]] + Upsert(run[1..], e)
  }

  // Where the write lands: after every smaller key, replacing an equal one.
  lemma {:induction false} UpsertSplit(run: seq<Entry>, e: Entry, p: nat)
    requires p <= |run|
    requires forall i :: 0 <= i < p ==> Less(run[i].K, e.K)
    requires p < |run| ==> !Less(run[p].K, e.K)
    ensures Upsert(run, e) ==
            run[..p] + [e] + (if p < |run| && run[p].K == e.K then run[p + 1..] else run[p..])
  {
    if p == 0 {
      if run != [] {
        LessTotal(run[0].K, e.K);
      }
    } else {
      LessAsymmetric(run[0].K, e.K);
      var rest := run[1..];
      forall i | 0 <= i < p - 1 ensures Less(rest[i].K, e.K) {
        assert rest[i] == run[i + 1];
      }
      UpsertSplit(rest, e, p - 1);
      assert run[..p] == [run[0]] + rest[..p - 1];
    }
  }

  lemma {:induction false} UpsertLookup(run: seq<Entry>, e: Entry, key: bytes)
    requires Sorted(run)
    ensures Lookup(Upsert(run, e), key) == if key == e.K then Some(e.Stored()) else Lookup(run, key)
  {
    if run != [] && run[0].K != e.K && !Less(e.K, run[0].K) {
      UpsertLookup(run[1..], e, key);
      assert Upsert(run, e)[1..] == Upsert(run[1..], e);
    } else if run != [] {
      assert Upsert(run, e)[1..] == if run[0].K == e.K then run[1..] else run;
    }
  }

  lemma {:induction false} UpsertSorted(run: seq<Entry>, e: Entry)
    requires Sorted(run)
    ensures Sorted(Upsert(run, e))
    ensures |Upsert(run, e)| == |run| + if Lookup(run, e.K).Some? then 0 else 1
  {
    if run == [] {
    } else if run[0].K == e.K {
    } else if Less(e.K, run[0].K) {
      forall i | 0 <= i < |run|
        ensures Less(e.K, run[i].K) && run[i].K != e.K
      {
        if i > 0 {
          LessTransitive(e.K, run[0].K, run[i].K);
        }
        LessAsymmetric(e.K, run[i].K);
      }
      LookupMiss(run, e.K);
    } else {
      LessTotal(run[0].K, e.K);
      UpsertSorted(run[1..], e);
      var rest := Upsert(run[1..], e);
      forall j | 0 <= j < |rest|
        ensures Less(run[0].K, rest[j].K)
      {
        UpsertKeys(run[1..], e);
        assert rest[j] in rest;
        if rest[j] != e {
          var i :| 0 <= i < |run[1..]| && run[1..][i] == rest[j];
          assert Less(run[0].K, run[i + 1].K);
        }
      }
    }
  }

  lemma {:induction false} UpsertKeys(run: seq<Entry>, e: Entry)
    ensures forall x :: x in Upsert(run, e) ==> x == e || x in run
  {
    if run != [] && run[0].K != e.K && !Less(e.K, run[0].K) {
      UpsertKeys(run[1..], e);
    }
  }

  // Two sorted runs that answer every lookup alike are the same run.
  lemma {:induction false} SameLookupsSameRun(a: seq<Entry>, b: seq<Entry>)
    requires Sorted(a) && Sorted(b)
    requires forall k :: Lookup(a, k) == Lookup(b, k)
    ensures a == b
  {
    if a == [] {
      if b != [] {
        LookupHit(b, 0);
      }
    } else if b == [] {
      LookupHit(a, 0);
    } else {
      SameHeads(a, b);
      SameHeads(b, a);
      LessTotal(a[0].K, b[0].K);
      LookupHit(a, 0);
      LookupHit(b, 0);
      assert a[0] == b[0];
      forall k ensures Lookup(a[1..], k) == Lookup(b[1..], k) {
        assert Lookup(a, k) == Lookup(b, k);
        if k == a[0].K {
          NotInTail(a);
          NotInTail(b);
        }
      }
      SameLookupsSameRun(a[1..], b[1..]);
    }
  }

  lemma NotInTail(a: seq<Entry>)
    requires Sorted(a) && a != []
    ensures Lookup(a[1..], a[0].K) == None
  {
    forall i | 0 <= i < |a[1..]| ensures a[1..][i].K != a[0].K {
      LessAsymmetric(a[0].K, a[i + 1].K);
    }
    LookupMiss(a[1..], a[0].K);
  }

  lemma SameHeads(a: seq<Entry>, b: seq<Entry>)
    requires Sorted(a) && Sorted(b) && a != [] && b != []
    requires forall k :: Lookup(a, k) == Lookup(b, k)
    ensures !Less(a[0].K, b[0].K)
  {
    if Less(a[0].K, b[0].K) {
      LookupHit(a, 0);
      assert Lookup(b, a[0].K).Some?;
      var i := LookupWitness(b, a[0].K);
      if i > 0 {
        LessTransitive(b[0].K, b[i].K, b[0].K);
      }
      LessIrreflexive(b[0].K);
    }
  }
}
