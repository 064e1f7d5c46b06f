// The memtable: the skip list behind its lock, one atomic step per method.

module MemTables {
  import opened Base
  import opened SkipLists
  import opened Machine
  import opened EngineState

  class MemTable {
    const kv: SkipList

    // Its entries are writes: a tombstone carries no value.
    ghost predicate Valid()
      reads this, kv, kv.Repr
    {
      kv.Valid() && Sorted(kv.Contents) && AllWrites(kv.Contents)
    }

    constructor ()
      ensures Valid() && fresh(kv) && fresh(kv.Repr) && kv.Contents == []
    {
      kv := new SkipList();
    }

    method Get(key: bytes) returns (r: Option<StorageEntry>)
      requires Valid()
      ensures r == Lookup(kv.Contents, key)
    {
      r := kv.Get(key);
    }

    // Both writes leave the entry behind and say how many keys there are.
    method Put(key: bytes, value: bytes) returns (count: nat)
      requires Valid()
      modifies kv, kv.Repr
      ensures Valid() && fresh(kv.Repr - old(kv.Repr))
      ensures kv.Contents == Upsert(old(kv.Contents), Entry(key, value, EntryType.Put)) && count == |kv.Contents|
    {
      UpsertSorted(kv.Contents, Entry(key, value, EntryType.Put));
      WritesUpserted(kv.Contents, Entry(key, value, EntryType.Put));
      kv.Add(key, StorageEntry(EntryType.Put, value));
      count := kv.size;
    }

    method Delete(key: bytes) returns (count: nat)
      requires Valid()
      modifies kv, kv.Repr
      ensures Valid() && fresh(kv.Repr - old(kv.Repr))
      ensures kv.Contents == Upsert(old(kv.Contents), Entry(key, [], EntryType.Delete)) && count == |kv.Contents|
    {
      UpsertSorted(kv.Contents, Entry(key, [], EntryType.Delete));
      WritesUpserted(kv.Contents, Entry(key, [], EntryType.Delete));
      kv.Add(key, StorageEntry(EntryType.Delete, []));
      count := kv.size;
    }

    method Entries() returns (entries: seq<Entry>)
      requires Valid()
      ensures entries == kv.Contents
      ensures forall i, j :: 0 <= i < j < |entries| ==> BytewiseLess(entries[i].K, entries[j].K)
    {
      entries := kv.Entries();
    }

    method Clear()
      requires Valid()
      modifies kv, kv.Repr
      ensures Valid() && fresh(kv.Repr - old(kv.Repr)) && kv.Contents == []
    {
      kv.Clear();
    }
  }
}
