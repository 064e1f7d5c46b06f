// Writing a table file, opening it, and finding a key in it.

module TableFiles {
  import opened Base
  import opened Tables
  import opened TableFormat

  // (*os.File).WriteAt: the gap behind the old end reads as zeros.
  function WriteAt(file: bytes, data: bytes, off: nat): bytes {
    var grown := if |file| < off + |data| then file + Zeros(off + |data| - |file|) else file;
    grown[..off] + data + grown[off + |data|..]
  }

  // The file after n data pages: nothing at all, or an index page still blank and the pages.
  ghost function Partial(blocks: seq<bytes>): bytes
    requires forall b :: 0 <= b < |blocks| ==> |blocks[b]| == BLOCK_SIZE
  {
    if blocks == [] then [] else Zeros(BLOCK_SIZE) + Flat(blocks, BLOCK_SIZE)
  }

  lemma WriteDataPage(blocks: seq<bytes>, block: bytes)
    requires |block| == BLOCK_SIZE && forall b :: 0 <= b < |blocks| ==> |blocks[b]| == BLOCK_SIZE
    ensures WriteAt(Partial(blocks), block, (|blocks| + 1) * BLOCK_SIZE) == Partial(blocks + [block])
  {
    assert (blocks + [block])[..|blocks|] == blocks;
    if blocks == [] {
      assert Flat([block], BLOCK_SIZE) == block;
    }
  }

  // The destination of an index key is the rest of the page, so only its emptiness, a NUL byte
  // or a length beyond the page are rejected here.
  method WriteIndexKey(index: array<byte>, at: nat, key: bytes) returns (err: Option<Error>)
    requires at + FIELD_SIZE <= index.Length
    requires forall k :: at <= k < index.Length ==> index[k] == 0
    modifies index
    ensures Storable(key) ==>
              && err.None?
              && index[..at + FIELD_SIZE] == old(index[..at]) + Pad(key, FIELD_SIZE)
              && forall k :: at + FIELD_SIZE <= k < index.Length ==> index[k] == 0
    ensures err.Some? ==> !Storable(key)
  {
    err := WritePaddedString(index, at, index.Length, key);
    if err.None? {
      assert forall k :: 0 <= k < index.Length ==> index[k] == index[..][k];
    }
  }

  lemma PaddedKeysSnoc(keys: seq<bytes>, key: bytes)
    requires Storable(key) && forall i :: 0 <= i < |keys| ==> Storable(keys[i])
    ensures KeySlots(keys + [key]) == KeySlots(keys) + Pad(key, FIELD_SIZE)
  {
    assert PaddedKeys(keys + [key])[..|keys|] == PaddedKeys(keys);
  }

  ghost predicate ChunksWritten(crc: Checksum, entries: seq<Entry>, blocks: seq<bytes>)
    requires |blocks| <= BlockCount(|entries|)
  {
    forall b :: 0 <= b < |blocks| ==> Writable(Chunk(entries, b)) && blocks[b] == DataBlock(crc, Chunk(entries, b))
  }

  lemma ChunksWrittenSnoc(crc: Checksum, entries: seq<Entry>, blocks: seq<bytes>)
    requires |blocks| < BlockCount(|entries|) && ChunksWritten(crc, entries, blocks)
    requires Writable(Chunk(entries, |blocks|))
    ensures ChunksWritten(crc, entries, blocks + [DataBlock(crc, Chunk(entries, |blocks|))])
  {}

  method EncodeChunk(crc: Checksum, entries: seq<Entry>, b: nat) returns (r: Result<bytes>)
    requires b < BlockCount(|entries|)
    ensures r.Ok? <==> Writable(Chunk(entries, b))
    ensures r.Ok? ==> r.value == DataBlock(crc, Chunk(entries, b))
  {
    var start := b * BLOCK_ENTRIES;
    var end := if start + BLOCK_ENTRIES <= |entries| then start + BLOCK_ENTRIES else |entries|;
    r := EncodeDataBlock(crc, entries[start..end]);
  }

  method CheckSorted(entries: seq<Entry>) returns (ok: bool)
    ensures ok <==> Sorted(entries)
  {
    var i := 1;
    while i < |entries|
      invariant 1 <= i && (i <= |entries| ==> Sorted(entries[..i]))
      invariant i <= |entries| || i == 1
    {
      assert entries[..i + 1] == entries[..i] + [entries[i]];
      if !Less(entries[i - 1].K, entries[i].K) {
        return false;
      }
      SortedSnoc(entries[..i], entries[i]);
      i := i + 1;
    }
    assert |entries| > 0 ==> entries[..|entries|] == entries;
    return true;
  }

  lemma AllChunksWritten(crc: Checksum, entries: seq<Entry>, blocks: seq<bytes>)
    requires Sorted(entries) && |blocks| == BlockCount(|entries|) && ChunksWritten(crc, entries, blocks)
    ensures Writable(entries) && blocks == DataBlocks(crc, entries, |blocks|)
  {
    forall i | 0 <= i < |entries| ensures EntryWritable(entries[i]) {
      var b := i / BLOCK_ENTRIES;
      assert Writable(Chunk(entries, b));
      assert Chunk(entries, b)[i - b * BLOCK_ENTRIES] == entries[i];
    }
  }

  lemma ChunkKeyStorable(entries: seq<Entry>, b: nat)
    requires b < BlockCount(|entries|) && Writable(Chunk(entries, b))
    ensures Storable(FirstKeys(entries)[b])
  {
    assert EntryWritable(Chunk(entries, b)[0]);
  }

  // The state of the index page after n blocks.
  ghost predicate IndexSoFar(page: bytes, count: byte, keys: seq<bytes>) {
    && |page| == BLOCK_SIZE && |keys| <= INDEX_CAPACITY
    && (forall i :: 0 <= i < |keys| ==> Storable(keys[i]))
    && page[..FIELD_SIZE + FIELD_SIZE * |keys|] == [count] + Zeros(FIELD_SIZE - 1) + KeySlots(keys)
    && forall k :: FIELD_SIZE + FIELD_SIZE * |keys| <= k < BLOCK_SIZE ==> page[k] == 0
  }

  method AddIndexKey(index: array<byte>, ghost count: byte, ghost keys: seq<bytes>, at: nat,
                     key: bytes) returns (err: Option<Error>)
    requires index.Length == BLOCK_SIZE && |keys| < INDEX_CAPACITY && at == FIELD_SIZE + FIELD_SIZE * |keys|
    requires IndexSoFar(index[..], count, keys)
    modifies index
    ensures Storable(key) ==> err.None? && IndexSoFar(index[..], count, keys + [key])
    ensures err.Some? ==> !Storable(key)
  {
    assert forall k :: 0 <= k < index.Length ==> index[k] == index[..][k];
    assert index[..at] == index[..][..at];
    err := WriteIndexKey(index, at, key);
    if Storable(key) {
      PaddedKeysSnoc(keys, key);
      assert index[..][..at + FIELD_SIZE] == index[..at + FIELD_SIZE];
    }
  }

  method WriteBlockBasedTable(crc: Checksum, entries: seq<Entry>) returns (r: Result<bytes>)
    ensures r.Ok? <==> Accepted(entries, 1953)
    ensures r.Ok? ==> FileHolds(crc, r.value, entries)
    ensures r.Ok? <==> Writable(entries) && |entries| <= MAX_ENTRIES
    ensures r.Ok? ==> r.value == TableFile(crc, entries)
  {
    AcceptedIff(entries, 1953);
    if Writable(entries) && |entries| <= MAX_ENTRIES {
      TableFileHolds(crc, entries);
    }
    hide Accepted, FileHolds, TableFile;
    if |entries| > MAX_ENTRIES {
      return Err(TooManyEntries);
    }
    var sorted := CheckSorted(entries);
    if !sorted {
      return Err(NotSorted);
    }
    r := WriteSortedTable(crc, entries);
  }

  // One round of the writing loop: the block's first key goes to the index, its entries to a page of their own.
  method WriteChunk(crc: Checksum, entries: seq<Entry>, b: nat, index: array<byte>, file: bytes,
                    ghost blocks: seq<bytes>)
    returns (r: Result<bytes>)
    requires |entries| <= MAX_ENTRIES && b < BlockCount(|entries|) && |blocks| == b
    requires (forall i :: 0 <= i < b ==> |blocks[i]| == BLOCK_SIZE) && file == Partial(blocks)
    requires index.Length == BLOCK_SIZE && IndexSoFar(index[..], BlockCount(|entries|), FirstKeys(entries)[..b])
    modifies index
    ensures r.Ok? <==> Writable(Chunk(entries, b))
    ensures r.Ok? ==> r.value == Partial(blocks + [DataBlock(crc, Chunk(entries, b))])
    ensures r.Ok? ==> IndexSoFar(index[..], BlockCount(|entries|), FirstKeys(entries)[..b + 1])
  {
    ghost var keys := FirstKeys(entries);
    assert keys[..b] + [keys[b]] == keys[..b + 1];
    if Writable(Chunk(entries, b)) {
      ChunkKeyStorable(entries, b);
    }
    var err := AddIndexKey(index, BlockCount(|entries|), keys[..b], FIELD_SIZE + b * FIELD_SIZE,
                           entries[b * BLOCK_ENTRIES].K);
    if err.Some? {
      return Err(err.value);
    }
    r := EncodeChunk(crc, entries, b);
    if r.Ok? {
      WriteDataPage(blocks, r.value);
      r := Ok(WriteAt(file, r.value, (b + 1) * BLOCK_SIZE));
    }
  }

  method WriteSortedTable(crc: Checksum, entries: seq<Entry>) returns (r: Result<bytes>)
    requires Sorted(entries) && |entries| <= MAX_ENTRIES
    ensures r.Ok? <==> Writable(entries)
    ensures r.Ok? ==> r.value == TableFile(crc, entries)
  {
    var count := BlockCount(|entries|);
    var index := new byte[BLOCK_SIZE](_ => 0);
    index[0] := count;
    var file := [];
    ghost var blocks := [];
    assert IndexSoFar(index[..], count, FirstKeys(entries)[..0]);
    for b := 0 to count
      invariant |blocks| == b && ChunksWritten(crc, entries, blocks) && file == Partial(blocks)
      invariant IndexSoFar(index[..], count, FirstKeys(entries)[..b])
    {
      var written := WriteChunk(crc, entries, b, index, file, blocks);
      if written.Err? {
        return written;
      }
      file := written.value;
      ChunksWrittenSnoc(crc, entries, blocks);
      blocks := blocks + [DataBlock(crc, Chunk(entries, b))];
    }
    FileComplete(crc, entries, blocks, index[..]);
    return Ok(WriteAt(file, index[..], 0));
  }

  // All blocks and the index are in place.
  lemma FileComplete(crc: Checksum, entries: seq<Entry>, blocks: seq<bytes>, page: bytes)
    requires Sorted(entries) && |entries| <= MAX_ENTRIES
    requires |blocks| == BlockCount(|entries|) && ChunksWritten(crc, entries, blocks)
    requires IndexSoFar(page, |blocks|, FirstKeys(entries)[..|blocks|])
    ensures Writable(entries)
    ensures (forall i :: 0 <= i < |blocks| ==> |blocks[i]| == BLOCK_SIZE)
    ensures WriteAt(Partial(blocks), page, 0) == TableFile(crc, entries)
  {
    AllChunksWritten(crc, entries, blocks);
    IndexComplete(page, FirstKeys(entries));
  }

  lemma IndexComplete(page: bytes, keys: seq<bytes>)
    requires |keys| <= INDEX_CAPACITY && IndexSoFar(page, |keys|, keys[..|keys|])
    requires forall i :: 0 <= i < |keys| ==> Storable(keys[i])
    ensures page == IndexPage(keys)
  {
    assert keys[..|keys|] == keys;
    assert page[FIELD_SIZE + FIELD_SIZE * |keys|..] == Zeros(BLOCK_SIZE - FIELD_SIZE - FIELD_SIZE * |keys|);
  }

  // ---------- Opening ----------

  datatype Table = Table(file: bytes, index: seq<bytes>)

  // openBlockBasedTable, on the contents of the file.
  method OpenBlockBasedTable(file: bytes) returns (r: Result<Table>)
    ensures r.Ok? ==> r.value.file == file && FileOpens(file, r.value.index)
    ensures r.Err? ==> forall index :: !FileOpens(file, index)
    ensures r.Ok? <==> ParseIndex(file).Ok?
    ensures r.Ok? ==> r.value == Table(file, ParseIndex(file).value)
  {
    forall index ensures ParseIndex(file) == Ok(index) <==> FileOpens(file, index) { IndexedIffOpens(file, index); }
    hide FileOpens;
    if |file| < BLOCK_SIZE || |file| % BLOCK_SIZE != 0 {
      return Err(NotPageAligned);
    }
    var count := file[0];
    if count > INDEX_CAPACITY || (count + 1) * BLOCK_SIZE != |file| {
      return Err(InvalidBlockCount);
    }
    var index := [];
    for i := 0 to count
      invariant index == IndexKeys(file)[..i] && IndexInOrder(index)
    {
      var key := IndexKeyAt(file, i);
      if key == [] || (i > 0 && !Less(index[i - 1], key)) {
        assert IndexKeys(file)[i] == key;
        return Err(InvalidIndex);
      }
      IndexSnoc(index, key);
      index := index + [key];
    }
    assert index == IndexKeys(file);
    return Ok(Table(file, index));
  }

  lemma IndexSnoc(index: seq<bytes>, key: bytes)
    requires IndexInOrder(index) && key != [] && (index != [] ==> Less(index[|index| - 1], key))
    ensures IndexInOrder(index + [key])
  {
    forall i | 0 <= i < |index| ensures Less(index[i], key) {
      if i < |index| - 1 {
        LessTransitive(index[i], index[|index| - 1], key);
      }
    }
  }

  // ---------- Searching ----------

  // sort.Search: the least i with f(i), for an f that stays true once it is true.
  method Search(n: nat, f: int --> bool) returns (i: nat)
    requires forall k :: 0 <= k < n ==> f.requires(k)
    requires forall j, k :: 0 <= j < k < n && f(j) ==> f(k)
    ensures i <= n
    ensures forall k :: 0 <= k < i ==> !f(k)
    ensures forall k :: i <= k < n ==> f(k)
  {
    var lo, hi := 0, n;
    while lo < hi
      invariant 0 <= lo <= hi <= n
      invariant forall k :: 0 <= k < lo ==> !f(k)
      invariant forall k :: hi <= k < n ==> f(k)
    {
      var mid := (lo + hi) / 2;
      if !f(mid) {
        lo := mid + 1;
      } else {
        hi := mid;
      }
    }
    return lo;
  }

  // The first entry at or behind the key decides whether a sorted run holds the key.
  lemma LookupAtLowerBound(run: seq<Entry>, key: bytes, i: nat)
    requires Sorted(run) && i <= |run|
    requires forall k :: 0 <= k < i ==> Less(run[k].K, key)
    requires i < |run| ==> !Less(run[i].K, key)
    ensures Lookup(run, key) == if i < |run| && run[i].K == key then Some(run[i].Stored()) else None
  {
    if i < |run| && run[i].K == key {
      LookupHit(run, i);
    } else {
      forall k | 0 <= k < |run| ensures run[k].K != key {
        LessIrreflexive(key);
        if i < k {
          assert Less(run[i].K, run[k].K);
        }
      }
      LookupMiss(run, key);
    }
  }

  lemma LookupBefore(run: seq<Entry>, key: bytes, start: nat)
    requires Sorted(run) && start < |run| && !Less(key, run[start].K)
    ensures Lookup(run[..start], key) == None
  {
    forall k | 0 <= k < start ensures run[..start][k].K != key {
      assert Less(run[k].K, run[start].K);
    }
    LookupMiss(run[..start], key);
  }

  lemma LookupBehind(run: seq<Entry>, key: bytes, end: nat)
    requires Sorted(run) && end <= |run|
    requires end < |run| ==> Less(key, run[end].K)
    ensures Lookup(run[end..], key) == None
  {
    forall k | 0 <= k < |run| - end ensures run[end..][k].K != key {
      LessIrreflexive(key);
      if k > 0 {
        LessTransitive(key, run[end].K, run[end + k].K);
      }
    }
    LookupMiss(run[end..], key);
  }

  // Only the block whose first key is the last one not behind the key can hold the key.
  lemma LookupInChunk(run: seq<Entry>, key: bytes, b: nat)
    requires Sorted(run) && b < BlockCount(|run|)
    requires !Less(key, FirstKeys(run)[b])
    requires b + 1 < BlockCount(|run|) ==> Less(key, FirstKeys(run)[b + 1])
    ensures Lookup(Chunk(run, b), key) == Lookup(run, key)
  {
    var c, start := Chunk(run, b), b * BLOCK_ENTRIES;
    var end := start + |c|;
    assert run == run[..start] + (c + run[end..]);
    LookupAppend(run[..start], c + run[end..], key);
    LookupAppend(c, run[end..], key);
    LookupBefore(run, key, start);
    LookupBehind(run, key, end);
  }

  ghost predicate Opened(t: Table) {
    ParseIndex(t.file) == Ok(t.index)
  }

  lemma OneBlockDecides(crc: Checksum, t: Table, key: bytes, above: nat, run: seq<Entry>)
    requires Opened(t) && Encodes(crc, t.file, run)
    requires above <= |t.index|
    requires above > 0 ==> !Less(key, t.index[above - 1])
    requires above < |t.index| ==> Less(key, t.index[above])
    ensures above == 0 ==> Lookup(run, key) == None
    ensures above > 0 ==> ParsePage(crc, t.file, t.index, above - 1).Ok?
    ensures above > 0 ==> Lookup(ParsePage(crc, t.file, t.index, above - 1).value, key) == Lookup(run, key)
  {
    hide Lookup;
    if above == 0 {
      LookupBehind(run, key, 0);
      assert run[0..] == run;
    } else {
      LookupInChunk(run, key, above - 1);
    }
  }

  // Two binary searches over an intact file find exactly what a scan of its run finds; only a damaged
  // block makes the search fail, and nothing is found that no block holds.
  method Get(crc: Checksum, t: Table, key: bytes) returns (r: Result<Option<StorageEntry>>)
    requires Opened(t)
    ensures forall run :: Encodes(crc, t.file, run) ==> r == Ok(Lookup(run, key))
    ensures r.Err? ==> exists b :: 0 <= b < |t.index| && ParsePage(crc, t.file, t.index, b).Err?
    ensures r.Ok? && r.value.Some? ==>
              exists b :: 0 <= b < |t.index| && ParsePage(crc, t.file, t.index, b).Ok? &&
                          Lookup(ParsePage(crc, t.file, t.index, b).value, key) == r.value
  {
    hide Encodes, Lookup;
    var index := t.index;
    forall j, k | 0 <= j < k < |index| && Less(key, index[j]) ensures Less(key, index[k]) {
      LessTransitive(key, index[j], index[k]);
    }
    var f := i requires 0 <= i < |index| => Less(key, index[i]);
    var above := Search(|index|, f);
    assert above < |index| ==> f(above);
    assert above > 0 ==> !f(above - 1);
    forall run | Encodes(crc, t.file, run)
      ensures above == 0 ==> Lookup(run, key) == None
      ensures above > 0 ==> ParsePage(crc, t.file, index, above - 1).Ok?
      ensures above > 0 ==> Lookup(ParsePage(crc, t.file, index, above - 1).value, key) == Lookup(run, key)
    {
      OneBlockDecides(crc, t, key, above, run);
    }
    if above == 0 {
      return Ok(None);
    }
    var entries := ReadBlock(crc, t.file, index, above - 1);
    if entries.Err? {
      return Err(entries.error);
    }
    var found := FindInBlock(entries.value, key);
    return Ok(found);
  }

  method FindInBlock(entries: seq<Entry>, key: bytes) returns (r: Option<StorageEntry>)
    requires Sorted(entries)
    ensures r == Lookup(entries, key)
  {
    forall j, k | 0 <= j < k < |entries| && !Less(entries[j].K, key) ensures !Less(entries[k].K, key) {
      if Less(entries[k].K, key) {
        LessTransitive(entries[j].K, entries[k].K, key);
      }
    }
    var f := i requires 0 <= i < |entries| => !Less(entries[i].K, key);
    var at := Search(|entries|, f);
    assert at < |entries| ==> f(at);
    forall k | 0 <= k < at ensures Less(entries[k].K, key) { assert !f(k); }
    LookupAtLowerBound(entries, key, at);
    if at == |entries| || entries[at].K != key {
      return None;
    }
    return Some(entries[at].Stored());
  }
}
