// The table format in numbers: which bytes stand where in a file, what a writer accepts and what a reader does.

module TableFormat {
  import opened Base
  import opened Tables

  // ---------- The format, in numbers ----------

  // A field that can be stored: 1 to 64 bytes, none of them 0.
  predicate FieldOk(s: bytes) {
    1 <= |s| <= 64 && 0 !in s
  }

  // What the writer accepts.
  ghost predicate Accepted(entries: seq<Entry>, most: nat) {
    && |entries| <= most
    && (forall i, j :: 0 <= i < j < |entries| ==> BytewiseLess(entries[i].K, entries[j].K))
    && (forall i :: 0 <= i < |entries| ==>
          && FieldOk(entries[i].K)
          && (entries[i].Type == Delete || (entries[i].Type == Put && FieldOk(entries[i].V))))
  }

  // The 64 bytes from at on are s and zeros behind it.
  ghost predicate FieldHolds(file: bytes, at: int, s: bytes) {
    && 0 <= at && at + 64 <= |file| && |s| <= 64 && file[at..at + |s|] == s
    && forall k :: at + |s| <= k < at + 64 ==> file[k] == 0
  }

  // The slot of an entry in a data page: a tombstone has no value.
  ghost predicate SlotHolds(page: bytes, j: int, e: Entry) {
    && FieldHolds(page, 128 + 128 * j, e.K)
    && FieldHolds(page, 192 + 128 * j, if e.Type == Put then e.V else [])
  }

  // Eight bytes, the lowest first.
  function Number(b: seq<nat>): nat
    requires |b| == 8
  {
    b[0] + 0x100 * b[1] + 0x1_0000 * b[2] + 0x100_0000 * b[3] + 0x1_0000_0000 * b[4] + 0x100_0000_0000 * b[5]
    + 0x1_0000_0000_0000 * b[6] + 0x100_0000_0000_0000 * b[7]
  }

  lemma NumberIsLittleEndian(b: bytes)
    requires |b| == 8
    ensures FromLittleEndian(b) == Number(b)
  {
    var b1, b2 := b[1..], b[2..];
    var b4, b6 := b[4..], b[6..];
    var d: seq<nat> := b;
    assert b1[1..] == b2 && b2[1..][1..] == b4 && b4[1..][1..] == b6 && b6[1..] == [b[7]] && [b[7]][1..] == [];
    assert FromLittleEndian([b[7]]) == d[7];
    assert FromLittleEndian(b6) == d[6] + 0x100 * d[7];
    assert FromLittleEndian(b4) == d[4] + 0x100 * d[5] + 0x1_0000 * FromLittleEndian(b6);
    assert FromLittleEndian(b2) == d[2] + 0x100 * d[3] + 0x1_0000 * FromLittleEndian(b4);
  }

  // A data page: checksum of all behind it, count, 128 bytes of header, slots of 128 bytes, zeros.
  ghost predicate PageHolds(crc: Checksum, page: bytes, entries: seq<Entry>) {
    && |page| == 4096 && |entries| <= 31 && Number(page[..8]) == crc(page[8..]) && page[8] == |entries|
    && (forall k :: 9 <= k < 128 ==> page[k] == 0)
    && (forall j :: 0 <= j < |entries| ==> SlotHolds(page, j, entries[j]))
    && (forall k :: 128 + 128 * |entries| <= k < 4096 ==> page[k] == 0)
  }

  // Data page b of a file.
  function DataPage(file: bytes, b: int): bytes
    requires 0 <= b && 4096 * (b + 2) <= |file|
  {
    file[4096 * (b + 1)..4096 * (b + 2)]
  }

  // The 31 entries of data page b, or what is left of them.
  function EntriesOfPage(entries: seq<Entry>, b: int): seq<Entry>
    requires 0 <= b && 31 * b <= |entries|
  {
    entries[31 * b..if 31 * (b + 1) <= |entries| then 31 * (b + 1) else |entries|]
  }

  // The index page: how many data pages there are, and from byte 64 on the first key of each.
  ghost predicate IndexHolds(file: bytes, entries: seq<Entry>) {
    var n := (|entries| + 30) / 31;
    && |file| >= 4096 && n <= 63 && file[0] == n
    && (forall k :: 1 <= k < 64 ==> file[k] == 0)
    && (forall b :: 0 <= b < n ==> FieldHolds(file, 64 + 64 * b, entries[31 * b].K))
    && (forall k :: 64 + 64 * n <= k < 4096 ==> file[k] == 0)
  }

  // The whole file.
  ghost predicate FileHolds(crc: Checksum, file: bytes, entries: seq<Entry>) {
    var n := (|entries| + 30) / 31;
    && |file| == 4096 * (n + 1) && IndexHolds(file, entries)
    && (forall b :: 0 <= b < n ==> PageHolds(crc, DataPage(file, b), EntriesOfPage(entries, b)))
  }

  lemma AcceptedIff(entries: seq<Entry>, most: nat)
    ensures Accepted(entries, most) <==> Writable(entries) && |entries| <= most
  {
    forall i, j | 0 <= i < j < |entries|
      ensures BytewiseLess(entries[i].K, entries[j].K) <==> Less(entries[i].K, entries[j].K)
    {
      LessIsBytewise(entries[i].K, entries[j].K);
    }
    if Accepted(entries, most) {
      forall i | 0 <= i < |entries| ensures EntryWritable(entries[i]) {}
    }
  }

  lemma PaddedHolds(file: bytes, at: nat, s: bytes)
    requires |s| <= 64 && at + 64 <= |file| && file[at..at + 64] == Pad(s, 64)
    ensures FieldHolds(file, at, s)
  {
    assert forall k :: at <= k < at + 64 ==> file[k] == file[at..at + 64][k - at];
  }

  lemma SlotLaidOut(crc: Checksum, entries: seq<Entry>, j: nat)
    requires forall i :: 0 <= i < |entries| ==> EntryWritable(entries[i])
    requires |entries| <= BLOCK_ENTRIES && j < |entries|
    ensures SlotHolds(DataBlock(crc, entries), j, entries[j])
  {
    SlotInBlock(crc, entries, j);
    assert EntryWritable(entries[j]);
    hide DataBlock;
    SlotBytes(DataBlock(crc, entries), 128 + 128 * j, entries[j]);
  }

  lemma SlotBytes(page: bytes, at: nat, e: Entry)
    requires EntryWritable(e) && at + 128 <= |page| && page[at..at + 128] == Slot(e)
    ensures FieldHolds(page, at, e.K) && FieldHolds(page, at + 64, if e.Type == Put then e.V else [])
  {
    var value: bytes := if e.Type == Put then e.V else [];
    assert Zeros(64) == Pad([], 64);
    assert Slot(e)[..64] == Pad(e.K, 64) && Slot(e)[64..128] == Pad(value, 64);
    SliceOfSlice(page, at, at + 128, 0, 64);
    SliceOfSlice(page, at, at + 128, 64, 128);
    hide Slot, Pad;
    PaddedHolds(page, at, e.K);
    PaddedHolds(page, at + 64, value);
  }

  // The bytes of a data block.
  lemma DataBlockHolds(crc: Checksum, entries: seq<Entry>)
    requires Writable(entries) && |entries| <= BLOCK_ENTRIES
    ensures PageHolds(crc, DataBlock(crc, entries), entries)
  {
    var page, body := DataBlock(crc, entries), BlockBody(entries);
    var sum: uint64 := crc(body);
    assert sum < Pow256(8);
    LittleEndianRoundTrip(sum, 8);
    assert page[..8] == LittleEndian(sum, 8) && page[8..] == body;
    NumberIsLittleEndian(page[..8]);
    forall j | 0 <= j < |entries| ensures SlotHolds(page, j, entries[j]) { SlotLaidOut(crc, entries, j); }
    BodyPadding(entries);
    assert forall k :: 8 <= k < 4096 ==> page[k] == body[k - 8];
  }

  lemma BodyPadding(entries: seq<Entry>)
    requires (forall i :: 0 <= i < |entries| ==> EntryWritable(entries[i])) && |entries| <= BLOCK_ENTRIES
    ensures BlockBody(entries)[0] == |entries|
    ensures forall k :: 1 <= k < 120 ==> BlockBody(entries)[k] == 0
    ensures forall k :: 120 + 128 * |entries| <= k < 4088 ==> BlockBody(entries)[k] == 0
  {}

  lemma IndexKeyHolds(keys: seq<bytes>, pages: bytes, i: nat)
    requires i < |keys| <= INDEX_CAPACITY && forall j :: 0 <= j < |keys| ==> Storable(keys[j])
    ensures FieldHolds(IndexPage(keys) + pages, 64 + 64 * i, keys[i])
  {
    var file, slots := IndexPage(keys) + pages, KeySlots(keys);
    assert file[64..64 + 64 * |keys|] == slots;
    SliceOfSlice(file, 64, 64 + 64 * |keys|, 64 * i, 64 * (i + 1));
    FlatPosition(PaddedKeys(keys), 64, i);
    assert Storable(keys[i]);
    PaddedHolds(file, 64 + 64 * i, keys[i]);
  }

  // The bytes of a table file.
  lemma TableFileHolds(crc: Checksum, entries: seq<Entry>)
    requires Writable(entries) && |entries| <= MAX_ENTRIES
    ensures FileHolds(crc, TableFile(crc, entries), entries)
  {
    IndexLaidOut(crc, entries);
    forall b | 0 <= b < BlockCount(|entries|)
      ensures PageHolds(crc, DataPage(TableFile(crc, entries), b), EntriesOfPage(entries, b))
    {
      PageInFile(crc, entries, b);
    }
    hide PageHolds, IndexHolds, IndexPage;
  }

  lemma IndexLaidOut(crc: Checksum, entries: seq<Entry>)
    requires Writable(entries) && |entries| <= MAX_ENTRIES
    ensures IndexHolds(TableFile(crc, entries), entries)
  {
    var keys, n := FirstKeys(entries), BlockCount(|entries|);
    var file := TableFile(crc, entries);
    KeysLaidOut(keys, Flat(DataBlocks(crc, entries, n), BLOCK_SIZE));
    hide FieldHolds, IndexPage, Flat, DataBlocks;
    forall b | 0 <= b < n ensures FieldHolds(file, 64 + 64 * b, entries[31 * b].K) {
      assert keys[b] == entries[31 * b].K;
    }
  }

  lemma KeysLaidOut(keys: seq<bytes>, pages: bytes)
    requires |keys| <= INDEX_CAPACITY && forall i :: 0 <= i < |keys| ==> Storable(keys[i])
    ensures var file := IndexPage(keys) + pages;
            && file[0] == |keys| && (forall k :: 1 <= k < 64 ==> file[k] == 0)
            && (forall b :: 0 <= b < |keys| ==> FieldHolds(file, 64 + 64 * b, keys[b]))
            && (forall k :: 64 + 64 * |keys| <= k < 4096 ==> file[k] == 0)
  {
    var file := IndexPage(keys) + pages;
    forall b | 0 <= b < |keys| ensures FieldHolds(file, 64 + 64 * b, keys[b]) { IndexKeyHolds(keys, pages, b); }
    IndexPadding(keys);
    hide FieldHolds, IndexPage;
  }

  lemma PageInFile(crc: Checksum, entries: seq<Entry>, b: nat)
    requires Writable(entries) && |entries| <= MAX_ENTRIES && b < BlockCount(|entries|)
    ensures 4096 * (b + 2) <= |TableFile(crc, entries)|
    ensures PageHolds(crc, DataPage(TableFile(crc, entries), b), EntriesOfPage(entries, b))
  {
    hide PageHolds, DataBlock, IndexPage, Flat;
    var keys, blocks := FirstKeys(entries), DataBlocks(crc, entries, BlockCount(|entries|));
    PagePosition(IndexPage(keys), blocks, b);
    ChunkWritable(entries, b);
    DataBlockHolds(crc, Chunk(entries, b));
    assert EntriesOfPage(entries, b) == Chunk(entries, b);
  }

  lemma IndexPadding(keys: seq<bytes>)
    requires |keys| <= INDEX_CAPACITY && forall i :: 0 <= i < |keys| ==> Storable(keys[i])
    ensures IndexPage(keys)[0] == |keys| && forall k :: 1 <= k < 64 ==> IndexPage(keys)[k] == 0
    ensures forall k :: 64 + 64 * |keys| <= k < 4096 ==> IndexPage(keys)[k] == 0
  {}

  // ---------- Reading, in numbers ----------

  // The field is s, up to zeros behind it, and s does not end in one.
  ghost predicate FieldIs(file: bytes, at: int, s: bytes) {
    FieldHolds(file, at, s) && (s != [] ==> s[|s| - 1] != 0)
  }

  ghost predicate SlotIs(page: bytes, j: int, e: Entry) {
    && FieldIs(page, 128 + 128 * j, e.K) && e.K != []
    && FieldIs(page, 192 + 128 * j, e.V) && e.Type == if e.V == [] then Delete else Put
  }

  // The page is accepted, with these entries.
  ghost predicate PageReads(crc: Checksum, page: bytes, entries: seq<Entry>) {
    && |page| == 4096 && Number(page[..8]) == crc(page[8..]) && page[8] == |entries| <= 31
    && (forall j :: 0 <= j < |entries| ==> SlotIs(page, j, entries[j]))
    && (forall i, j :: 0 <= i < j < |entries| ==> BytewiseLess(entries[i].K, entries[j].K))
  }

  // The file is accepted, with these first keys of its pages.
  ghost predicate FileOpens(file: bytes, index: seq<bytes>) {
    && |file| == 4096 * (|index| + 1) && file[0] == |index| <= 63
    && (forall i :: 0 <= i < |index| ==> FieldIs(file, 64 + 64 * i, index[i]) && index[i] != [])
    && (forall i, j :: 0 <= i < j < |index| ==> BytewiseLess(index[i], index[j]))
  }

  // Trimming leaves what is in front of the zeros at the end, and that is the only such prefix.
  lemma {:induction false} TrimmedIff(field: bytes, s: bytes)
    ensures s == TrimRight(field) <==>
            s <= field && (s != [] ==> s[|s| - 1] != 0) && forall k :: |s| <= k < |field| ==> field[k] == 0
  {
    if field != [] {
      var n := |field| - 1;
      if field[n] == 0 {
        TrimmedIff(field[..n], s);
        assert s <= field && |s| <= n ==> s <= field[..n];
      } else if s <= field && |s| == |field| {
        assert s == field;
      }
    }
  }

  // What a reader takes a field for.
  lemma FieldIsTrimmed(file: bytes, at: nat, s: bytes)
    requires at + 64 <= |file|
    ensures FieldIs(file, at, s) <==> s == TrimRight(file[at..at + 64])
  {
    var field := file[at..at + 64];
    TrimmedIff(field, s);
    assert forall k :: at <= k < at + 64 ==> file[k] == field[k - at];
    if |s| <= 64 {
      SliceOfSlice(file, at, at + 64, 0, |s|);
      assert field[..|s|] == field[0..|s|];
    }
  }

  lemma SlotIsEntryAt(page: bytes, j: nat, e: Entry)
    requires |page| == BLOCK_SIZE && j < BLOCK_ENTRIES
    ensures SlotIs(page, j, e) <==> e == EntryAt(page, j) && e.K != []
  {
    var value := ValueBytesAt(page, j);
    FieldIsTrimmed(page, 128 + 128 * j, e.K);
    FieldIsTrimmed(page, 192 + 128 * j, e.V);
    TrimmedIff(value, []);
    assert AllZero(value) <==> TrimRight(value) == [];
  }

  // A page is accepted exactly if its checksum, count and keys are right, and then with these entries.
  lemma ParsedIffReads(crc: Checksum, page: bytes, entries: seq<Entry>)
    requires |page| == BLOCK_SIZE
    ensures ParseBlock(crc, page) == Ok(entries) <==> PageReads(crc, page, entries)
  {
    NumberIsLittleEndian(page[..8]);
    if |entries| == page[8] <= BLOCK_ENTRIES {
      EntriesIffSlots(page, entries);
    }
    hide SlotIs, EntryAt, KeysInOrder, BytewiseLess, Less;
  }

  lemma EntriesIffSlots(page: bytes, entries: seq<Entry>)
    requires |page| == BLOCK_SIZE && |entries| == page[8] <= BLOCK_ENTRIES
    ensures entries == EntriesIn(page) && KeysInOrder(entries) <==>
            && (forall j :: 0 <= j < |entries| ==> SlotIs(page, j, entries[j]))
            && (forall i, j :: 0 <= i < j < |entries| ==> BytewiseLess(entries[i].K, entries[j].K))
  {
    hide SlotIs, EntryAt;
    forall j | 0 <= j < |entries|
      ensures SlotIs(page, j, entries[j]) <==> entries[j] == EntryAt(page, j) && entries[j].K != []
    {
      SlotIsEntryAt(page, j, entries[j]);
    }
    forall i, j | 0 <= i < j < |entries|
      ensures BytewiseLess(entries[i].K, entries[j].K) <==> Less(entries[i].K, entries[j].K)
    {
      LessIsBytewise(entries[i].K, entries[j].K);
    }
    assert (forall j :: 0 <= j < |entries| ==> entries[j] == EntryAt(page, j)) ==> entries == EntriesIn(page);
  }

  lemma AscendingIff(keys: seq<bytes>)
    ensures forall i, j :: 0 <= i < j < |keys| ==> (BytewiseLess(keys[i], keys[j]) <==> Less(keys[i], keys[j]))
  {
    forall i, j | 0 <= i < j < |keys| ensures BytewiseLess(keys[i], keys[j]) <==> Less(keys[i], keys[j]) {
      LessIsBytewise(keys[i], keys[j]);
    }
  }

  lemma IndexedIffOpens(file: bytes, index: seq<bytes>)
    ensures ParseIndex(file) == Ok(index) <==> FileOpens(file, index)
  {
    AscendingIff(index);
    if |file| >= BLOCK_SIZE && |index| <= INDEX_CAPACITY {
      forall i | 0 <= i < |index| ensures FieldIs(file, 64 + 64 * i, index[i]) <==> index[i] == IndexKeyAt(file, i) {
        FieldIsTrimmed(file, 64 + 64 * i, index[i]);
      }
      if FileOpens(file, index) {
        assert IndexKeys(file) == index;
      }
    }
  }
}
