// The block-based table: one index page and up to 63 data pages of 31 entries each.

module Tables {
  import opened Base

  const BLOCK_SIZE: nat := 4096
  const INDEX_CAPACITY: nat := 63
  const BLOCK_ENTRIES: nat := 31
  const FIELD_SIZE: nat := 64
  const HEADER_SIZE: nat := 128
  const MAX_ENTRIES: nat := INDEX_CAPACITY * BLOCK_ENTRIES

  // The CRC-64 of a byte string; only its being a function matters here.
  type Checksum = bytes -> uint64

  // ---------- Byte layout ----------

  function Zeros(n: nat): (z: bytes)
    ensures |z| == n
  {
    seq(n, _ => 0)
  }

  function Pad(s: bytes, n: nat): (p: bytes)
    requires |s| <= n
    ensures |p| == n
  {
    s + Zeros(n - |s|)
  }

  // readPaddedString: drop the trailing zero bytes.
  function TrimRight(s: bytes): bytes {
    if s != [] && s[|s| - 1] == 0 then TrimRight(s[..|s| - 1]) else s
  }

  lemma {:induction false} TrimPad(s: bytes, n: nat)
    requires 0 !in s && |s| <= n
    ensures TrimRight(Pad(s, n)) == s
    decreases n
  {
    if |s| == n {
      assert Pad(s, n) == s;
    } else {
      assert Pad(s, n)[..n - 1] == Pad(s, n - 1);
      TrimPad(s, n - 1);
    }
  }

  function LittleEndian(v: nat, n: nat): (b: bytes)
    ensures |b| == n
  {
    if n == 0 then [] else [v % 0x100] + LittleEndian(v / 0x100, n - 1)
  }

  function FromLittleEndian(b: bytes): nat {
    if b == [] then 0 else b[0] + 0x100 * FromLittleEndian(b[1..])
  }

  function Pow256(n: nat): (p: nat)
    ensures p > 0
  {
    if n == 0 then 1 else 0x100 * Pow256(n - 1)
  }

  lemma {:induction false} LittleEndianRoundTrip(v: nat, n: nat)
    requires v < Pow256(n)
    ensures FromLittleEndian(LittleEndian(v, n)) == v
  {
    if n > 0 {
      LittleEndianRoundTrip(v / 0x100, n - 1);
      assert LittleEndian(v, n)[1..] == LittleEndian(v / 0x100, n - 1);
    }
  }

  lemma SliceOfSlice(s: bytes, lo: nat, hi: nat, i: nat, j: nat)
    requires lo <= hi <= |s| && i <= j <= hi - lo
    ensures s[lo..hi][i..j] == s[lo + i..lo + j]
  {
    var a, b := s[lo..hi][i..j], s[lo + i..lo + j];
    assert forall k :: 0 <= k < j - i ==> a[k] == b[k];
  }

  // Pieces of one width laid out one after the other.
  function Flat(pieces: seq<bytes>, w: nat): (b: bytes)
    requires forall i :: 0 <= i < |pieces| ==> |pieces[i]| == w
    ensures |b| == w * |pieces|
  {
    if pieces == [] then [] else Flat(pieces[..|pieces| - 1], w) + pieces[|pieces| - 1]
  }

  lemma {:induction false} FlatPosition(pieces: seq<bytes>, w: nat, i: nat)
    requires forall j :: 0 <= j < |pieces| ==> |pieces[j]| == w
    requires i < |pieces|
    ensures 0 <= w * i <= w * (i + 1) <= |Flat(pieces, w)|
    ensures Flat(pieces, w)[w * i..w * (i + 1)] == pieces[i]
  {
    var init := pieces[..|pieces| - 1];
    if i < |pieces| - 1 {
      FlatPosition(init, w, i);
    } else {
      assert w * (i + 1) == w * i + w;
    }
  }

  // ---------- What the writer accepts ----------

  predicate Storable(field: bytes) {
    1 <= |field| <= FIELD_SIZE && 0 !in field
  }

  predicate EntryWritable(e: Entry) {
    && Storable(e.K)
    && (e.Type == Put || e.Type == Delete)
    && (e.Type == Put ==> Storable(e.V))
  }

  ghost predicate Writable(entries: seq<Entry>) {
    && Sorted(entries)
    && forall i :: 0 <= i < |entries| ==> EntryWritable(entries[i])
  }

  // What comes back: a tombstone carries no value.
  function Normal(e: Entry): Entry {
    if e.Type == Delete then Entry(e.K, [], Delete) else e
  }

  function NormalRun(entries: seq<Entry>): (r: seq<Entry>)
    ensures |r| == |entries| && forall i :: 0 <= i < |r| ==> r[i] == Normal(entries[i])
  {
    seq(|entries|, i requires 0 <= i < |entries| => Normal(entries[i]))
  }

  // ---------- The bytes of a data block ----------

  function Slot(e: Entry): (b: bytes)
    requires EntryWritable(e)
    ensures |b| == 2 * FIELD_SIZE
  {
    Pad(e.K, FIELD_SIZE) + (if e.Type == Put then Pad(e.V, FIELD_SIZE) else Zeros(FIELD_SIZE))
  }

  function Slots(entries: seq<Entry>): (b: bytes)
    requires forall i :: 0 <= i < |entries| ==> EntryWritable(entries[i])
    ensures |b| == 2 * FIELD_SIZE * |entries|
  {
    Flat(seq(|entries|, i requires 0 <= i < |entries| => Slot(entries[i])), 2 * FIELD_SIZE)
  }

  // Everything behind the checksum: count, padding to 128 bytes, slots, padding to the page.
  function BlockBody(entries: seq<Entry>): (b: bytes)
    requires forall i :: 0 <= i < |entries| ==> EntryWritable(entries[i])
    requires |entries| <= BLOCK_ENTRIES
    ensures |b| == BLOCK_SIZE - 8
  {
    [|entries| as byte] + Zeros(HEADER_SIZE - 9) + Slots(entries)
    + Zeros(BLOCK_SIZE - HEADER_SIZE - 2 * FIELD_SIZE * |entries|)
  }

  function DataBlock(crc: Checksum, entries: seq<Entry>): (b: bytes)
    requires forall i :: 0 <= i < |entries| ==> EntryWritable(entries[i])
    requires |entries| <= BLOCK_ENTRIES
    ensures |b| == BLOCK_SIZE
  {
    LittleEndian(crc(BlockBody(entries)), 8) + BlockBody(entries)
  }

  // ---------- Reading a data block ----------

  function KeyAt(block: bytes, j: nat): bytes
    requires |block| == BLOCK_SIZE && j < BLOCK_ENTRIES
  {
    TrimRight(block[HEADER_SIZE + j * 2 * FIELD_SIZE..HEADER_SIZE + j * 2 * FIELD_SIZE + FIELD_SIZE])
  }

  function ValueBytesAt(block: bytes, j: nat): bytes
    requires |block| == BLOCK_SIZE && j < BLOCK_ENTRIES
  {
    block[HEADER_SIZE + j * 2 * FIELD_SIZE + FIELD_SIZE..HEADER_SIZE + (j + 1) * 2 * FIELD_SIZE]
  }

  predicate AllZero(s: bytes) {
    forall i :: 0 <= i < |s| ==> s[i] == 0
  }

  function EntryAt(block: bytes, j: nat): Entry
    requires |block| == BLOCK_SIZE && j < BLOCK_ENTRIES
  {
    var value := ValueBytesAt(block, j);
    if AllZero(value) then Entry(KeyAt(block, j), [], Delete) else Entry(KeyAt(block, j), TrimRight(value), Put)
  }

  ghost predicate KeysInOrder(entries: seq<Entry>) {
    Sorted(entries) && forall j :: 0 <= j < |entries| ==> entries[j].K != []
  }

  function EntriesIn(block: bytes): (entries: seq<Entry>)
    requires |block| == BLOCK_SIZE && block[8] <= BLOCK_ENTRIES
    ensures |entries| == block[8] && forall j :: 0 <= j < |entries| ==> entries[j] == EntryAt(block, j)
  {
    seq(block[8], j requires 0 <= j < block[8] => EntryAt(block, j))
  }

  ghost function ParseBlock(crc: Checksum, block: bytes): Result<seq<Entry>>
    requires |block| == BLOCK_SIZE
  {
    if FromLittleEndian(block[..8]) != crc(block[8..]) then Err(CrcMismatch)
    else if block[8] > BLOCK_ENTRIES then Err(InvalidEntryCount)
    else if KeysInOrder(EntriesIn(block)) then Ok(EntriesIn(block))
    else Err(UnsortedBlock)
  }

  lemma SlotInBlock(crc: Checksum, entries: seq<Entry>, j: nat)
    requires forall i :: 0 <= i < |entries| ==> EntryWritable(entries[i])
    requires |entries| <= BLOCK_ENTRIES && j < |entries|
    ensures DataBlock(crc, entries)[HEADER_SIZE + 2 * FIELD_SIZE * j..HEADER_SIZE + 2 * FIELD_SIZE * (j + 1)]
            == Slot(entries[j])
  {
    var block := DataBlock(crc, entries);
    FlatPosition(seq(|entries|, i requires 0 <= i < |entries| => Slot(entries[i])), 2 * FIELD_SIZE, j);
    var slots := block[HEADER_SIZE..HEADER_SIZE + 2 * FIELD_SIZE * |entries|];
    assert slots == Slots(entries);
    SliceOfSlice(block, HEADER_SIZE, HEADER_SIZE + 2 * FIELD_SIZE * |entries|, 2 * FIELD_SIZE * j,
                 2 * FIELD_SIZE * (j + 1));
  }

  // A slot read back gives the entry; a tombstone is told from a put by its all-zero value field.
  lemma SlotRoundTrip(e: Entry)
    requires EntryWritable(e)
    ensures TrimRight(Slot(e)[..FIELD_SIZE]) == e.K
    ensures AllZero(Slot(e)[FIELD_SIZE..]) <==> e.Type == Delete
    ensures e.Type == Put ==> TrimRight(Slot(e)[FIELD_SIZE..]) == e.V
  {
    assert Slot(e)[..FIELD_SIZE] == Pad(e.K, FIELD_SIZE);
    TrimPad(e.K, FIELD_SIZE);
    var value := Slot(e)[FIELD_SIZE..];
    if e.Type == Put {
      assert value == Pad(e.V, FIELD_SIZE) && value[0] == e.V[0];
      TrimPad(e.V, FIELD_SIZE);
    } else {
      assert value == Zeros(FIELD_SIZE);
    }
  }

  lemma EntryRoundTrip(block: bytes, j: nat, e: Entry)
    requires |block| == BLOCK_SIZE && j < BLOCK_ENTRIES && EntryWritable(e)
    requires block[HEADER_SIZE + 2 * FIELD_SIZE * j..HEADER_SIZE + 2 * FIELD_SIZE * (j + 1)] == Slot(e)
    ensures EntryAt(block, j) == Normal(e)
  {
    hide Slot;
    var at := HEADER_SIZE + 2 * FIELD_SIZE * j;
    SlotRoundTrip(e);
    SliceOfSlice(block, at, at + 2 * FIELD_SIZE, 0, FIELD_SIZE);
    SliceOfSlice(block, at, at + 2 * FIELD_SIZE, FIELD_SIZE, 2 * FIELD_SIZE);
    assert Slot(e)[0..FIELD_SIZE] == Slot(e)[..FIELD_SIZE] && Slot(e)[FIELD_SIZE..2 * FIELD_SIZE]
        == Slot(e)[FIELD_SIZE..];
  }

  // encodeDataBlock and readBlock are inverse.
  lemma BlockRoundTrip(crc: Checksum, entries: seq<Entry>)
    requires Writable(entries) && |entries| <= BLOCK_ENTRIES
    ensures ParseBlock(crc, DataBlock(crc, entries)) == Ok(NormalRun(entries))
  {
    var block := DataBlock(crc, entries);
    var sum: uint64 := crc(BlockBody(entries));
    assert sum < Pow256(8);
    LittleEndianRoundTrip(sum, 8);
    assert block[..8] == LittleEndian(sum, 8) && block[8..] == BlockBody(entries);
    assert block[8] == |entries|;
    forall j | 0 <= j < |entries| ensures EntryAt(block, j) == Normal(entries[j]) {
      SlotInBlock(crc, entries, j);
      EntryRoundTrip(block, j, entries[j]);
    }
    var read := EntriesIn(block);
    assert read == NormalRun(entries);
  }

  // ---------- Writing and reading one block ----------

  // v >> (8 * i)
  function ShiftedRight(v: nat, i: nat): nat {
    if i == 0 then v else ShiftedRight(v / 0x100, i - 1)
  }

  lemma {:induction false} LittleEndianByte(v: nat, n: nat, i: nat)
    requires i < n
    ensures LittleEndian(v, n)[i] == ShiftedRight(v, i) % 0x100
  {
    if i > 0 {
      LittleEndianByte(v / 0x100, n - 1, i - 1);
    }
  }

  lemma {:induction false} FromLittleEndianAppend(b: bytes, x: byte)
    ensures FromLittleEndian(b + [x]) == FromLittleEndian(b) + x * Pow256(|b|)
  {
    if b == [] {
      assert (b + [x])[1..] == [];
    } else {
      assert (b + [x])[1..] == b[1..] + [x];
      FromLittleEndianAppend(b[1..], x);
    }
  }

  // value goes to the front of dst[lo..hi]; what the field held behind it stays.
  method WritePaddedString(dst: array<byte>, lo: nat, hi: nat, value: bytes) returns (err: Option<Error>)
    requires lo <= hi <= dst.Length
    modifies dst
    ensures err.None? <==> 1 <= |value| <= hi - lo && 0 !in value
    ensures err.None? ==> dst[..] == old(dst[..lo]) + value + old(dst[lo + |value|..])
    ensures err.Some? ==> dst[..] == old(dst[..])
  {
    if value == [] {
      return Some(EmptyField);
    }
    if |value| > hi - lo {
      return Some(FieldTooLong);
    }
    if 0 in value {
      return Some(ContainsNul);
    }
    forall i | 0 <= i < |value| {
      dst[lo + i] := value[i];
    }
    return None;
  }

  // A fresh field that receives a value holds the padded value.
  method WriteField(dst: array<byte>, lo: nat, value: bytes) returns (err: Option<Error>)
    requires lo + FIELD_SIZE <= dst.Length
    requires forall k :: lo <= k < dst.Length ==> dst[k] == 0
    modifies dst
    ensures err.None? <==> Storable(value)
    ensures err.None? ==> dst[..lo + FIELD_SIZE] == old(dst[..lo]) + Pad(value, FIELD_SIZE)
    ensures forall k :: lo + FIELD_SIZE <= k < dst.Length ==> dst[k] == 0
  {
    err := WritePaddedString(dst, lo, lo + FIELD_SIZE, value);
    if err.None? {
      assert forall k :: 0 <= k < dst.Length ==> dst[k] == dst[..][k];
    } else {
      assert forall k :: 0 <= k < dst.Length ==> dst[k] == dst[..][k] == old(dst[..])[k];
    }
  }

  // One slot of a data block: key, then value; the value field of a tombstone stays zero.
  method WriteSlot(block: array<byte>, at: nat, entry: Entry) returns (err: Option<Error>)
    requires at + 2 * FIELD_SIZE <= block.Length
    requires forall k :: at <= k < block.Length ==> block[k] == 0
    modifies block
    ensures err.None? <==> EntryWritable(entry)
    ensures err.None? ==> block[..at + 2 * FIELD_SIZE] == old(block[..at]) + Slot(entry)
    ensures err.None? ==> forall k :: at + 2 * FIELD_SIZE <= k < block.Length ==> block[k] == 0
  {
    err := WriteField(block, at, entry.K);
    if err.Some? {
      return;
    }
    if entry.Type == Put {
      err := WriteField(block, at + FIELD_SIZE, entry.V);
    } else if entry.Type != Delete {
      return Some(InvalidType);
    } else {
      assert block[..at + 2 * FIELD_SIZE] == block[..at + FIELD_SIZE] + Zeros(FIELD_SIZE);
    }
  }

  lemma SlotsSnoc(entries: seq<Entry>, i: nat)
    requires i < |entries| && forall j :: 0 <= j <= i ==> EntryWritable(entries[j])
    ensures Slots(entries[..i + 1]) == Slots(entries[..i]) + Slot(entries[i])
  {
    var pieces := seq(i + 1, j requires 0 <= j < i + 1 => Slot(entries[..i + 1][j]));
    assert pieces[..i] == seq(i, j requires 0 <= j < i => Slot(entries[..i][j]));
  }

  method FillSlots(block: array<byte>, entries: seq<Entry>) returns (err: Option<Error>)
    requires block.Length == BLOCK_SIZE && |entries| <= BLOCK_ENTRIES
    requires forall k :: HEADER_SIZE <= k < block.Length ==> block[k] == 0
    modifies block
    ensures err.None? <==> Writable(entries)
    ensures err.None? ==>
              block[..HEADER_SIZE + |entries| * 2 * FIELD_SIZE] == old(block[..HEADER_SIZE]) + Slots(entries)
    ensures err.None? ==> forall k :: HEADER_SIZE + |entries| * 2 * FIELD_SIZE <= k < block.Length ==> block[k] == 0
  {
    hide Slots, Slot, Less, Storable, EntryWritable;
    for i := 0 to |entries|
      invariant Writable(entries[..i])
      invariant block[..HEADER_SIZE + i * 2 * FIELD_SIZE] == old(block[..HEADER_SIZE]) + Slots(entries[..i])
      invariant forall k :: HEADER_SIZE + i * 2 * FIELD_SIZE <= k < block.Length ==> block[k] == 0
    {
      assert entries[i] == entries[..i + 1][i] && entries[..i + 1] == entries[..i] + [entries[i]];
      if i > 0 && !Less(entries[i - 1].K, entries[i].K) {
        return Some(NotSorted);
      }
      SortedSnoc(entries[..i], entries[i]);
      err := WriteSlot(block, HEADER_SIZE + i * 2 * FIELD_SIZE, entries[i]);
      if err.Some? {
        return;
      }
      SlotsSnoc(entries, i);
    }
    assert entries[..|entries|] == entries;
    return None;
  }

  method EncodeDataBlock(crc: Checksum, entries: seq<Entry>) returns (r: Result<bytes>)
    ensures r.Ok? <==> Writable(entries) && |entries| <= BLOCK_ENTRIES
    ensures r.Ok? ==> r.value == DataBlock(crc, entries)
  {
    if |entries| > BLOCK_ENTRIES {
      return Err(TooManyEntries);
    }
    var block := new byte[BLOCK_SIZE](_ => 0);
    block[8] := |entries|;
    ghost var header := block[..HEADER_SIZE];
    var err := FillSlots(block, entries);
    if err.Some? {
      return Err(err.value);
    }
    assert block[8..] == BlockBody(entries) by {
      assert block[..HEADER_SIZE] == header == Zeros(8) + [|entries|] + Zeros(HEADER_SIZE - 9);
      assert block[HEADER_SIZE..HEADER_SIZE + |entries| * 2 * FIELD_SIZE] == Slots(entries);
    }
    FillChecksum(crc, block);
    return Ok(block[..]);
  }

  method FillChecksum(crc: Checksum, block: array<byte>)
    requires block.Length == BLOCK_SIZE
    modifies block
    ensures block[..] == LittleEndian(crc(old(block[8..])), 8) + old(block[8..])
  {
    var sum := crc(block[8..]);
    for i := 0 to 8
      invariant forall j :: 0 <= j < i ==> block[j] == LittleEndian(sum, 8)[j]
      invariant block[8..] == old(block[8..])
    {
      LittleEndianByte(sum, 8, i);
      block[i] := ShiftedRight(sum, i) % 0x100;
    }
  }

  function Page(file: bytes, i: nat): (p: bytes)
    requires (i + 1) * BLOCK_SIZE <= |file|
    ensures |p| == BLOCK_SIZE
  {
    file[i * BLOCK_SIZE..(i + 1) * BLOCK_SIZE]
  }

  ghost function ParsePage(crc: Checksum, file: bytes, index: seq<bytes>, i: int): Result<seq<Entry>>
    requires |file| == (|index| + 1) * BLOCK_SIZE
  {
    if i < 0 || i >= |index| then Err(BlockOutOfRange) else ParseBlock(crc, Page(file, i + 1))
  }

  method ReadBlock(crc: Checksum, file: bytes, index: seq<bytes>, i: int) returns (r: Result<seq<Entry>>)
    requires |file| == (|index| + 1) * BLOCK_SIZE
    ensures r == ParsePage(crc, file, index, i)
  {
    if i < 0 || i >= |index| {
      return Err(BlockOutOfRange);
    }
    var block := Page(file, i + 1);
    var stored := ReadChecksum(block);
    if stored != crc(block[8..]) {
      return Err(CrcMismatch);
    }
    if block[8] > BLOCK_ENTRIES {
      return Err(InvalidEntryCount);
    }
    r := ReadEntries(block);
  }

  method ReadChecksum(block: bytes) returns (stored: nat)
    requires |block| == BLOCK_SIZE
    ensures stored == FromLittleEndian(block[..8])
  {
    stored := 0;
    for j := 0 to 8
      invariant stored == FromLittleEndian(block[..j])
    {
      FromLittleEndianAppend(block[..j], block[j]);
      assert block[..j + 1] == block[..j] + [block[j]];
      stored := stored + block[j] * Pow256(j);
    }
  }

  method ReadEntry(block: bytes, j: nat) returns (entry: Entry)
    requires |block| == BLOCK_SIZE && j < BLOCK_ENTRIES
    ensures entry == EntryAt(block, j)
  {
    var value := ValueBytesAt(block, j);
    entry := Entry(KeyAt(block, j), [], Delete);
    if !AllZero(value) {
      entry := Entry(entry.K, TrimRight(value), Put);
    }
  }

  method ReadEntries(block: bytes) returns (r: Result<seq<Entry>>)
    requires |block| == BLOCK_SIZE && block[8] <= BLOCK_ENTRIES
    ensures r == if KeysInOrder(EntriesIn(block)) then Ok(EntriesIn(block)) else Err(UnsortedBlock)
  {
    var entries := [];
    for j := 0 to block[8]
      invariant entries == EntriesIn(block)[..j] && KeysInOrder(entries)
    {
      var entry := ReadEntry(block, j);
      assert entry == EntriesIn(block)[j];
      if entry.K == [] || (j > 0 && !Less(entries[j - 1].K, entry.K)) {
        return Err(UnsortedBlock);
      }
      SortedSnoc(entries, entry);
      entries := entries + [entry];
    }
    assert entries == EntriesIn(block);
    return Ok(entries);
  }

  // ---------- The whole file ----------

  function BlockCount(n: nat): nat {
    (n + BLOCK_ENTRIES - 1) / BLOCK_ENTRIES
  }

  // The entries of data block b.
  function Chunk(entries: seq<Entry>, b: nat): (c: seq<Entry>)
    requires b < BlockCount(|entries|)
    ensures 1 <= |c| <= BLOCK_ENTRIES
    ensures forall j :: 0 <= j < |c| ==> b * BLOCK_ENTRIES + j < |entries| && c[j] == entries[b * BLOCK_ENTRIES + j]
  {
    var start := b * BLOCK_ENTRIES;
    entries[start..if start + BLOCK_ENTRIES <= |entries| then start + BLOCK_ENTRIES else |entries|]
  }

  function FirstKeys(entries: seq<Entry>): (keys: seq<bytes>)
    ensures |keys| == BlockCount(|entries|)
    ensures forall b :: 0 <= b < |keys| ==> keys[b] == entries[b * BLOCK_ENTRIES].K
  {
    seq(BlockCount(|entries|), b requires 0 <= b < BlockCount(|entries|) => entries[b * BLOCK_ENTRIES].K)
  }

  function PaddedKeys(keys: seq<bytes>): (pieces: seq<bytes>)
    requires forall i :: 0 <= i < |keys| ==> Storable(keys[i])
    ensures |pieces| == |keys|
    ensures forall i :: 0 <= i < |keys| && Storable(keys[i]) ==> pieces[i] == Pad(keys[i], FIELD_SIZE)
  {
    seq(|keys|, i requires 0 <= i < |keys| => assert Storable(keys[i]); Pad(keys[i], FIELD_SIZE))
  }

  function KeySlots(keys: seq<bytes>): (b: bytes)
    requires forall i :: 0 <= i < |keys| ==> Storable(keys[i])
    ensures |b| == FIELD_SIZE * |keys|
  {
    Flat(PaddedKeys(keys), FIELD_SIZE)
  }

  function IndexPage(keys: seq<bytes>): (b: bytes)
    requires forall i :: 0 <= i < |keys| ==> Storable(keys[i])
    requires |keys| <= INDEX_CAPACITY
    ensures |b| == BLOCK_SIZE
  {
    [|keys| as byte] + Zeros(FIELD_SIZE - 1) + KeySlots(keys) + Zeros(BLOCK_SIZE - FIELD_SIZE - FIELD_SIZE * |keys|)
  }

  ghost function DataBlocks(crc: Checksum, entries: seq<Entry>, n: nat): (blocks: seq<bytes>)
    requires Writable(entries) && n <= BlockCount(|entries|)
    ensures |blocks| == n && forall b :: 0 <= b < n ==> |blocks[b]| == BLOCK_SIZE
  {
    seq(n, b requires 0 <= b < n => DataBlock(crc, Chunk(entries, b)))
  }

  ghost function TableFile(crc: Checksum, entries: seq<Entry>): bytes
    requires Writable(entries) && |entries| <= MAX_ENTRIES
  {
    IndexPage(FirstKeys(entries)) + Flat(DataBlocks(crc, entries, BlockCount(|entries|)), BLOCK_SIZE)
  }

  // ---------- What a reader relies on ----------

  function IndexKeyAt(file: bytes, i: nat): bytes
    requires |file| >= BLOCK_SIZE && i < INDEX_CAPACITY
  {
    TrimRight(file[FIELD_SIZE + i * FIELD_SIZE..FIELD_SIZE + (i + 1) * FIELD_SIZE])
  }

  function IndexKeys(file: bytes): (keys: seq<bytes>)
    requires |file| >= BLOCK_SIZE && file[0] <= INDEX_CAPACITY
    ensures |keys| == file[0] && forall i :: 0 <= i < |keys| ==> keys[i] == IndexKeyAt(file, i)
  {
    seq(file[0], i requires 0 <= i < file[0] => IndexKeyAt(file, i))
  }

  ghost predicate IndexInOrder(keys: seq<bytes>) {
    && (forall i :: 0 <= i < |keys| ==> keys[i] != [])
    && (forall i, j :: 0 <= i < j < |keys| ==> Less(keys[i], keys[j]))
  }

  // openBlockBasedTable: the index, or why the file is not a table.
  ghost function ParseIndex(file: bytes): Result<seq<bytes>> {
    if |file| < BLOCK_SIZE || |file| % BLOCK_SIZE != 0 then Err(NotPageAligned)
    else if file[0] > INDEX_CAPACITY || (file[0] + 1) * BLOCK_SIZE != |file| then Err(InvalidBlockCount)
    else if IndexInOrder(IndexKeys(file)) then Ok(IndexKeys(file))
    else Err(InvalidIndex)
  }

  // The file presents exactly this run to every reader.
  ghost predicate Encodes(crc: Checksum, file: bytes, run: seq<Entry>) {
    && Sorted(run)
    && |run| <= MAX_ENTRIES
    && ParseIndex(file) == Ok(FirstKeys(run))
    && forall b :: 0 <= b < BlockCount(|run|) ==> ParseBlock(crc, Page(file, b + 1)) == Ok(Chunk(run, b))
  }

  // ---------- The file written is the run read ----------

  lemma IndexKeyRoundTrip(keys: seq<bytes>, pages: bytes, i: nat)
    requires i < |keys| <= INDEX_CAPACITY
    requires forall j :: 0 <= j < |keys| ==> Storable(keys[j])
    ensures IndexKeyAt(IndexPage(keys) + pages, i) == keys[i]
  {
    var file, slots := IndexPage(keys) + pages, KeySlots(keys);
    assert file[FIELD_SIZE..FIELD_SIZE + FIELD_SIZE * |keys|] == slots;
    SliceOfSlice(file, FIELD_SIZE, FIELD_SIZE + FIELD_SIZE * |keys|, FIELD_SIZE * i, FIELD_SIZE * (i + 1));
    FlatPosition(PaddedKeys(keys), FIELD_SIZE, i);
    assert Storable(keys[i]);
    TrimPad(keys[i], FIELD_SIZE);
  }

  lemma IndexRoundTrip(keys: seq<bytes>, pages: bytes)
    requires |keys| <= INDEX_CAPACITY && |pages| == BLOCK_SIZE * |keys|
    requires forall i :: 0 <= i < |keys| ==> Storable(keys[i])
    requires forall i, j :: 0 <= i < j < |keys| ==> Less(keys[i], keys[j])
    ensures ParseIndex(IndexPage(keys) + pages) == Ok(keys)
  {
    var file := IndexPage(keys) + pages;
    assert file[0] == |keys|;
    forall i | 0 <= i < |keys| ensures IndexKeyAt(file, i) == keys[i] {
      IndexKeyRoundTrip(keys, pages, i);
    }
    assert IndexKeys(file) == keys;
  }

  lemma ChunkWritable(entries: seq<Entry>, b: nat)
    requires Writable(entries) && b < BlockCount(|entries|)
    ensures Writable(Chunk(entries, b))
    ensures NormalRun(Chunk(entries, b)) == Chunk(NormalRun(entries), b)
  {
    var c := Chunk(entries, b);
    forall i, j | 0 <= i < j < |c| ensures Less(c[i].K, c[j].K) {
      assert Less(entries[b * BLOCK_ENTRIES + i].K, entries[b * BLOCK_ENTRIES + j].K);
    }
  }

  lemma PagePosition(index: bytes, blocks: seq<bytes>, b: nat)
    requires |index| == BLOCK_SIZE && b < |blocks|
    requires forall j :: 0 <= j < |blocks| ==> |blocks[j]| == BLOCK_SIZE
    ensures Page(index + Flat(blocks, BLOCK_SIZE), b + 1) == blocks[b]
  {
    var pages := Flat(blocks, BLOCK_SIZE);
    var file := index + pages;
    FlatPosition(blocks, BLOCK_SIZE, b);
    assert file[BLOCK_SIZE..|file|] == pages;
    SliceOfSlice(file, BLOCK_SIZE, |file|, BLOCK_SIZE * b, BLOCK_SIZE * (b + 1));
  }

  // Writing then opening and reading every block gives back the list, tombstones and puts told apart.
  lemma TableRoundTrip(crc: Checksum, entries: seq<Entry>)
    requires Writable(entries) && |entries| <= MAX_ENTRIES
    ensures Encodes(crc, TableFile(crc, entries), NormalRun(entries))
  {
    var run, n := NormalRun(entries), BlockCount(|entries|);
    assert FirstKeys(run) == FirstKeys(entries);
    IndexRoundTrip(FirstKeys(entries), Flat(DataBlocks(crc, entries, n), BLOCK_SIZE));
    forall b | 0 <= b < n ensures ParseBlock(crc, Page(TableFile(crc, entries), b + 1)) == Ok(Chunk(run, b)) {
      PagePosition(IndexPage(FirstKeys(entries)), DataBlocks(crc, entries, n), b);
      ChunkWritable(entries, b);
      BlockRoundTrip(crc, Chunk(entries, b));
    }
  }
}
