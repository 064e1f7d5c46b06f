// Bloom filters beside each table, and the sidecar files that keep them.

module Bloom {
  import opened Base
  import opened Tables
  import opened TableFormat

  const LENGTH: nat := 2096
  const HASHES: nat := 5
  const BIT_BYTES: nat := LENGTH / 8
  const SIDECAR_HEADER: nat := 32
  const MAGIC: bytes := [0x4B, 0x4C, 0x53, 0x4D, 0x42, 0x46, 0x30, 0x31]

  // The two murmur3 hashes of a key; nothing is assumed about them.
  type Hasher = bytes -> (uint32, uint32)

  // (h1 + uint32(i) * h2) % uint32(length), with both operations wrapping at 32 bits.
  function Index(h: (uint32, uint32), i: nat, length: nat): (idx: nat)
    requires length > 0
    ensures idx < length
  {
    ((h.0 + (i * h.1) % 0x1_0000_0000) % 0x1_0000_0000) % length
  }

  // ---------- Single bits ----------

  // b & (1 << bit) != 0
  predicate BitOf(b: nat, bit: nat) {
    if bit == 0 then b % 2 == 1 else BitOf(b / 2, bit - 1)
  }

  // b | (1 << bit)
  function BitOr(b: nat, bit: nat): nat {
    if bit == 0 then b + 1 - b % 2 else 2 * BitOr(b / 2, bit - 1) + b % 2
  }

  lemma {:induction false} ZeroHasNoBits(bit: nat)
    ensures !BitOf(0, bit)
  {
    if bit > 0 {
      ZeroHasNoBits(bit - 1);
    }
  }

  function Pow2(n: nat): nat {
    if n == 0 then 1 else 2 * Pow2(n - 1)
  }

  lemma {:induction false} BitOrFits(b: nat, bit: nat, width: nat)
    requires b < Pow2(width) && bit < width
    ensures BitOr(b, bit) < Pow2(width)
  {
    var half := Pow2(width - 1);
    assert Pow2(width) == 2 * half && BitOr(b, 0) == b + 1 - b % 2;
    Halved(b, half);
    if bit > 0 {
      BitOrFits(b / 2, bit - 1, width - 1);
      assert BitOr(b, bit) == 2 * BitOr(b / 2, bit - 1) + b % 2;
    }
    hide BitOr, Pow2;
  }

  lemma Halved(b: nat, half: nat)
    requires b < 2 * half
    ensures b / 2 < half && b + 1 - b % 2 < 2 * half
  {}

  lemma {:induction false} BitOrSets(b: nat, i: nat, j: nat)
    ensures BitOf(BitOr(b, i), j) <==> i == j || BitOf(b, j)
  {
    if i > 0 && j > 0 {
      BitOrSets(b / 2, i - 1, j - 1);
      assert BitOr(b, i) / 2 == BitOr(b / 2, i - 1);
    }
  }

  // ---------- The filter ----------

  datatype Filter = Filter(bits: bytes, length: nat, hashes: nat)

  // The shape every filter of this program has.
  predicate Standard(f: Filter) {
    |f.bits| == BIT_BYTES && f.length == LENGTH && f.hashes == HASHES
  }

  predicate BitSet(f: Filter, idx: nat)
    requires Standard(f) && idx < LENGTH
  {
    BitOf(f.bits[idx / 8], idx % 8)
  }

  // Every probe of the key is set.
  ghost predicate Found(hash: Hasher, f: Filter, key: bytes)
    requires Standard(f)
  {
    forall i :: 0 <= i < HASHES ==> BitSet(f, Index(hash(key), i, LENGTH))
  }

  // f' has the bits of f and those of the first n probes of the key, and no other.
  ghost predicate Adds(hash: Hasher, f: Filter, f': Filter, key: bytes, n: nat)
    requires Standard(f) && Standard(f')
  {
    forall idx :: 0 <= idx < LENGTH ==>
      (BitSet(f', idx) <==> BitSet(f, idx) || exists i :: 0 <= i < n && Index(hash(key), i, LENGTH) == idx)
  }

  // ---------- The same in numbers ----------

  // The five bits of a key with these two hashes: sums and products wrap around at 32 bits.
  function ProbesOf(h: (uint32, uint32)): (p: seq<nat>)
    ensures forall i :: 0 <= i < |p| ==> p[i] < 2096
  {
    [h.0 % 2096, (h.0 + h.1) % 0x1_0000_0000 % 2096, (h.0 + 2 * h.1) % 0x1_0000_0000 % 2096,
     (h.0 + 3 * h.1) % 0x1_0000_0000 % 2096, (h.0 + 4 * h.1) % 0x1_0000_0000 % 2096]
  }

  const POWERS: seq<nat> := [1, 2, 4, 8, 16, 32, 64, 128]

  // Eight bits to a byte, the lowest first.
  predicate BitAt(bits: bytes, idx: nat)
    requires |bits| == 262 && idx < 2096
  {
    bits[idx / 8] / POWERS[idx % 8] % 2 == 1
  }

  lemma {:induction false} BitOfPower(b: nat, bit: nat)
    requires bit < 8
    ensures BitOf(b, bit) <==> b / POWERS[bit] % 2 == 1
  {
    if bit > 0 {
      BitOfPower(b / 2, bit - 1);
      HalvedThenDivided(b, bit);
    }
  }

  lemma HalvedThenDivided(b: nat, bit: nat)
    requires 1 <= bit < 8
    ensures b / 2 / POWERS[bit - 1] == b / POWERS[bit]
  {
    if bit == 1 { assert b / 2 / 1 == b / 2; }
    else if bit == 2 { assert b / 2 / 2 == b / 4; }
    else if bit == 3 { assert b / 2 / 4 == b / 8; }
    else if bit == 4 { assert b / 2 / 8 == b / 16; }
    else if bit == 5 { assert b / 2 / 16 == b / 32; }
    else if bit == 6 { assert b / 2 / 32 == b / 64; }
    else { assert b / 2 / 64 == b / 128; }
  }

  lemma BitSetIsBitAt(f: Filter, idx: nat)
    requires Standard(f) && idx < LENGTH
    ensures |f.bits| == 262 && idx < 2096 && (BitSet(f, idx) <==> BitAt(f.bits, idx))
  {
    BitOfPower(f.bits[idx / 8], idx % 8);
  }

  lemma IndexIsProbe(h: (uint32, uint32), i: nat)
    requires i < HASHES
    ensures HASHES == 5 && ProbesOf(h)[i] == Index(h, i, LENGTH)
  {
    var step: nat := h.1;
    WrapOnce(h.0, i * step);
    assert 0 * step == 0 && 1 * step == step;
    var product := i * step;
    if i == 0 { assert Index(h, i, LENGTH) == h.0 % 2096; }
    else if i == 1 { assert product == step; }
    else if i == 2 { assert product == 2 * step; }
    else if i == 3 { assert product == 3 * step; }
    else { assert product == 4 * step; }
  }

  lemma WrapOnce(a: nat, b: nat)
    ensures (a + b % 0x1_0000_0000) % 0x1_0000_0000 == (a + b) % 0x1_0000_0000
  {}

  // Found, and added: what it means for the bits themselves.
  lemma FoundIff(hash: Hasher, f: Filter, key: bytes)
    requires Standard(f)
    ensures Found(hash, f, key) <==> forall i :: 0 <= i < 5 ==> BitAt(f.bits, ProbesOf(hash(key))[i])
  {
    var p := ProbesOf(hash(key));
    forall i | 0 <= i < 5 ensures BitSet(f, Index(hash(key), i, LENGTH)) <==> BitAt(f.bits, p[i]) {
      IndexIsProbe(hash(key), i);
      BitSetIsBitAt(f, p[i]);
    }
  }

  lemma AddsIff(hash: Hasher, f: Filter, f': Filter, key: bytes)
    requires Standard(f) && Standard(f')
    ensures Adds(hash, f, f', key, HASHES) <==>
            forall idx :: 0 <= idx < 2096 ==>
              (BitAt(f'.bits, idx) <==> BitAt(f.bits, idx) || idx in ProbesOf(hash(key)))
  {
    var p := ProbesOf(hash(key));
    forall idx | 0 <= idx < 2096
      ensures BitSet(f, idx) <==> BitAt(f.bits, idx)
      ensures BitSet(f', idx) <==> BitAt(f'.bits, idx)
      ensures (exists i :: 0 <= i < HASHES && Index(hash(key), i, LENGTH) == idx) <==> idx in p
    {
      BitSetIsBitAt(f, idx);
      BitSetIsBitAt(f', idx);
      ProbedIff(hash(key), idx);
    }
    hide BitSet, BitAt, ProbesOf, Index;
  }

  lemma ProbedIff(h: (uint32, uint32), idx: nat)
    ensures (exists i :: 0 <= i < HASHES && Index(h, i, LENGTH) == idx) <==> idx in ProbesOf(h)
  {
    var p := ProbesOf(h);
    forall i | 0 <= i < 5 ensures p[i] == Index(h, i, LENGTH) { IndexIsProbe(h, i); }
    hide Index;
    if idx in p {
      var i :| 0 <= i < |p| && p[i] == idx;
      assert Index(h, i, LENGTH) == idx;
    }
  }

  // ---------- Added keys are found ----------

  // An added key is found, and no key found before is lost.
  lemma AddedIsFound(hash: Hasher, f: Filter, f': Filter, key: bytes)
    requires Standard(f) && Standard(f') && Adds(hash, f, f', key, HASHES)
    ensures Found(hash, f', key)
    ensures forall k :: Found(hash, f, k) ==> Found(hash, f', k)
  {
    forall i | 0 <= i < HASHES ensures BitSet(f', Index(hash(key), i, LENGTH)) {}
    forall k, i | Found(hash, f, k) && 0 <= i < HASHES ensures BitSet(f', Index(hash(k), i, LENGTH)) {}
  }

  class BloomFilter {
    var bits: array<byte>
    const length: nat := LENGTH
    const hashes: nat := HASHES

    ghost predicate Valid()
      reads this
    {
      bits.Length == BIT_BYTES
    }

    function Value(): (f: Filter)
      requires Valid()
      reads this, bits
      ensures Standard(f)
    {
      Filter(bits[..], length, hashes)
    }

    constructor ()
      ensures Valid() && fresh(bits)
      ensures forall idx :: 0 <= idx < LENGTH ==> !BitSet(Value(), idx)
    {
      bits := new byte[BIT_BYTES](_ => 0);
      new;
      forall idx | 0 <= idx < LENGTH ensures !BitSet(Value(), idx) { ZeroHasNoBits(idx % 8); }
    }

    method Add(hash: Hasher, key: bytes)
      requires Valid()
      modifies bits
      ensures Valid() && Adds(hash, old(Value()), Value(), key, HASHES)
      ensures forall idx :: 0 <= idx < 2096 ==>
                (BitAt(bits[..], idx) <==> old(BitAt(bits[..], idx)) || idx in ProbesOf(hash(key)))
    {
      var h := hash(key);
      for i := 0 to hashes
        invariant Adds(hash, old(Value()), Value(), key, i)
      {
        var idx := Index(h, i, length);
        ghost var before := Value();
        assert Pow2(8) == 0x100;
        BitOrFits(bits[idx / 8], idx % 8, 8);
        bits[idx / 8] := BitOr(bits[idx / 8], idx % 8);
        OneBitAdded(before, Value(), idx);
      }
      AddsIff(hash, old(Value()), Value(), key);
    }
  }

  lemma OneBitAdded(f: Filter, f': Filter, idx: nat)
    requires Standard(f) && Standard(f') && idx < LENGTH
    requires BitOr(f.bits[idx / 8], idx % 8) < 0x100
    requires f'.bits == f.bits[idx / 8 := BitOr(f.bits[idx / 8], idx % 8)]
    ensures forall j :: 0 <= j < LENGTH ==> (BitSet(f', j) <==> BitSet(f, j) || j == idx)
  {
    forall j | 0 <= j < LENGTH ensures BitSet(f', j) <==> BitSet(f, j) || j == idx {
      if j / 8 == idx / 8 {
        BitOrSets(f.bits[idx / 8], idx % 8, j % 8);
      }
    }
  }

  method FoundIn(hash: Hasher, f: Filter, key: bytes) returns (found: bool)
    requires Standard(f)
    ensures found <==> forall i :: 0 <= i < 5 ==> BitAt(f.bits, ProbesOf(hash(key))[i])
    ensures found <==> Found(hash, f, key)
  {
    FoundIff(hash, f, key);
    var h := hash(key);
    for i := 0 to f.hashes
      invariant forall j :: 0 <= j < i ==> BitSet(f, Index(h, j, LENGTH))
    {
      if !BitSet(f, Index(h, i, f.length)) {
        return false;
      }
    }
    return true;
  }

  ghost predicate Probes(hash: Hasher, key: bytes, idx: nat) {
    exists i :: 0 <= i < HASHES && Index(hash(key), i, LENGTH) == idx
  }

  // The set bits are exactly the probes of the run's keys.
  ghost predicate FilterOf(hash: Hasher, f: Filter, entries: seq<Entry>) {
    && Standard(f)
    && forall idx :: 0 <= idx < LENGTH ==>
         (BitSet(f, idx) <==> exists m :: 0 <= m < |entries| && Probes(hash, entries[m].K, idx))
  }

  lemma FilterOfIff(hash: Hasher, f: Filter, entries: seq<Entry>)
    requires Standard(f)
    ensures FilterOf(hash, f, entries) <==>
            forall idx :: 0 <= idx < 2096 ==>
              (BitAt(f.bits, idx) <==> exists m :: 0 <= m < |entries| && idx in ProbesOf(hash(entries[m].K)))
  {
    forall idx | 0 <= idx < 2096
      ensures BitSet(f, idx) <==> BitAt(f.bits, idx)
      ensures forall m :: 0 <= m < |entries| ==>
                (Probes(hash, entries[m].K, idx) <==> idx in ProbesOf(hash(entries[m].K)))
    {
      BitSetIsBitAt(f, idx);
      forall m | 0 <= m < |entries| ensures Probes(hash, entries[m].K, idx) <==> idx in ProbesOf(hash(entries[m].K)) {
        ProbedIff(hash(entries[m].K), idx);
      }
    }
    hide BitSet, BitAt, Probes, ProbesOf;
  }

  method BloomFilterForEntries(hash: Hasher, entries: seq<Entry>) returns (f: Filter)
    ensures Standard(f) && forall idx :: 0 <= idx < 2096 ==>
              (BitAt(f.bits, idx) <==> exists m :: 0 <= m < |entries| && idx in ProbesOf(hash(entries[m].K)))
    ensures FilterOf(hash, f, entries)
  {
    var filter := new BloomFilter();
    for n := 0 to |entries|
      invariant filter.Valid() && fresh(filter) && fresh(filter.bits)
      invariant FilterOf(hash, filter.Value(), entries[..n])
    {
      ghost var before := filter.Value();
      filter.Add(hash, entries[n].K);
      FilterSnoc(hash, before, filter.Value(), entries[..n], entries[n]);
      assert entries[..n + 1] == entries[..n] + [entries[n]];
    }
    assert entries[..|entries|] == entries;
    f := filter.Value();
    FilterOfIff(hash, f, entries);
  }

  lemma FilterSnoc(hash: Hasher, f: Filter, f': Filter, entries: seq<Entry>, e: Entry)
    requires FilterOf(hash, f, entries) && Standard(f') && Adds(hash, f, f', e.K, HASHES)
    ensures FilterOf(hash, f', entries + [e])
  {
    var all := entries + [e];
    forall idx | 0 <= idx < LENGTH
      ensures BitSet(f', idx) <==> exists m :: 0 <= m < |all| && Probes(hash, all[m].K, idx)
    {
      assert all[|entries|] == e;
      assert BitSet(f', idx) <==> BitSet(f, idx) || Probes(hash, e.K, idx);
      if m :| 0 <= m < |all| && Probes(hash, all[m].K, idx) {
        assert m < |entries| ==> all[m] == entries[m];
      }
      if m :| 0 <= m < |entries| && Probes(hash, entries[m].K, idx) {
        assert all[m] == entries[m];
      }
    }
  }

  // A filter over a run has no false negatives.
  ghost predicate Covers(hash: Hasher, f: Filter, entries: seq<Entry>) {
    Standard(f) && forall i :: 0 <= i < |entries| ==> Found(hash, f, entries[i].K)
  }

  lemma FilterCovers(hash: Hasher, f: Filter, entries: seq<Entry>)
    requires FilterOf(hash, f, entries)
    ensures Covers(hash, f, entries)
  {
    forall m, i | 0 <= m < |entries| && 0 <= i < HASHES
      ensures BitSet(f, Index(hash(entries[m].K), i, LENGTH))
    {
      assert Probes(hash, entries[m].K, Index(hash(entries[m].K), i, LENGTH));
    }
  }

  // A key the filter rules out is in no covered run.
  lemma NotFoundNotThere(hash: Hasher, f: Filter, entries: seq<Entry>, key: bytes)
    requires Covers(hash, f, entries) && !Found(hash, f, key)
    ensures Lookup(entries, key) == None
  {
    forall i | 0 <= i < |entries| ensures entries[i].K != key {
      assert Found(hash, f, entries[i].K);
    }
    LookupMiss(entries, key);
  }

  // ---------- Sidecar files ----------

  function SidecarHeader(crc: Checksum, f: Filter): (h: bytes)
    ensures |h| == SIDECAR_HEADER
  {
    MAGIC + [1, 0, 0, 0] + LittleEndian(f.length, 4) + LittleEndian(f.hashes, 4) + LittleEndian(|f.bits|, 4)
    + LittleEndian(crc(f.bits), 8)
  }

  function EncodeSidecar(crc: Checksum, f: Filter): Result<bytes> {
    if f.length != LENGTH || f.hashes != HASHES then Err(InvalidSidecar)
    else Ok(SidecarHeader(crc, f) + f.bits)
  }

  function DecodeSidecar(crc: Checksum, contents: bytes): Result<Filter> {
    if |contents| != SIDECAR_HEADER + BIT_BYTES then Err(InvalidSidecar)
    else if contents[..8] != MAGIC || contents[8] != 1 then Err(InvalidSidecar)
    else
      var length := FromLittleEndian(contents[12..16]);
      var hashes := FromLittleEndian(contents[16..20]);
      var bitBytes := FromLittleEndian(contents[20..24]);
      var bits := contents[SIDECAR_HEADER..];
      if length != LENGTH || hashes != HASHES || bitBytes != BIT_BYTES then Err(InvalidSidecar)
      else if crc(bits) != FromLittleEndian(contents[24..32]) then Err(InvalidSidecar)
      else Ok(Filter(bits, length, hashes))
  }

  // A filter read back from its sidecar is the filter written, so it still finds every added key.
  lemma SidecarRoundTrip(crc: Checksum, f: Filter)
    requires Standard(f)
    ensures EncodeSidecar(crc, f).Ok?
    ensures DecodeSidecar(crc, EncodeSidecar(crc, f).value) == Ok(f)
  {
    var sum: uint64 := crc(f.bits);
    LittleEndianFits(LENGTH, 4, 0x1_0000_0000);
    LittleEndianFits(HASHES, 4, 0x1_0000_0000);
    LittleEndianFits(BIT_BYTES, 4, 0x1_0000_0000);
    LittleEndianFits(sum, 8, 0x1_0000_0000_0000_0000);
    SidecarFields(SidecarHeader(crc, f), f.bits);
    SidecarHeaderFields(crc, f);
  }

  lemma LittleEndianFits(v: nat, n: nat, bound: nat)
    requires v < bound == Pow256(n)
    ensures FromLittleEndian(LittleEndian(v, n)) == v
  {
    LittleEndianRoundTrip(v, n);
  }

  lemma SidecarHeaderFields(crc: Checksum, f: Filter)
    ensures var h := SidecarHeader(crc, f);
            && h[..8] == MAGIC && h[8] == 1
            && h[12..16] == LittleEndian(f.length, 4) && h[16..20] == LittleEndian(f.hashes, 4)
            && h[20..24] == LittleEndian(|f.bits|, 4) && h[24..32] == LittleEndian(crc(f.bits), 8)
  {}

  lemma SidecarFields(h: bytes, bits: bytes)
    requires |h| == SIDECAR_HEADER
    ensures var c := h + bits;
            && c[..8] == h[..8] && c[8] == h[8] && c[12..16] == h[12..16] && c[16..20] == h[16..20]
            && c[20..24] == h[20..24] && c[24..32] == h[24..32] && c[SIDECAR_HEADER..] == bits
  {}

  // The bytes of a sidecar: magic, version 1, the three parameters, the checksum of the bits, the bits.
  lemma SidecarLayout(crc: Checksum, f: Filter)
    requires Standard(f)
    ensures EncodeSidecar(crc, f).Ok?
    ensures var c := EncodeSidecar(crc, f).value;
            && |c| == 294 && c[..12] == [0x4B, 0x4C, 0x53, 0x4D, 0x42, 0x46, 0x30, 0x31, 1, 0, 0, 0]
            && c[12..24] == [0x30, 0x08, 0, 0, 5, 0, 0, 0, 0x06, 0x01, 0, 0]
            && Number(c[24..32]) == crc(c[32..]) && c[32..] == f.bits
  {
    var h, c, sum: uint64 := SidecarHeader(crc, f), EncodeSidecar(crc, f).value, crc(f.bits);
    LittleEndianFits(sum, 8, 0x1_0000_0000_0000_0000);
    SidecarFields(h, f.bits);
    SidecarHeaderFields(crc, f);
    NumberIsLittleEndian(h[24..32]);
    SmallNumbers();
    HeaderBytes(crc, f);
    hide LittleEndian, FromLittleEndian, SidecarHeader;
    assert c[..12] == h[..12] && c[12..24] == h[12..24] && h[12..24] == h[12..16] + h[16..20] + h[20..24];
  }

  lemma HeaderBytes(crc: Checksum, f: Filter)
    ensures SidecarHeader(crc, f)[..12] == [0x4B, 0x4C, 0x53, 0x4D, 0x42, 0x46, 0x30, 0x31, 1, 0, 0, 0]
  {}

  lemma SmallNumbers()
    ensures LittleEndian(LENGTH, 4) == [0x30, 0x08, 0, 0] && LittleEndian(HASHES, 4) == [5, 0, 0, 0]
    ensures LittleEndian(BIT_BYTES, 4) == [0x06, 0x01, 0, 0]
  {
    assert LittleEndian(0, 2) == [0, 0] && LittleEndian(0, 3) == [0, 0, 0];
    assert LittleEndian(8, 3) == [8, 0, 0] && LittleEndian(1, 3) == [1, 0, 0];
  }

  // Whatever is accepted as a sidecar is a standard filter, and agrees with what would be written for
  // it everywhere but in the three header bytes that are never inspected.
  lemma SidecarAccepted(crc: Checksum, contents: bytes)
    requires DecodeSidecar(crc, contents).Ok?
    ensures var f := DecodeSidecar(crc, contents).value;
            var written := EncodeSidecar(crc, f);
            && Standard(f) && written.Ok? && |written.value| == |contents|
            && contents[..9] == written.value[..9] && contents[12..] == written.value[12..]
  {
    var f := DecodeSidecar(crc, contents).value;
    var written := EncodeSidecar(crc, f).value;
    FromLittleEndianInverse(contents[12..16]);
    FromLittleEndianInverse(contents[16..20]);
    FromLittleEndianInverse(contents[20..24]);
    FromLittleEndianInverse(contents[24..32]);
    assert written[12..16] == contents[12..16] && written[16..20] == contents[16..20];
    assert written[20..24] == contents[20..24] && written[24..32] == contents[24..32];
  }

  lemma {:induction false} FromLittleEndianInverse(b: bytes)
    ensures LittleEndian(FromLittleEndian(b), |b|) == b
  {
    if b != [] {
      FromLittleEndianInverse(b[1..]);
      assert FromLittleEndian(b) == b[0] + 0x100 * FromLittleEndian(b[1..]);
      assert FromLittleEndian(b) % 0x100 == b[0] && FromLittleEndian(b) / 0x100 == FromLittleEndian(b[1..]);
      assert b == [b[0]] + b[1..];
    }
  }
}
