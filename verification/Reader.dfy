// Reading a table entry by entry across its blocks.

module Readers {
  import opened Base
  import opened Tables
  import opened TableFiles

  // All entries of the blocks from b on, if each of them can be read.
  ghost function BlocksFrom(crc: Checksum, t: Table, b: nat): Result<seq<Entry>>
    requires Opened(t)
    decreases |t.index| - b
  {
    if b >= |t.index| then Ok([])
    else
      var first := ParsePage(crc, t.file, t.index, b);
      var rest := BlocksFrom(crc, t, b + 1);
      if first.Err? then first else if rest.Err? then rest else Ok(first.value + rest.value)
  }

  // The entries of blocks b and up.
  ghost function RunFrom(run: seq<Entry>, b: nat): seq<Entry> {
    if b * BLOCK_ENTRIES <= |run| then run[b * BLOCK_ENTRIES..] else []
  }

  lemma RunFromChunk(run: seq<Entry>, b: nat)
    requires b < BlockCount(|run|)
    ensures RunFrom(run, b) == Chunk(run, b) + RunFrom(run, b + 1)
  {
    var c := Chunk(run, b);
    assert c == run[b * BLOCK_ENTRIES..b * BLOCK_ENTRIES + |c|];
    assert RunFrom(run, b + 1) == run[b * BLOCK_ENTRIES + |c|..];
  }

  // An intact file yields its run, block by block.
  lemma {:induction false} BlocksOfRun(crc: Checksum, t: Table, run: seq<Entry>, b: nat)
    requires Opened(t) && Encodes(crc, t.file, run) && b <= BlockCount(|run|)
    ensures BlocksFrom(crc, t, b) == Ok(RunFrom(run, b))
    decreases BlockCount(|run|) - b
  {
    if b < BlockCount(|run|) {
      assert ParsePage(crc, t.file, t.index, b) == Ok(Chunk(run, b));
      BlocksOfRun(crc, t, run, b + 1);
      RunFromChunk(run, b);
    } else {
      assert RunFrom(run, b) == [];
    }
  }

  class SstableReader {
    const crc: Checksum
    const table: Table
    var block: nat
    var entries: Option<seq<Entry>>
    var entryAt: nat
    var entry: Entry
    var hasNext: bool

    ghost predicate Valid()
      reads this
    {
      && Opened(table)
      && (entries.Some? ==>
           && block < |table.index| && entryAt <= |entries.value|
           && ParsePage(crc, table.file, table.index, block) == Ok(entries.value))
    }

    // The entries not yet handed out.
    ghost function Rest(): Result<seq<Entry>>
      requires Valid()
      reads this
    {
      if entries.None? then BlocksFrom(crc, table, block)
      else
        var rest := BlocksFrom(crc, table, block + 1);
        if rest.Err? then rest else Ok(entries.value[entryAt..] + rest.value)
    }

    constructor (crc: Checksum, table: Table)
      requires Opened(table)
      ensures Valid() && this.crc == crc && this.table == table
      ensures Rest() == BlocksFrom(crc, table, 0)
    {
      this.crc, this.table := crc, table;
      block, entries, entryAt := 0, None, 0;
      entry, hasNext := Entry([], [], Put), false;
    }

    method Load() returns (err: Option<Error>)
      requires Valid() && entries.None? && block < |table.index|
      modifies this`entries, this`entryAt
      ensures Valid()
      ensures err.None? ==> entries.Some? && Rest() == old(Rest())
      ensures err.Some? ==> old(Rest()).Err?
    {
      var loaded := ReadBlock(crc, table.file, table.index, block);
      if loaded.Err? {
        return Some(loaded.error);
      }
      entries, entryAt := Some(loaded.value), 0;
      assert loaded.value[0..] == loaded.value;
      return None;
    }

    method Take()
      requires Valid() && entries.Some? && entryAt < |entries.value|
      modifies this`entry, this`entryAt, this`hasNext
      ensures Valid() && hasNext
      ensures old(Rest()).Ok? ==>
                old(Rest()).value != [] && entry == old(Rest()).value[0] && Rest() == Ok(old(Rest()).value[1..])
    {
      hide ParsePage, BlocksFrom;
      ghost var unread := entries.value[entryAt..];
      ghost var rest := BlocksFrom(crc, table, block + 1);
      assert rest.Ok? ==> (unread + rest.value)[1..] == entries.value[entryAt + 1..] + rest.value;
      entry := entries.value[entryAt];
      entryAt := entryAt + 1;
      hasNext := true;
    }

    method NextBlock()
      requires Valid() && entries.Some? && entryAt == |entries.value|
      modifies this`block, this`entries
      ensures Valid() && Rest() == old(Rest()) && block == old(block) + 1 && entries.None?
    {
      ghost var rest := BlocksFrom(crc, table, block + 1);
      assert rest.Ok? ==> entries.value[entryAt..] + rest.value == rest.value;
      block, entries := block + 1, None;
    }

    // Hands out the next entry, loading blocks as needed; fails only when a block cannot be read.
    method Advance() returns (err: Option<Error>)
      requires Valid()
      modifies this
      ensures Valid()
      ensures err.Some? ==> old(Rest()).Err?
      ensures old(Rest()).Ok? && old(Rest()).value == [] ==> !hasNext && Rest() == Ok([])
      ensures old(Rest()).Ok? && old(Rest()).value != [] ==>
                hasNext && entry == old(Rest()).value[0] && Rest() == Ok(old(Rest()).value[1..])
    {
      while block < |table.index|
        invariant Valid() && Rest() == old(Rest())
        invariant block >= |table.index| ==> entries.None?
        decreases |table.index| - block
      {
        if entries.None? {
          err := Load();
          if err.Some? {
            return;
          }
        }
        if entryAt < |entries.value| {
          Take();
          return None;
        }
        NextBlock();
      }
      hasNext := false;
      return None;
    }
  }
}
