// Writing table files with their filters, and replacing the manifest.

module StoreIO {
  import opened Base
  import opened Tables
  import opened TableFiles
  import opened Manifests
  import opened Disks
  import opened StoreState
  import Bloom

  // Everything the disk goes through differs from d in nothing but the files at p.
  ghost predicate SeenOnlyAt(seen: set<DiskState>, seen': set<DiskState>, d: DiskState, p: Path) {
    forall x :: x in seen' ==> x in seen || OnlyAt(d, x, p)
  }

  // removeSSTableAndBloom: either removal may fail, and the files are gone if none does.
  method RemoveSSTableAndBloom(disk: Disk, p: Path)
    requires disk.Valid()
    modifies disk
    ensures disk.Valid() && OnlyAt(old(disk.now), disk.now, p)
    ensures Grew(old(disk.faults), disk.faults) && disk.faults.unsynced == old(disk.faults.unsynced)
    ensures SeenOnlyAt(old(disk.seen), disk.seen, old(disk.now), p)
    ensures disk.now.tables.Keys <= old(disk.now.tables.Keys) && disk.now.sidecars.Keys <= old(disk.now.sidecars.Keys)
    ensures disk.faults == old(disk.faults) ==> p !in disk.now.tables && p !in disk.now.sidecars
  {
    var ok := disk.Try(disk.now.(tables := disk.now.tables - {p}));
    if ok {
      RemoveSidecar(disk, p);
    }
  }

  method RemoveSidecar(disk: Disk, p: Path)
    requires disk.Valid()
    modifies disk
    ensures disk.Valid() && OnlyAt(old(disk.now), disk.now, p)
    ensures Grew(old(disk.faults), disk.faults) && disk.faults.unsynced == old(disk.faults.unsynced)
    ensures SeenOnlyAt(old(disk.seen), disk.seen, old(disk.now), p)
    ensures disk.now.tables == old(disk.now.tables) && disk.now.sidecars.Keys <= old(disk.now.sidecars.Keys)
    ensures disk.faults == old(disk.faults) ==> p !in disk.now.sidecars
  {
    var ok := disk.Try(disk.now.(sidecars := disk.now.sidecars - {p}));
  }

  // writeSortedSSTableFile: first the filter, then the table, each renamed into place.
  method WriteSortedSSTableFile(env: Env, disk: Disk, p: Path, entries: seq<Entry>) returns (err: Option<Error>)
    requires disk.Valid()
    modifies disk
    ensures disk.Valid() && OnlyAt(old(disk.now), disk.now, p)
    ensures Grew(old(disk.faults), disk.faults) && disk.faults.unsynced == old(disk.faults.unsynced)
    ensures SeenOnlyAt(old(disk.seen), disk.seen, old(disk.now), p)
    ensures err.None? ==> Writable(entries) && |entries| <= MAX_ENTRIES && TableOk(env, disk.now, p, NormalRun(entries))
    ensures err.Some? && Writable(entries) && |entries| <= MAX_ENTRIES ==> disk.faults.failed > old(disk.faults.failed)
  {
    var table := WriteBlockBasedTable(env.crc64, entries);
    if table.Err? {
      RemoveSidecar(disk, p);
      return Some(table.error);
    }
    TableRoundTrip(env.crc64, entries);
    var filter := Bloom.BloomFilterForEntries(env.hash, entries);
    Bloom.FilterCovers(env.hash, filter, entries);
    Bloom.SidecarRoundTrip(env.crc64, filter);
    var sidecar := Bloom.EncodeSidecar(env.crc64, filter);
    err := PlaceFiles(env, disk, p, table.value, sidecar.value);
  }

  method PlaceFiles(env: Env, disk: Disk, p: Path, table: bytes, sidecar: bytes) returns (err: Option<Error>)
    requires disk.Valid()
    modifies disk
    ensures disk.Valid() && OnlyAt(old(disk.now), disk.now, p)
    ensures Grew(old(disk.faults), disk.faults) && disk.faults.unsynced == old(disk.faults.unsynced)
    ensures SeenOnlyAt(old(disk.seen), disk.seen, old(disk.now), p)
    ensures err.None? ==> p in disk.now.tables && disk.now.tables[p] == table
    ensures err.None? ==> p in disk.now.sidecars && disk.now.sidecars[p] == sidecar
    ensures err.Some? ==> disk.faults.failed > old(disk.faults.failed)
  {
    var ok := disk.TryUnsure(disk.now.(sidecars := disk.now.sidecars[p := sidecar]));
    if !ok {
      RemoveSidecar(disk, p);
      return Some(IoFailure);
    }
    ok := disk.Try(disk.now.(tables := disk.now.tables[p := table]));
    if !ok {
      RemoveSidecar(disk, p);
      return Some(IoFailure);
    }
    // the directory may fail to sync: the error is reported, the file stays
    var failed := disk.Fault();
    return if failed then Some(IoFailure) else None;
  }

  // rewriteManifestFromLevels: an error may come from the directory sync behind the rename.
  method RewriteManifest(env: Env, disk: Disk, levels: Levels) returns (err: Option<Error>)
    requires env.quoting.Lawful() && disk.Valid()
    modifies disk
    ensures disk.Valid() && Grew(old(disk.faults), disk.faults)
    ensures disk.now.tables == old(disk.now.tables) && disk.now.sidecars == old(disk.now.sidecars)
    ensures disk.now.wal == old(disk.now.wal)
    ensures err.Some? ==> disk.faults.failed > old(disk.faults.failed)
    ensures err.Some? && disk.faults.unsynced == old(disk.faults.unsynced) ==>
              disk.now == old(disk.now) && disk.seen == old(disk.seen)
    ensures err.None? ==> disk.seen == old(disk.seen) + {disk.now} && disk.faults.unsynced == old(disk.faults.unsynced)
    ensures err.None? && AllPrintable(SortByLevel(levels)) ==>
              && disk.now.manifest.Some?
              && ParseManifest(env.quoting, disk.now.manifest.value) == Ok(KeptAll(SortByLevel(levels)))
  {
    var sorted := SortByLevel(levels);
    var text := PrintManifest(env.quoting, sorted);
    if AllPrintable(sorted) {
      ManifestRoundTrip(env.quoting, sorted);
    }
    var ok := disk.TryUnsynced(disk.now.(manifest := Some(text)));
    return if ok then None else Some(IoFailure);
  }
}
