// The files of the engine, changed one durable effect at a time.

module Disks {
  import opened Base
  import opened Tables
  import opened Wals
  import Bloom
  import Manifests

  // Code that is not part of the model: hashes, checksums, and Go's quoting.
  datatype Env = Env(crc64: Checksum, hash: Bloom.Hasher, crc32: LineChecksum, quoting: Manifests.Quoting)

  // l<level>/<name>
  datatype Path = Path(level: nat, name: bytes)

  datatype DiskState = DiskState(
    tables: map<Path, bytes>,
    sidecars: map<Path, bytes>,
    manifest: Option<bytes>,
    wal: WalFile)

  // Two disks that differ in nothing but the table and sidecar at p.
  ghost predicate OnlyAt(d: DiskState, d': DiskState, p: Path) {
    && d'.manifest == d.manifest && d'.wal == d.wal
    && SameBut(d.tables, d'.tables, p) && SameBut(d.sidecars, d'.sidecars, p)
  }

  ghost predicate SameBut(files: map<Path, bytes>, files': map<Path, bytes>, p: Path) {
    forall q :: q != p ==> (q in files' <==> q in files) && (q in files ==> files'[q] == files[q])
  }

  // What a log append can leave behind: nothing, the line, or part of it without its newline.
  ghost predicate AppendLeaves(d: DiskState, line: Line, d': DiskState) {
    || d' == d || d' == d.(wal := Appended(d.wal, line))
    || exists whole :: d' == d.(wal := Torn(d.wal, line, whole))
  }

  // How many operations have failed, and how many of those have left their effect behind all the same although the
  // engine takes it for not having happened: a log line or a manifest that was written and then could not be synced.
  datatype FaultCount = FaultCount(failed: nat, unsynced: nat)

  ghost predicate Grew(f: FaultCount, f': FaultCount) {
    f.failed <= f'.failed && f.unsynced <= f'.unsynced && (f'.failed == f.failed ==> f' == f)
  }

  // An operation that reports an error has seen at least one failure.
  ghost predicate Reported(err: Option<Error>, f: FaultCount, f': FaultCount) {
    Grew(f, f') && (err.Some? ==> f'.failed > f.failed)
  }

  class Disk {
    var now: DiskState
    // Every state the disk has been in: what a crash may leave behind.
    ghost var seen: set<DiskState>
    ghost var faults: FaultCount

    ghost predicate Valid()
      reads `now, `seen
    {
      now in seen
    }

    constructor (d: DiskState)
      ensures Valid() && now == d && seen == {d}
    {
      now := d;
      seen := {d};
      faults := FaultCount(0, 0);
    }

    // An operation that changes nothing may fail.
    method Fault() returns (failed: bool)
      modifies this`faults
      ensures Grew(old(faults), faults) && faults.unsynced == old(faults.unsynced)
      ensures failed ==> faults.failed > old(faults.failed)
    {
      failed := *;
      if failed {
        faults := FaultCount(faults.failed + 1, faults.unsynced);
      }
    }

    // One durable effect, which happens or fails without a trace.
    method Try(next: DiskState) returns (ok: bool)
      modifies this
      ensures if ok then now == next && seen == old(seen) + {next} else now == old(now) && seen == old(seen)
      ensures Grew(old(faults), faults) && faults.unsynced == old(faults.unsynced)
      ensures !ok ==> faults.failed > old(faults.failed)
    {
      var failed := Fault();
      ok := !failed;
      if ok {
        now := next;
        seen := seen + {next};
      }
    }

    // One durable effect that may have happened although it reports an error.
    method TryUnsure(next: DiskState) returns (ok: bool)
      modifies this
      ensures ok ==> now == next && seen == old(seen) + {next}
      ensures !ok ==> (now == old(now) && seen == old(seen)) || (now == next && seen == old(seen) + {next})
      ensures Grew(old(faults), faults) && faults.unsynced == old(faults.unsynced)
      ensures !ok ==> faults.failed > old(faults.failed)
    {
      ok := Try(next);
      if ok {
        var failed := Fault();
        ok := !failed;
      }
    }

    // The same for an effect that its caller takes back, or forgets, when an error is reported.
    method TryUnsynced(next: DiskState) returns (ok: bool)
      modifies this
      ensures ok ==> now == next && seen == old(seen) + {next} && faults.unsynced == old(faults.unsynced)
      ensures !ok ==>
                || (now == old(now) && seen == old(seen))
                || (now == next && seen == old(seen) + {next} && faults.unsynced > old(faults.unsynced))
      ensures Grew(old(faults), faults) && (!ok ==> faults.failed > old(faults.failed))
    {
      ok := Try(next);
      if ok {
        var unsynced: bool := *;
        if unsynced {
          ok, faults := false, FaultCount(faults.failed + 1, faults.unsynced + 1);
        }
      }
    }

    // One line at the end of the log. A crash on the way may leave part of it behind, and so may an error.
    method Append(line: Line) returns (ok: bool)
      modifies this
      ensures ok ==> now == old(now).(wal := Appended(old(now).wal, line)) && faults.unsynced == old(faults.unsynced)
      ensures !ok && faults.unsynced == old(faults.unsynced) ==> now == old(now)
      ensures AppendLeaves(old(now), line, now)
      ensures forall d :: d in seen ==> d in old(seen) || AppendLeaves(old(now), line, d)
      ensures old(Valid()) ==> Valid()
      ensures Grew(old(faults), faults) && (!ok ==> faults.failed > old(faults.failed))
    {
      var whole: bool := *;
      var torn := now.(wal := Torn(now.wal, line, whole));
      seen := seen + {now.(wal := Torn(now.wal, line, true)), now.(wal := Torn(now.wal, line, false))};
      ok := TryUnsynced(now.(wal := Appended(now.wal, line)));
      if !ok {
        var partial: bool := *;
        if partial {
          now, seen, faults := torn, seen + {torn}, FaultCount(faults.failed, faults.unsynced + 1);
        }
      }
    }
  }
}
