// A Get that reads the memtable and the store at two different moments is still linearizable.

module Reads {
  import opened Base
  import opened Machine
  import opened Memory

  // Once the memtable has been found not to hold the key, whatever the store answers later was the value of the
  // key at some moment in between, even if whole flushes and compactions fall into that time.
  lemma {:induction false} MissThenStoreRead(trace: seq<State>, key: bytes) returns (j: nat)
    requires LiveRun(trace) && Lookup(trace[0].mem, key) == None
    ensures j < |trace| && StoreView(trace[|trace| - 1], key) == LastWrite(trace[j].done, key)
  {
    hide LiveStep, LastWrite;
    var n := |trace| - 1;
    if n == 0 {
      assert View(trace[0], key) == LastWrite(trace[0].done, key);
      j := 0;
    } else {
      assert LiveStep(trace[n - 1], trace[n]);
      LiveRunKeeps(trace, n - 1);
      StoreAnswerSteps(trace[n - 1], trace[n], key);
      if StoreView(trace[n], key) == LastWrite(trace[n - 1].done, key) {
        j := n - 1;
      } else {
        j := MissThenStoreRead(trace[..n], key);
      }
    }
  }

  // The value a Get returns: from the memtable as it was when the Get began, or else from the store as it is
  // when the Get ends.
  function GetResult(first: State, last: State, key: bytes): Option<StorageEntry> {
    if Lookup(first.mem, key).Some? then Lookup(first.mem, key) else StoreView(last, key)
  }

  // Main result. Every Get returns what the map held for the key at some moment between its two reads, whatever
  // the writer does in between: any write, any failure, and effects that are left unsynced.
  lemma GetIsLinearizable(trace: seq<State>, key: bytes) returns (j: nat)
    requires LiveRun(trace)
    ensures j < |trace|
    ensures GetResult(trace[0], trace[|trace| - 1], key) == LastWrite(trace[j].done, key) == View(trace[j], key)
  {
    j := 0;
    assert View(trace[0], key) == LastWrite(trace[0].done, key);
    if Lookup(trace[0].mem, key) == None {
      j := MissThenStoreRead(trace, key);
    }
    LiveRunKeeps(trace, j);
    assert View(trace[j], key) == LastWrite(trace[j].done, key);
  }
}
