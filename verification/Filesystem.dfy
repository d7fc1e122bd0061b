/**
 The records of a filesystem inventory, and a mounted volume seen as an oracle:
 one fixed answer, a value or a failure, for every path and operation.
 */
module Filesystem {
  import opened Common

  datatype ObjectKind = File | Directory | FileReparsePoint | DirectoryReparsePoint

  datatype Operation = QueryDirectory | OpenObject | QueryStreams | OpenStream | SeekStream | ReadStream

  datatype Failure = Failure(error: nat, transferred: nat)

  datatype StreamRecord = StreamRecord(name: string, length: int)

  datatype ObjectRecord = ObjectRecord(
    path: string, kind: ObjectKind, identity: nat, streams: seq<StreamRecord>, streamsComplete: bool)

  datatype InventoryIssue = InventoryIssue(path: string, operation: Operation, failure: Failure)

  datatype Inventory = Inventory(
    objects: seq<ObjectRecord>, issues: seq<InventoryIssue>, incompleteDirectories: seq<string>)

  const SVI := "System Volume Information"

  predicate IsVssExcluded(path: string) {
    path == SVI || SVI + "\\" <= path
  }

  /** Both sides failed, and failed alike. */
  predicate FailuresMatch(synthetic: Option<Failure>, actual: Option<Failure>) {
    synthetic.Some? && actual.Some? && synthetic.value == actual.value
  }

  function ObjectPaths(objects: seq<ObjectRecord>): (paths: seq<string>)
    ensures |paths| == |objects|
    ensures forall i :: 0 <= i < |paths| ==> paths[i] == objects[i].path
  {
    seq(|objects|, i requires 0 <= i < |objects| => objects[i].path)
  }

  function StreamNames(streams: seq<StreamRecord>): (names: seq<string>)
    ensures |names| == |streams|
    ensures forall i :: 0 <= i < |names| ==> names[i] == streams[i].name
  {
    seq(|streams|, i requires 0 <= i < |streams| => streams[i].name)
  }

  datatype Entry = Entry(name: string, kind: ObjectKind, identity: nat)

  /** A directory is returned batch by batch, and a query may fail after some batches. */
  datatype Listing = Listing(batches: seq<seq<Entry>>, failure: Option<Failure>)

  datatype StreamQuery = Streams(records: seq<StreamRecord>) | StreamsFailed(failure: Failure)

  /** A read that succeeded (perhaps short), or failed with an error code. */
  datatype ReadResult = Transferred(bytes: seq<nat>) | ReadError(error: nat)

  datatype Volume = Volume(
    open: string -> Option<Failure>,
    query: string -> StreamQuery,
    list: string -> Listing,
    openStream: (string, string) -> Option<Failure>,
    seek: (string, string, int) -> Option<Failure>,
    read: (string, string, int, nat) -> ReadResult)

  function ChildPath(parent: string, name: string): string {
    if parent == "" then name else parent + "\\" + name
  }

  lemma ShorterParentDiffers(parent1: string, name1: string, parent2: string, name2: string)
    requires '\\' !in name1 && |parent1| < |parent2|
    ensures ChildPath(parent1, name1) != ChildPath(parent2, name2)
  {
    var path1, path2 := ChildPath(parent1, name1), ChildPath(parent2, name2);
    if |path1| == |path2| {
      var k := |parent2|;
      assert path2[k] == '\\';
      assert path1[k] == if parent1 == "" then name1[k] else name1[k - |parent1| - 1];
      assert path1[k] in name1;
    }
  }

  /** Names without a separator are split from their parent uniquely. */
  lemma ChildPathInjective(parent1: string, name1: string, parent2: string, name2: string)
    requires '\\' !in name1 && '\\' !in name2
    requires ChildPath(parent1, name1) == ChildPath(parent2, name2)
    ensures parent1 == parent2 && name1 == name2
  {
    if |parent1| < |parent2| { ShorterParentDiffers(parent1, name1, parent2, name2); }
    if |parent2| < |parent1| { ShorterParentDiffers(parent2, name2, parent1, name1); }
    var path := ChildPath(parent1, name1);
    assert path[..|parent1|] == parent1 == parent2;
    assert parent1 != "" ==> path[|parent1| + 1..] == name1 == name2;
  }

  lemma ChildPathsDiffer(parent1: string, name1: string, parent2: string, name2: string)
    requires '\\' !in name1 && '\\' !in name2 && (parent1 != parent2 || name1 != name2)
    ensures ChildPath(parent1, name1) != ChildPath(parent2, name2)
  {
    if ChildPath(parent1, name1) == ChildPath(parent2, name2) { ChildPathInjective(parent1, name1, parent2, name2); }
  }
}
