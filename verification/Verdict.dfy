/**
 The whole comparison, from two volumes to the printed status: whatever the
 traversals' and the workers' interleavings and the random draws were,
 VERIFIED means that the two filesystems agree.
 */
module Verdict {
  import opened Common
  import opened Filesystem
  import opened MergeJoin
  import opened Ledger
  import opened Plan
  import PlanProperties
  import Traversal
  import Workers

  datatype Status = MISMATCH | MISMATCH_INCOMPLETE | INCOMPLETE | SAMPLE_VERIFIED | VERIFIED

  /** The status decision of `PrintFinalResults`. */
  function StatusOf(mismatchCount: nat, complete: bool, plan: ComparisonPlan): Status {
    if mismatchCount != 0 then (if complete then MISMATCH else MISMATCH_INCOMPLETE)
    else if !complete then INCOMPLETE
    else if plan.selectedBytes != plan.availableBytes then SAMPLE_VERIFIED
    else VERIFIED
  }

  // ----- An inventory tells the truth about its volume -----

  /** `Run` returns what the workers committed and reported, each list sorted. */
  ghost predicate InventoryOf(s: Traversal.State, inventory: Inventory) {
    && multiset(inventory.objects) == multiset(s.objects)
    && multiset(inventory.issues) == multiset(s.issues)
    && multiset(inventory.incompleteDirectories) == multiset(s.incomplete)
    && (forall i, j :: 0 <= i < j < |inventory.objects| ==> !Less(inventory.objects[j].path, inventory.objects[i].path))
    && IssuesSorted(inventory.issues)
  }

  ghost predicate Truthful(vol: Volume, inventory: Inventory) {
    && (forall t :: Traversal.Reachable(vol, t) ==> Traversal.ObjectOf(vol, t) in inventory.objects)
    && (forall o :: o in inventory.objects ==>
          exists t :: Traversal.Reachable(vol, t) && o == Traversal.ObjectOf(vol, t))
    && (forall x :: x in inventory.issues <==> exists t :: Traversal.Reachable(vol, t) && Traversal.HasIssue(vol, t, x))
    && (forall p :: p in inventory.incompleteDirectories <==>
          exists t :: Traversal.Reachable(vol, t) && Traversal.IsIncomplete(vol, t) && t.path == p)
    && (forall t, u :: Traversal.Reachable(vol, t) && Traversal.Reachable(vol, u) && t.path == u.path ==> t == u)
  }

  lemma DistinctObjects(vol: Volume, s: Traversal.State, a: nat, b: nat)
    requires Traversal.NamesProper(vol) && Traversal.Calm(vol, s) && Traversal.Describes(vol, s) && a < b < |s.objects|
    ensures s.objects[a].path != s.objects[b].path
  {
    var k, l := s.committedBy[a], s.committedBy[b];
    assert s.discovered[0] == Traversal.ROOT;
    if k < l { Traversal.QueuedPathsDiffer(vol, s, k, l); } else { Traversal.QueuedPathsDiffer(vol, s, l, k); }
  }

  /** Equal multisets of records with distinct paths: sorting makes the order strict. */
  lemma {:induction false} SortedPermutationIsStrict(
    objects: seq<ObjectRecord>, permuted: seq<ObjectRecord>, i: nat, j: nat)
    requires multiset(permuted) == multiset(objects) && i < j < |permuted|
    requires forall a, b :: 0 <= a < b < |objects| ==> objects[a].path != objects[b].path
    ensures permuted[i].path != permuted[j].path
  {
    if permuted[i] == permuted[j] {
      TwiceInside(permuted, i, j);
      OnceOnly(objects, permuted[i]);
    } else {
      assert permuted[i] in multiset(objects) && permuted[j] in multiset(objects);
      var a :| 0 <= a < |objects| && objects[a] == permuted[i];
      var b :| 0 <= b < |objects| && objects[b] == permuted[j];
      if a < b { assert objects[a].path != objects[b].path; } else { assert objects[b].path != objects[a].path; }
    }
  }

  lemma TwiceInside<T>(s: seq<T>, i: nat, j: nat)
    requires i < j < |s| && s[i] == s[j]
    ensures multiset(s)[s[i]] >= 2
  {
    assert s == s[..i] + [s[i]] + s[i + 1..j] + [s[j]] + s[j + 1..];
  }

  lemma {:induction false} OnceOnly(objects: seq<ObjectRecord>, o: ObjectRecord)
    requires forall a, b :: 0 <= a < b < |objects| ==> objects[a].path != objects[b].path
    ensures multiset(objects)[o] <= 1
  {
    if objects != [] {
      var n := |objects| - 1;
      OnceOnly(objects[..n], o);
      assert objects == objects[..n] + [objects[n]];
      if objects[n] == o {
        assert forall a :: 0 <= a < n ==> objects[..n][a].path != o.path;
        assert o !in objects[..n];
      }
    }
  }

  /** The inventory of any finished traversal is well formed and truthful. */
  lemma TraversalYieldsTruth(vol: Volume, workerCount: nat, schedule: seq<Traversal.Step>, inventory: Inventory)
    requires Traversal.NamesProper(vol) && Traversal.IdentityDetermines(vol)
    requires Traversal.Finished(Traversal.After(vol, workerCount, schedule))
    requires InventoryOf(Traversal.After(vol, workerCount, schedule), inventory)
    ensures WellFormed(inventory) && Truthful(vol, inventory)
  {
    var s := Traversal.After(vol, workerCount, schedule);
    Traversal.FinishedTasksAreDone(vol, workerCount, schedule);
    Traversal.FinishedRunDescribesVolume(vol, workerCount, schedule);
    SortedObjects(vol, s, inventory);
    TruthfulObjects(vol, s, inventory);
    TruthfulIssues(vol, s, inventory);
    forall t, u | Traversal.Reachable(vol, t) && Traversal.Reachable(vol, u) && t != u ensures t.path != u.path {
      ReachablePathsDiffer(vol, s, t, u);
    }
  }

  lemma SortedObjects(vol: Volume, s: Traversal.State, inventory: Inventory)
    requires Traversal.NamesProper(vol) && Traversal.Calm(vol, s) && Traversal.Describes(vol, s)
    requires InventoryOf(s, inventory)
    ensures StrictlySorted(ObjectPaths(inventory.objects))
  {
    forall a, b | 0 <= a < b < |s.objects| ensures s.objects[a].path != s.objects[b].path {
      DistinctObjects(vol, s, a, b);
    }
    forall i, j | 0 <= i < j < |inventory.objects|
      ensures Less(ObjectPaths(inventory.objects)[i], ObjectPaths(inventory.objects)[j])
    {
      SortedPermutationIsStrict(s.objects, inventory.objects, i, j);
      LessTrichotomy(inventory.objects[i].path, inventory.objects[j].path);
    }
  }

  lemma SameElements<T>(a: seq<T>, b: seq<T>, x: T)
    requires multiset(a) == multiset(b)
    ensures x in a <==> x in b
  {
    assert x in multiset(a) <==> x in multiset(b);
  }

  lemma TruthfulObjects(vol: Volume, s: Traversal.State, inventory: Inventory)
    requires Traversal.Describes(vol, s) && multiset(inventory.objects) == multiset(s.objects)
    ensures forall t :: Traversal.Reachable(vol, t) ==> Traversal.ObjectOf(vol, t) in inventory.objects
    ensures forall o :: o in inventory.objects ==>
            exists t :: Traversal.Reachable(vol, t) && o == Traversal.ObjectOf(vol, t)
  {
    forall t | Traversal.Reachable(vol, t) ensures Traversal.ObjectOf(vol, t) in inventory.objects {
      var k :| 0 <= k < |s.discovered| && s.discovered[k] == t;
      assert k in s.committedBy;
      var j :| 0 <= j < |s.committedBy| && s.committedBy[j] == k;
      assert s.objects[j] == Traversal.ObjectOf(vol, t);
      SameElements(inventory.objects, s.objects, s.objects[j]);
    }
    forall o | o in inventory.objects
      ensures exists t :: Traversal.Reachable(vol, t) && o == Traversal.ObjectOf(vol, t)
    {
      SameElements(inventory.objects, s.objects, o);
      var j :| 0 <= j < |s.objects| && s.objects[j] == o;
      assert s.discovered[s.committedBy[j]] in s.discovered;
    }
  }

  lemma TruthfulIssues(vol: Volume, s: Traversal.State, inventory: Inventory)
    requires Traversal.Describes(vol, s) && InventoryOf(s, inventory)
    ensures forall x :: x in inventory.issues <==>
            exists t :: Traversal.Reachable(vol, t) && Traversal.HasIssue(vol, t, x)
    ensures forall p :: p in inventory.incompleteDirectories <==>
              exists t :: Traversal.Reachable(vol, t) && Traversal.IsIncomplete(vol, t) && t.path == p
    ensures forall n :: 0 <= n < |inventory.issues| ==> IsInventoryOperation(inventory.issues[n].operation)
  {
    forall x
      ensures x in inventory.issues <==> exists t :: Traversal.Reachable(vol, t) && Traversal.HasIssue(vol, t, x)
    {
      SameElements(inventory.issues, s.issues, x);
      if x in s.issues {
        var t :| t in s.discovered && Traversal.HasIssue(vol, t, x);
        assert Traversal.Reachable(vol, t);
      }
    }
    forall p
      ensures p in inventory.incompleteDirectories <==>
              exists t :: Traversal.Reachable(vol, t) && Traversal.IsIncomplete(vol, t) && t.path == p
    {
      SameElements(inventory.incompleteDirectories, s.incomplete, p);
      if p in s.incomplete {
        var t :| t in s.discovered && Traversal.IsIncomplete(vol, t) && t.path == p;
        assert Traversal.Reachable(vol, t);
      }
    }
    forall n | 0 <= n < |inventory.issues| ensures IsInventoryOperation(inventory.issues[n].operation) {
      assert inventory.issues[n] in inventory.issues;
    }
  }

  lemma ReachablePathsDiffer(vol: Volume, s: Traversal.State, t: Traversal.Task, u: Traversal.Task)
    requires Traversal.NamesProper(vol) && Traversal.Provenance(Traversal.ScriptsOf(vol), s)
    requires t in s.discovered && u in s.discovered && t != u && s.discovered[0] == Traversal.ROOT
    ensures t.path != u.path
  {
    var k :| 0 <= k < |s.discovered| && s.discovered[k] == t;
    var l :| 0 <= l < |s.discovered| && s.discovered[l] == u;
    if k < l { Traversal.QueuedPathsDiffer(vol, s, k, l); } else { Traversal.QueuedPathsDiffer(vol, s, l, k); }
  }

  // ----- Failures in the inventory are the volume's own -----

  lemma {:induction false} LastFailureIsRecorded(issues: seq<InventoryIssue>, path: string, operation: Operation)
    ensures match LastFailure(issues, path, operation)
            case Some(f) => InventoryIssue(path, operation, f) in issues
            case None => forall f :: InventoryIssue(path, operation, f) !in issues
  {
    if issues != [] {
      LastFailureIsRecorded(issues[..|issues| - 1], path, operation);
      assert issues == issues[..|issues| - 1] + [issues[|issues| - 1]];
    }
  }

  /** The failures the join consults are exactly those the volume gives for the object. */
  function VolumeFailures(vol: Volume, t: Traversal.Task): Failures {
    if vol.open(t.path).Some? then Failures(vol.open(t.path), None, None)
    else Failures(
      None,
      if vol.query(t.path).StreamsFailed? then Some(vol.query(t.path).failure) else None,
      if t.kind == Directory then vol.list(t.path).failure else None)
  }

  lemma InventoryFailuresAreTrue(vol: Volume, inventory: Inventory, t: Traversal.Task)
    requires Truthful(vol, inventory) && Traversal.Reachable(vol, t)
    ensures FailuresAt(inventory.issues, t.path) == VolumeFailures(vol, t)
  {
    OneFailureIsTrue(vol, inventory, t, OpenObject);
    OneFailureIsTrue(vol, inventory, t, QueryStreams);
    OneFailureIsTrue(vol, inventory, t, QueryDirectory);
  }

  function FailureOf(vol: Volume, t: Traversal.Task, operation: Operation): Option<Failure> {
    match operation
    case OpenObject => VolumeFailures(vol, t).open
    case QueryStreams => VolumeFailures(vol, t).streams
    case QueryDirectory => VolumeFailures(vol, t).directory
    case _ => None
  }

  lemma OneFailureIsTrue(vol: Volume, inventory: Inventory, t: Traversal.Task, operation: Operation)
    requires Truthful(vol, inventory) && Traversal.Reachable(vol, t)
    ensures LastFailure(inventory.issues, t.path, operation) == FailureOf(vol, t, operation)
  {
    LastFailureIsRecorded(inventory.issues, t.path, operation);
    forall f
      ensures InventoryIssue(t.path, operation, f) in inventory.issues <==> FailureOf(vol, t, operation) == Some(f)
    {
      var x := InventoryIssue(t.path, operation, f);
      if x in inventory.issues {
        var u :| Traversal.Reachable(vol, u) && Traversal.HasIssue(vol, u, x);
        assert u == t;
      }
      if FailureOf(vol, t, operation) == Some(f) { assert Traversal.HasIssue(vol, t, x); }
    }
  }

  // ----- Agreement -----

  /**
   What a volume gives for one chunk of one stream: a refusal, or the result of the read
   with the bytes it counts for.
   */
  datatype ChunkOutcome = NotOpened(failure: Failure) | NotSought(failure: Failure) |
    Read(shortfall: Option<Failure>, bytes: seq<nat>)

  function OutcomeAt(vol: Volume, path: string, name: string, offset: int, length: nat): ChunkOutcome {
    if vol.openStream(path, name).Some? then NotOpened(vol.openStream(path, name).value)
    else if vol.seek(path, name, offset).Some? then NotSought(vol.seek(path, name, offset).value)
    else
      var result := vol.read(path, name, offset, length);
      var failure := Workers.ReadFailure(result, length);
      Read(failure, if failure.None? || failure.value.error == 0 then Workers.Bytes(result) else [])
  }

  /** One chunk of one stream: both sides refuse alike, or both deliver the same bytes. */
  predicate ChunkAgrees(synthetic: Volume, actual: Volume, path: string, name: string, offset: int, length: nat) {
    OutcomeAt(synthetic, path, name, offset, length) == OutcomeAt(actual, path, name, offset, length)
  }

  ghost predicate StreamsAgree(synthetic: Volume, actual: Volume, path: string, streams: seq<StreamRecord>) {
    forall k, chunk :: 0 <= k < |streams| && chunk in Chunks(ReadTask(0, 0, k, k, 0, 0), streams[k].length, 0) ==>
      ChunkAgrees(synthetic, actual, path, streams[k].name, chunk.offset, chunk.length)
  }

  /** The same object on both sides: the same kind, and the same failure or the same streams and bytes. */
  ghost predicate ObjectAgrees(synthetic: Volume, actual: Volume, t: Traversal.Task, u: Traversal.Task) {
    && t.path == u.path && t.kind == u.kind
    && var failS, failR := VolumeFailures(synthetic, t), VolumeFailures(actual, u);
       if failS.open.Some? || failR.open.Some? then FailuresMatch(failS.open, failR.open) && t.kind != Directory
       else
         && failS.directory.None? && failR.directory.None?
         && if failS.streams.Some? || failR.streams.Some? then FailuresMatch(failS.streams, failR.streams)
            else
              && synthetic.query(t.path) == actual.query(t.path)
              && StreamsAgree(synthetic, actual, t.path, synthetic.query(t.path).records)
  }

  ghost predicate SyntheticIsMatched(synthetic: Volume, actual: Volume) {
    forall t :: Traversal.Reachable(synthetic, t) && !IsVssExcluded(t.path) ==>
      exists u :: Traversal.Reachable(actual, u) && ObjectAgrees(synthetic, actual, t, u)
  }

  ghost predicate RealIsMatched(synthetic: Volume, actual: Volume) {
    forall u :: Traversal.Reachable(actual, u) && !IsVssExcluded(u.path) ==>
      exists t :: Traversal.Reachable(synthetic, t) && ObjectAgrees(synthetic, actual, t, u)
  }

  /** Outside the exclusion, every object of either side agrees with one of the other. */
  ghost predicate FilesystemsAgree(synthetic: Volume, actual: Volume) {
    SyntheticIsMatched(synthetic, actual) && RealIsMatched(synthetic, actual)
  }

  lemma EqualUpToLength(a: seq<nat>, b: seq<nat>)
    requires |a| == |b| && Workers.FirstDifference(a, b) == |a|
    ensures a == b
  {
    assert a[..|a|] == a && b[..|b|] == b;
  }

  /** An accepted comparison that accused nobody compared equal data. */
  lemma AcceptedChunkAgrees(c: Workers.Sides, t: ReadTask, log: seq<Action>)
    requires Workers.TaskFits(c, t) && Workers.Evidence(c, t, log, [], Workers.Accept)
    requires Workers.SyntheticPath(c, t) == Workers.RealPath(c, t)
    requires Workers.SyntheticName(c, t) == Workers.RealName(c, t)
    requires !IsVssExcluded(Workers.SyntheticPath(c, t)) && forall a :: a in log ==> !Accuses(a)
    ensures ChunkAgrees(c.synthetic, c.actual, Workers.SyntheticPath(c, t), Workers.SyntheticName(c, t), t.offset,
            t.length)
  {
    match Workers.OpenOutcome(c, t)
    case Refused(action, accepted) => assert action in [action];
    case Readable =>
      var acts := Workers.ReadOutcome(c, t).0;
      forall a | a in acts ensures !Accuses(a) { assert a in log; }
      QuietReadAgrees(c, t);
  }

  lemma QuietReadAgrees(c: Workers.Sides, t: ReadTask)
    requires Workers.TaskFits(c, t) && Workers.OpenOutcome(c, t).Readable?
    requires Workers.SyntheticPath(c, t) == Workers.RealPath(c, t)
    requires Workers.SyntheticName(c, t) == Workers.RealName(c, t)
    requires !IsVssExcluded(Workers.SyntheticPath(c, t))
    requires Workers.ReadOutcome(c, t).1 == Workers.Accept
    requires forall a :: a in Workers.ReadOutcome(c, t).0 ==> !Accuses(a)
    ensures ChunkAgrees(c.synthetic, c.actual, Workers.SyntheticPath(c, t), Workers.SyntheticName(c, t), t.offset,
            t.length)
  {
    var path, name := Workers.SyntheticPath(c, t), Workers.SyntheticName(c, t);
    var acts := Workers.ReadOutcome(c, t).0;
    var readS, readR := c.synthetic.read(path, name, t.offset, t.length), c.actual.read(path, name, t.offset, t.length);
    var a, b := Workers.Bytes(readS), Workers.Bytes(readR);
    var failS, failR := Workers.ReadFailure(readS, t.length), Workers.ReadFailure(readR, t.length);
    var seekS, seekR := c.synthetic.seek(path, name, t.offset), c.actual.seek(path, name, t.offset);
    if seekS.None? && seekR.None? &&
      ((failS.None? && failR.None?) || (FailuresMatch(failS, failR) && failS.value.error == 0)) {
      assert |a| == |b|;
      var content := Workers.ContentActions(c, t, a, b);
      assert acts == content || acts == [acts[0]] + content;
      if content != [] { assert content[0] in acts && Accuses(content[0]); }
      EqualUpToLength(a, b);
    }
  }
}
