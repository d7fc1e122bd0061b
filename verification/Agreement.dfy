/**
 The other direction of soundness: filesystems that agree are never accused, in any run, and
 some run of their comparison ends in VERIFIED.
 */
module Agreement {
  import opened Common
  import opened Filesystem
  import opened MergeJoin
  import opened Ledger
  import opened Plan
  import opened JoinEvidence
  import opened Verdict
  import opened Soundness
  import opened Completeness
  import opened Exactness
  import PlanProperties
  import Traversal
  import Workers

  // ----- A matched pair is quiet exactly when it agrees -----

  /** Neither side failed, or both failed alike. */
  predicate FailAlike(a: Option<Failure>, b: Option<Failure>) { (a.None? && b.None?) || FailuresMatch(a, b) }

  lemma QuietSum(a: seq<Action>, b: seq<Action>)
    ensures Quiet(a + b) <==> Quiet(a) && Quiet(b)
  {
    if Quiet(a + b) { QuietConcat(a, b); }
  }

  lemma QuietOperationIff(path: string, operation: Operation, a: Option<Failure>, b: Option<Failure>)
    requires !IsVssExcluded(path)
    ensures Quiet(OperationActions(path, operation, a, b)) <==> FailAlike(a, b)
  {
    if Quiet(OperationActions(path, operation, a, b)) { QuietOperation(path, operation, a, b); }
  }

  lemma QuietFailuresIff(syn: Inventory, rea: Inventory, s: ObjectRecord, r: ObjectRecord)
    requires !IsVssExcluded(s.path)
    ensures var fs, fr := FailuresAt(syn.issues, s.path), FailuresAt(rea.issues, s.path);
            Quiet(FailureActions(syn, rea, s, r)) <==>
            && FailAlike(fs.open, fr.open)
            && (fs.open.None? && fr.open.None? ==>
                  && FailAlike(fs.streams, fr.streams)
                  && (s.kind == Directory && r.kind == Directory ==> FailAlike(fs.directory, fr.directory)))
  {
    var fs, fr := FailuresAt(syn.issues, s.path), FailuresAt(rea.issues, s.path);
    var opens := OperationActions(s.path, OpenObject, fs.open, fr.open);
    var queries := OperationActions(s.path, QueryStreams, fs.streams, fr.streams);
    var lists := if s.kind == Directory && r.kind == Directory
                 then OperationActions(s.path, QueryDirectory, fs.directory, fr.directory) else [];
    QuietOperationIff(s.path, OpenObject, fs.open, fr.open);
    QuietOperationIff(s.path, QueryStreams, fs.streams, fr.streams);
    QuietOperationIff(s.path, QueryDirectory, fs.directory, fr.directory);
    QuietSum(queries, lists);
    if fs.open.None? && fr.open.None? {
      assert FailureActions(syn, rea, s, r) == opens + (queries + lists);
      QuietSum(opens, queries + lists);
    } else {
      assert FailureActions(syn, rea, s, r) == opens + [];
      assert opens + [] == opens;
    }
  }

  lemma {:induction false} EqualStreamsAreQuiet(s: ObjectRecord, r: ObjectRecord, visits: seq<Visit>)
    requires s.streams == r.streams && VisitsFit(|s.streams|, |r.streams|, visits)
    requires forall v :: v in visits ==> v.Both? && v.i == v.j
    ensures StreamActions(s, r, visits) == []
    decreases |visits|
  {
    if visits != [] {
      var n := |visits| - 1;
      assert visits[n] in visits;
      EqualStreamsAreQuiet(s, r, visits[..n]);
    }
  }

  lemma SelfJoinIsDiagonal(keys: seq<string>)
    ensures forall v :: v in Join(keys, keys, 0, 0) ==> v.Both? && v.i == v.j
  {
    SelfJoinPairs(keys, 0, 0);
    forall n: nat | n < |keys| ensures Join(keys, keys, 0, 0)[n] == Both(n, n) { SelfJoinPairs(keys, 0, n); }
  }

  lemma EqualListsAreQuiet(s: ObjectRecord, r: ObjectRecord)
    requires s.streams == r.streams && VisitsFit(|s.streams|, |r.streams|, StreamJoin(s, r))
    ensures StreamActions(s, r, StreamJoin(s, r)) == []
    ensures forall v :: v in StreamJoin(s, r) ==> v.Both? && v.i == v.j
  {
    SelfJoinIsDiagonal(StreamNames(s.streams));
    EqualStreamsAreQuiet(s, r, StreamJoin(s, r));
  }

  /**
   What a matched pair outside the exclusion must be like for nothing about it to be recorded
   that counts: one kind, each operation failing on neither side or alike on both, and, when the
   streams are compared, equal lists.
   */
  lemma QuietPairIff(syn: Inventory, rea: Inventory, v: Visit)
    requires InRange(syn, rea, v) && v.Both?
    requires syn.objects[v.i].path == rea.objects[v.j].path && !IsVssExcluded(syn.objects[v.i].path)
    ensures var s, r := syn.objects[v.i], rea.objects[v.j];
            var fs, fr := FailuresAt(syn.issues, s.path), FailuresAt(rea.issues, s.path);
            Quiet(VisitActions(syn, rea, v)) <==>
            && s.kind == r.kind && FailAlike(fs.open, fr.open)
            && (fs.open.None? && fr.open.None? ==>
                  FailAlike(fs.streams, fr.streams) && (s.kind == Directory ==> FailAlike(fs.directory, fr.directory)))
            && (Eligible(syn, rea, v) ==> s.streams == r.streams)
  {
    var s, r := syn.objects[v.i], rea.objects[v.j];
    PairActions(syn, rea, v.i, v.j);
    QuietSum(FailureActions(syn, rea, s, r), ContentActions(syn, rea, v.i, v.j));
    QuietFailuresIff(syn, rea, s, r);
    if s.kind != r.kind {
      DifferentKindsAccuse(syn, rea, v);
    } else if Eligible(syn, rea, v) {
      JoinFits(StreamNames(s.streams), StreamNames(r.streams));
      if s.streams == r.streams { EqualListsAreQuiet(s, r); }
      if Quiet(ContentActions(syn, rea, v.i, v.j)) { QuietStreams(s, r); }
    }
  }

  // ----- Excluded paths never accuse -----

  lemma {:induction false} ExcludedStreamsAreQuiet(s: ObjectRecord, r: ObjectRecord, visits: seq<Visit>)
    requires VisitsFit(|s.streams|, |r.streams|, visits) && IsVssExcluded(s.path) && s.path == r.path
    ensures Quiet(StreamActions(s, r, visits))
    decreases |visits|
  {
    if visits != [] {
      var n := |visits| - 1;
      ExcludedStreamsAreQuiet(s, r, visits[..n]);
      QuietSum(StreamActions(s, r, visits[..n]), StreamVisitActions(s, r, visits[n]));
    }
  }

  lemma ExcludedFailuresAreQuiet(syn: Inventory, rea: Inventory, s: ObjectRecord, r: ObjectRecord)
    requires IsVssExcluded(s.path)
    ensures Quiet(FailureActions(syn, rea, s, r))
  {
  }

  lemma ExcludedPairIsQuiet(syn: Inventory, rea: Inventory, v: Visit)
    requires InRange(syn, rea, v) && v.Both?
    requires syn.objects[v.i].path == rea.objects[v.j].path && IsVssExcluded(syn.objects[v.i].path)
    ensures Quiet(VisitActions(syn, rea, v))
  {
    var s, r := syn.objects[v.i], rea.objects[v.j];
    PairActions(syn, rea, v.i, v.j);
    QuietSum(FailureActions(syn, rea, s, r), ContentActions(syn, rea, v.i, v.j));
    ExcludedFailuresAreQuiet(syn, rea, s, r);
    JoinFits(StreamNames(s.streams), StreamNames(r.streams));
    ExcludedStreamsAreQuiet(s, r, StreamJoin(s, r));
  }

  lemma ExcludedOneSidedIsQuiet(syn: Inventory, rea: Inventory, v: Visit)
    requires InRange(syn, rea, v) && !v.Both?
    requires IsVssExcluded(if v.OnlyLeft? then syn.objects[v.i].path else rea.objects[v.j].path)
    ensures Quiet(VisitActions(syn, rea, v))
  {
  }

  // ----- The join of agreeing filesystems is quiet -----

  lemma AgreeingDirectoriesAreRead(synthetic: Volume, actual: Volume, t: Traversal.Task, u: Traversal.Task)
    requires ObjectAgrees(synthetic, actual, t, u)
    ensures t.path == u.path && !Traversal.IsIncomplete(synthetic, t) && !Traversal.IsIncomplete(actual, u)
  {
  }

  /** An object's partner; agreeing directories could be read. */
  lemma RealPartner(synthetic: Volume, actual: Volume, t: Traversal.Task) returns (u: Traversal.Task)
    requires SyntheticIsMatched(synthetic, actual) && Traversal.Reachable(synthetic, t) && !IsVssExcluded(t.path)
    ensures Traversal.Reachable(actual, u) && ObjectAgrees(synthetic, actual, t, u) && u.path == t.path
    ensures !Traversal.IsIncomplete(synthetic, t)
  {
    u :| Traversal.Reachable(actual, u) && ObjectAgrees(synthetic, actual, t, u);
    AgreeingDirectoriesAreRead(synthetic, actual, t, u);
  }

  lemma SyntheticPartner(synthetic: Volume, actual: Volume, u: Traversal.Task) returns (t: Traversal.Task)
    requires RealIsMatched(synthetic, actual) && Traversal.Reachable(actual, u) && !IsVssExcluded(u.path)
    ensures Traversal.Reachable(synthetic, t) && ObjectAgrees(synthetic, actual, t, u) && t.path == u.path
    ensures !Traversal.IsIncomplete(actual, u)
  {
    t :| Traversal.Reachable(synthetic, t) && ObjectAgrees(synthetic, actual, t, u);
    AgreeingDirectoriesAreRead(synthetic, actual, t, u);
  }

  lemma TheOtherIsMet(c: Workers.Sides, t: Traversal.Task, u: Traversal.Task)
    requires Faithful(c) && FilesystemsAgree(c.synthetic, c.actual)
    requires Traversal.Reachable(c.synthetic, t) && Traversal.Reachable(c.actual, u)
    requires t.path == u.path && !IsVssExcluded(t.path)
    ensures ObjectAgrees(c.synthetic, c.actual, t, u)
  {
    var u' := RealPartner(c.synthetic, c.actual, t);
  }

  lemma AgreeingPairIsQuiet(c: Workers.Sides, v: Visit)
    requires Faithful(c) && FilesystemsAgree(c.synthetic, c.actual)
    requires v in ObjectJoin(c.syn, c.rea) && v.Both? && InRange(c.syn, c.rea, v)
    ensures c.syn.objects[v.i].path == c.rea.objects[v.j].path && Quiet(VisitActions(c.syn, c.rea, v))
    ensures !IsVssExcluded(c.syn.objects[v.i].path) && Eligible(c.syn, c.rea, v) ==>
              && c.syn.objects[v.i].streams == c.rea.objects[v.j].streams
              && StreamsAgree(c.synthetic, c.actual, c.syn.objects[v.i].path, c.syn.objects[v.i].streams)
  {
    var t, u := MatchedVisitMeets(c, v);
    if IsVssExcluded(t.path) { ExcludedPairIsQuiet(c.syn, c.rea, v); }
    else {
      TheOtherIsMet(c, t, u);
      InventoryFailuresAreTrue(c.synthetic, c.syn, t);
      InventoryFailuresAreTrue(c.actual, c.rea, u);
      QuietPairIff(c.syn, c.rea, v);
    }
  }

  lemma ReachableIsInventoried(vol: Volume, inventory: Inventory, t: Traversal.Task)
    requires Truthful(vol, inventory) && Traversal.Reachable(vol, t)
    ensures t.path in ObjectPaths(inventory.objects)
  {
    var j :| 0 <= j < |inventory.objects| && inventory.objects[j] == Traversal.ObjectOf(vol, t);
    assert ObjectPaths(inventory.objects)[j] == t.path;
  }

  lemma AgreeingLeftIsMet(c: Workers.Sides, i: nat)
    requires Faithful(c) && FilesystemsAgree(c.synthetic, c.actual)
    requires i < |c.syn.objects| && !IsVssExcluded(c.syn.objects[i].path)
    ensures c.syn.objects[i].path in ObjectPaths(c.rea.objects)
  {
    assert c.syn.objects[i] in c.syn.objects;
    var t :| Traversal.Reachable(c.synthetic, t) && c.syn.objects[i] == Traversal.ObjectOf(c.synthetic, t);
    var u := RealPartner(c.synthetic, c.actual, t);
    ReachableIsInventoried(c.actual, c.rea, u);
  }

  lemma AgreeingRightIsMet(c: Workers.Sides, j: nat)
    requires Faithful(c) && FilesystemsAgree(c.synthetic, c.actual)
    requires j < |c.rea.objects| && !IsVssExcluded(c.rea.objects[j].path)
    ensures c.rea.objects[j].path in ObjectPaths(c.syn.objects)
  {
    assert c.rea.objects[j] in c.rea.objects;
    var u :| Traversal.Reachable(c.actual, u) && c.rea.objects[j] == Traversal.ObjectOf(c.actual, u);
    var t := SyntheticPartner(c.synthetic, c.actual, u);
    ReachableIsInventoried(c.synthetic, c.syn, t);
  }

  lemma AgreeingVisitIsQuiet(c: Workers.Sides, v: Visit)
    requires Faithful(c) && FilesystemsAgree(c.synthetic, c.actual)
    requires v in ObjectJoin(c.syn, c.rea) && InRange(c.syn, c.rea, v)
    ensures Quiet(VisitActions(c.syn, c.rea, v))
  {
    JoinIsExact(ObjectPaths(c.syn.objects), ObjectPaths(c.rea.objects));
    match v
    case Both(i, j) => AgreeingPairIsQuiet(c, v);
    case OnlyLeft(i) =>
      if IsVssExcluded(c.syn.objects[i].path) { ExcludedOneSidedIsQuiet(c.syn, c.rea, v); }
      else { AgreeingLeftIsMet(c, i); }
    case OnlyRight(j) =>
      if IsVssExcluded(c.rea.objects[j].path) { ExcludedOneSidedIsQuiet(c.syn, c.rea, v); }
      else { AgreeingRightIsMet(c, j); }
  }

  lemma {:induction false} QuietVisitsAreQuiet(syn: Inventory, rea: Inventory, visits: seq<Visit>)
    requires AllInRange(syn, rea, visits)
    requires forall n :: 0 <= n < |visits| ==> Quiet(VisitActions(syn, rea, visits[n]))
    ensures Quiet(ActionsOf(syn, rea, visits))
    decreases |visits|
  {
    if visits != [] {
      var n := |visits| - 1;
      QuietVisitsAreQuiet(syn, rea, visits[..n]);
      QuietSum(ActionsOf(syn, rea, visits[..n]), VisitActions(syn, rea, visits[n]));
    }
  }

  lemma AgreeingJoinIsQuiet(c: Workers.Sides)
    requires Faithful(c) && FilesystemsAgree(c.synthetic, c.actual)
    ensures AllInRange(c.syn, c.rea, ObjectJoin(c.syn, c.rea))
    ensures Quiet(ActionsOf(c.syn, c.rea, ObjectJoin(c.syn, c.rea)))
  {
    ObjectJoinInRange(c.syn, c.rea);
    var visits := ObjectJoin(c.syn, c.rea);
    forall n | 0 <= n < |visits| ensures Quiet(VisitActions(c.syn, c.rea, visits[n])) {
      AgreeingVisitIsQuiet(c, visits[n]);
    }
    QuietVisitsAreQuiet(c.syn, c.rea, visits);
  }

  /** Agreement includes that every directory outside the exclusion could be read. */
  lemma AgreeingSurfacesAreComplete(c: Workers.Sides)
    requires Faithful(c) && FilesystemsAgree(c.synthetic, c.actual)
    ensures SurfacesComplete(c)
  {
    if i :| 0 <= i < |c.syn.incompleteDirectories| && !IsVssExcluded(c.syn.incompleteDirectories[i]) {
      var t := IncompleteDirectory(c.synthetic, c.syn, i);
      var u := RealPartner(c.synthetic, c.actual, t);
    }
    if i :| 0 <= i < |c.rea.incompleteDirectories| && !IsVssExcluded(c.rea.incompleteDirectories[i]) {
      var u := IncompleteDirectory(c.actual, c.rea, i);
      var t := SyntheticPartner(c.synthetic, c.actual, u);
    }
  }

  lemma IncompleteDirectory(vol: Volume, inventory: Inventory, i: nat) returns (t: Traversal.Task)
    requires Truthful(vol, inventory) && i < |inventory.incompleteDirectories|
    ensures Traversal.Reachable(vol, t) && Traversal.IsIncomplete(vol, t)
    ensures t.path == inventory.incompleteDirectories[i]
  {
    var p := inventory.incompleteDirectories[i];
    assert p in inventory.incompleteDirectories;
    t :| Traversal.Reachable(vol, t) && Traversal.IsIncomplete(vol, t) && t.path == p;
  }

  // ----- So are its reads -----

  lemma EqualDataHasNoContent(c: Workers.Sides, t: ReadTask, a: seq<nat>)
    requires Workers.TaskFits(c, t)
    ensures Workers.ContentActions(c, t, a, a) == []
  {
  }

  /** The partner of `AcceptedChunkAgrees`: a chunk that agrees is accepted and accuses nobody. */
  lemma AgreeingChunkIsQuiet(c: Workers.Sides, t: ReadTask)
    requires Workers.TaskFits(c, t) && Workers.SyntheticPath(c, t) == Workers.RealPath(c, t)
    requires Workers.SyntheticName(c, t) == Workers.RealName(c, t)
    requires ChunkAgrees(c.synthetic, c.actual, Workers.SyntheticPath(c, t), Workers.SyntheticName(c, t), t.offset,
             t.length)
    ensures QuietTask(c, t)
  {
    var path, name := Workers.SyntheticPath(c, t), Workers.SyntheticName(c, t);
    if Workers.OpenOutcome(c, t).Readable? && c.synthetic.seek(path, name, t.offset).None? {
      AgreeingReadIsQuiet(c, t);
    }
  }

  lemma AgreeingReadIsQuiet(c: Workers.Sides, t: ReadTask)
    requires Workers.TaskFits(c, t) && Workers.SyntheticPath(c, t) == Workers.RealPath(c, t)
    requires Workers.SyntheticName(c, t) == Workers.RealName(c, t) && Workers.OpenOutcome(c, t).Readable?
    requires c.synthetic.seek(Workers.SyntheticPath(c, t), Workers.SyntheticName(c, t), t.offset).None?
    requires ChunkAgrees(c.synthetic, c.actual, Workers.SyntheticPath(c, t), Workers.SyntheticName(c, t), t.offset,
             t.length)
    ensures Workers.ReadOutcome(c, t).1 == Workers.Accept && Quiet(Workers.ReadOutcome(c, t).0)
  {
    var path, name := Workers.SyntheticPath(c, t), Workers.SyntheticName(c, t);
    var readS, readR := c.synthetic.read(path, name, t.offset, t.length), c.actual.read(path, name, t.offset, t.length);
    var failS, failR := Workers.ReadFailure(readS, t.length), Workers.ReadFailure(readR, t.length);
    assert failS == failR;
    if failS.None? || failS.value.error == 0 {
      assert Workers.Bytes(readS) == Workers.Bytes(readR);
      EqualDataHasNoContent(c, t, Workers.Bytes(readS));
    }
  }

  lemma {:induction false} ChunkOfStream(
    i: nat, j: nat, s: ObjectRecord, r: ObjectRecord, visits: seq<Visit>, t: ReadTask)
    requires VisitsFit(|s.streams|, |r.streams|, visits) && t in StreamTasks(i, j, s, r, visits)
    requires forall v :: v in visits ==> v.Both? && v.i == v.j
    ensures t.syntheticStream == t.realStream < |s.streams|
    ensures ReadTask(0, 0, t.syntheticStream, t.realStream, t.offset, t.length) in
            Chunks(ReadTask(0, 0, t.syntheticStream, t.realStream, 0, 0), s.streams[t.syntheticStream].length, 0)
    decreases |visits|
  {
    var n := |visits| - 1;
    var v := visits[n];
    assert v in visits;
    if t in StreamVisitTasks(i, j, s, r, v) {
      var whole := ReadTask(i, j, v.i, v.j, 0, 0);
      PlanProperties.ChunksTile(whole, s.streams[v.i].length, 0, 0);
      ChunksOfOtherObjects(whole, 0, 0, s.streams[v.i].length, 0, t);
    } else {
      ChunkOfStream(i, j, s, r, visits[..n], t);
    }
  }

  lemma AgreeingTaskIsQuiet(c: Workers.Sides, t: ReadTask)
    requires Faithful(c) && FilesystemsAgree(c.synthetic, c.actual)
    requires AllInRange(c.syn, c.rea, ObjectJoin(c.syn, c.rea)) && t in Candidates(c) && Workers.TaskFits(c, t)
    ensures QuietTask(c, t)
  {
    var visits := ObjectJoin(c.syn, c.rea);
    var n := TaskComesFromVisit(c.syn, c.rea, visits, t);
    var v := visits[n];
    VisitTaskFits(c.syn, c.rea, visits[..n], v, t);
    AgreeingPairIsQuiet(c, v);
    if IsVssExcluded(Workers.SyntheticPath(c, t)) { ExcludedTasksNeverAccuse(c, t); }
    else {
      var s, r := c.syn.objects[v.i], c.rea.objects[v.j];
      JoinFits(StreamNames(s.streams), StreamNames(r.streams));
      EqualListsAreQuiet(s, r);
      ChunkOfStream(v.i, v.j, s, r, StreamJoin(s, r), t);
      AgreeingChunkIsQuiet(c, t);
    }
  }

  lemma AgreeingPlanIsQuiet(c: Workers.Sides)
    requires Faithful(c) && FilesystemsAgree(c.synthetic, c.actual)
    requires AllInRange(c.syn, c.rea, ObjectJoin(c.syn, c.rea))
    ensures Workers.PlanFits(c, Candidates(c)) && QuietPlan(c, Candidates(c))
  {
    PlannedTasksFit(c);
    forall k | 0 <= k < |Candidates(c)| ensures QuietTask(c, Candidates(c)[k]) {
      AgreeingTaskIsQuiet(c, Candidates(c)[k]);
    }
  }

  /** Whatever the volumes, when they agree the comparison of their traversals can end in VERIFIED. */
  lemma AgreeingCanEndVerified(c: Workers.Sides)
    requires IsComparison(c) && FilesystemsAgree(c.synthetic, c.actual)
    ensures CanEndVerified(c)
  {
    ComparisonIsFaithful(c);
    AgreeingJoinIsQuiet(c);
    AgreeingPlanIsQuiet(c);
    AgreeingSurfacesAreComplete(c);
    var schedule := QuietComparisonEndsVerified(c);
    assert EndsVerified(c, true, FullPlan(Candidates(c)), 1, schedule) && TotalsTell(c, true);
  }

  /** With the data connected, VERIFIED is within reach exactly for filesystems that agree. */
  lemma VerifiedIffEqual(c: Workers.Sides)
    requires IsComparison(c) && DataConnected(c.syn, c.rea)
    ensures CanEndVerified(c) <==> FilesystemsAgree(c.synthetic, c.actual)
  {
    if CanEndVerified(c) {
      var full, plan, workerCount: nat, schedule :|
        EndsVerified(c, full, plan, workerCount, schedule) && TotalsTell(c, full);
      VerifiedMeansEqual(c, full, plan, workerCount, schedule);
    }
    if FilesystemsAgree(c.synthetic, c.actual) { AgreeingCanEndVerified(c); }
  }

  // ----- No run accuses them -----

  /** What a worker holds, cancelled or not, is what quiet tasks give. */
  ghost predicate HoldsQuiet(c: Workers.Sides, tasks: seq<ReadTask>, w: Workers.Worker)
    requires Workers.PlanFits(c, tasks)
  {
    && (w.cache.Some? ==> forall n :: 0 <= n < |tasks| && Workers.KeyOf(tasks[n]) == w.cache.value.key ==>
          Workers.OpenOutcome(c, tasks[n]) == w.cache.value.opening)
    && (w.phase.Reading? && w.phase.index < |tasks| ==> Workers.OpenOutcome(c, tasks[w.phase.index]).Readable?)
    && (w.phase.Recording? ==> Quiet(w.phase.todo))
  }

  ghost predicate RunIsQuiet(c: Workers.Sides, tasks: seq<ReadTask>, s: Workers.State)
    requires Workers.PlanFits(c, tasks)
  {
    Quiet(s.log) && forall w :: 0 <= w < |s.workers| ==> HoldsQuiet(c, tasks, s.workers[w])
  }

  lemma OpenStaysQuiet(c: Workers.Sides, tasks: seq<ReadTask>, s: Workers.State, w: nat)
    requires Workers.PlanFits(c, tasks) && QuietPlan(c, tasks) && RunIsQuiet(c, tasks, s)
    requires Workers.Enabled(s, Workers.Open(w))
    ensures RunIsQuiet(c, tasks, Workers.OpenStep(c, tasks, s, w))
  {
    var k := s.workers[w].phase.index;
    if k < |tasks| {
      assert QuietTask(c, tasks[k]);
      forall n | 0 <= n < |tasks| && Workers.KeyOf(tasks[n]) == Workers.KeyOf(tasks[k])
        ensures Workers.OpenOutcome(c, tasks[n]) == Workers.OpenOutcome(c, tasks[k])
      {
        Workers.OpeningIgnoresOffset(c, tasks[n], tasks[k]);
      }
      assert HoldsQuiet(c, tasks, Workers.OpenStep(c, tasks, s, w).workers[w]);
    }
  }

  lemma NoteStaysQuiet(c: Workers.Sides, tasks: seq<ReadTask>, s: Workers.State, w: nat)
    requires Workers.PlanFits(c, tasks) && RunIsQuiet(c, tasks, s) && Workers.Enabled(s, Workers.Note(w))
    ensures RunIsQuiet(c, tasks, Workers.NoteStep(s, w))
  {
    var todo := s.workers[w].phase.todo;
    assert HoldsQuiet(c, tasks, s.workers[w]);
    if todo != [] {
      assert todo[0] in todo;
      QuietAppend(s.log, todo[0]);
      assert todo == [todo[0]] + todo[1..];
      QuietSum([todo[0]], todo[1..]);
    }
  }

  lemma StepStaysQuiet(c: Workers.Sides, tasks: seq<ReadTask>, s: Workers.State, step: Workers.Step)
    requires Workers.PlanFits(c, tasks) && QuietPlan(c, tasks) && RunIsQuiet(c, tasks, s) && Workers.Enabled(s, step)
    ensures RunIsQuiet(c, tasks, Workers.Apply(c, tasks, s, step))
  {
    match step
    case Open(w) => OpenStaysQuiet(c, tasks, s, w);
    case Note(w) => NoteStaysQuiet(c, tasks, s, w);
    case Read(w) =>
      var k := s.workers[w].phase.index;
      assert HoldsQuiet(c, tasks, s.workers[w]);
      if k < |tasks| { assert QuietTask(c, tasks[k]); }
    case _ =>
  }

  lemma {:induction false} QuietPlanStaysQuiet(
    c: Workers.Sides, tasks: seq<ReadTask>, workerCount: nat, log: seq<Action>, schedule: seq<Workers.Step>)
    requires Workers.PlanFits(c, tasks) && QuietPlan(c, tasks) && Quiet(log)
    ensures RunIsQuiet(c, tasks, Workers.After(c, tasks, Workers.Initial(workerCount, log), schedule))
    decreases |schedule|
  {
    if schedule != [] {
      var earlier, step := schedule[..|schedule| - 1], schedule[|schedule| - 1];
      QuietPlanStaysQuiet(c, tasks, workerCount, log, earlier);
      var s := Workers.After(c, tasks, Workers.Initial(workerCount, log), earlier);
      if Workers.Enabled(s, step) { StepStaysQuiet(c, tasks, s, step); }
    }
  }

  lemma {:induction false} PickedAreCandidates(candidates: seq<ReadTask>, picks: seq<bool>, t: ReadTask)
    requires |picks| == |candidates| && t in Picked(candidates, picks)
    ensures t in candidates
    decreases |candidates|
  {
    var n := |candidates| - 1;
    if t in Picked(candidates[..n], picks[..n]) { PickedAreCandidates(candidates[..n], picks[..n], t); }
  }

  lemma PlannedAreCandidates(candidates: seq<ReadTask>, full: bool, plan: ComparisonPlan, t: ReadTask)
    requires IsPlan(candidates, full, plan) && t in plan.tasks
    ensures t in candidates
  {
    if !full {
      var picks: seq<bool> :| |picks| == |candidates| && plan.tasks == Picked(candidates, picks)
                              && (candidates != [] ==> true in picks);
      PickedAreCandidates(candidates, picks, t);
    }
  }

  /**
   There are no false alarms: whatever the draws, the workers' schedule, cancellation and
   failures, no moment of a comparison of agreeing filesystems counts a mismatch.
   */
  lemma NoFalseAlarms(
    c: Workers.Sides, full: bool, plan: ComparisonPlan, workerCount: nat, schedule: seq<Workers.Step>)
    requires IsComparison(c) && FilesystemsAgree(c.synthetic, c.actual)
    requires AllInRange(c.syn, c.rea, ObjectJoin(c.syn, c.rea)) && IsPlan(Candidates(c), full, plan)
    ensures Workers.PlanFits(c, plan.tasks)
    ensures var actions := ActionsOf(c.syn, c.rea, ObjectJoin(c.syn, c.rea));
            var s := Workers.After(c, plan.tasks, Workers.Initial(workerCount, actions), schedule);
            RecordAll(s.log).mismatchCount == 0
  {
    ComparisonIsFaithful(c);
    AgreeingJoinIsQuiet(c);
    AgreeingPlanIsQuiet(c);
    forall k | 0 <= k < |plan.tasks| ensures Workers.TaskFits(c, plan.tasks[k]) && QuietTask(c, plan.tasks[k]) {
      PlannedAreCandidates(Candidates(c), full, plan, plan.tasks[k]);
      var n :| 0 <= n < |Candidates(c)| && Candidates(c)[n] == plan.tasks[k];
      assert QuietTask(c, Candidates(c)[n]);
    }
    var actions := ActionsOf(c.syn, c.rea, ObjectJoin(c.syn, c.rea));
    QuietPlanStaysQuiet(c, plan.tasks, workerCount, actions, schedule);
    ZeroMismatchesMeansNoneReported(
      Workers.After(c, plan.tasks, Workers.Initial(workerCount, actions), schedule).log);
  }

  // ----- What each status says -----

  /**
   Every status, for every pair of volumes and every run. A mismatch is never reported of
   filesystems that agree; a comparison that finished is not reported as incomplete, and only
   such a one is not; and a full comparison that finished is VERIFIED for filesystems that agree
   and MISMATCH for those that do not.
   */
  lemma StatusTellsTruth(
    c: Workers.Sides, full: bool, plan: ComparisonPlan, workerCount: nat, schedule: seq<Workers.Step>)
    requires IsComparison(c) && DataConnected(c.syn, c.rea)
    requires AllInRange(c.syn, c.rea, ObjectJoin(c.syn, c.rea)) && Workers.PlanFits(c, plan.tasks)
    requires IsPlan(Candidates(c), full, plan)
    ensures var actions := ActionsOf(c.syn, c.rea, ObjectJoin(c.syn, c.rea));
            var s := Workers.After(c, plan.tasks, Workers.Initial(workerCount, actions), schedule);
            var finished := Workers.ReturnsTrue(plan.tasks, s) && SurfacesComplete(c);
            var status := StatusOf(RecordAll(s.log).mismatchCount, finished, plan);
            var agree := FilesystemsAgree(c.synthetic, c.actual);
            && (status in {MISMATCH, MISMATCH_INCOMPLETE} ==> !agree)
            && (status in {INCOMPLETE, MISMATCH_INCOMPLETE} <==> !finished)
            && (status == SAMPLE_VERIFIED ==> !full && plan.selectedBytes != plan.availableBytes)
            && (full && finished ==> status == if agree then VERIFIED else MISMATCH)
            && (!full && finished && agree ==>
                  status == if plan.selectedBytes == plan.availableBytes then VERIFIED else SAMPLE_VERIFIED)
  {
    var actions := ActionsOf(c.syn, c.rea, ObjectJoin(c.syn, c.rea));
    var s := Workers.After(c, plan.tasks, Workers.Initial(workerCount, actions), schedule);
    if FilesystemsAgree(c.synthetic, c.actual) { NoFalseAlarms(c, full, plan, workerCount, schedule); }
    else if full && EndsVerified(c, full, plan, workerCount, schedule) {
      VerifiedMeansEqual(c, full, plan, workerCount, schedule);
    }
    if full { assert plan.selectedBytes == plan.availableBytes; }
  }
}
