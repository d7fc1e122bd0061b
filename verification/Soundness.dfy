/**
 VERIFIED is sound: the pieces of the comparison put together, from two volumes
 to the printed status.
 */
module Soundness {
  import opened Common
  import opened Filesystem
  import opened MergeJoin
  import opened Ledger
  import opened Plan
  import opened JoinEvidence
  import opened Verdict
  import PlanProperties
  import Traversal
  import Workers

  // ----- A clean comparison, inventory by inventory -----

  /** Everything the comparison recorded or planned has been carried out without a mismatch. */
  ghost predicate Clean(c: Workers.Sides, log: seq<Action>) {
    && AllInRange(c.syn, c.rea, ObjectJoin(c.syn, c.rea))
    && Quiet(log) && Quiet(ActionsOf(c.syn, c.rea, ObjectJoin(c.syn, c.rea)))
    && (forall t :: t in TasksOf(c.syn, c.rea, ObjectJoin(c.syn, c.rea)) ==>
          Workers.TaskFits(c, t) && Workers.Evidence(c, t, log, [], Workers.Accept))
  }

  ghost predicate SurfacesComplete(c: Workers.Sides) {
    && !ComparisonSurfaceIncomplete(c.syn.incompleteDirectories)
    && !ComparisonSurfaceIncomplete(c.rea.incompleteDirectories)
  }

  /** Visit `n` is read, and under a path whose differences count. */
  ghost predicate Counted(syn: Inventory, rea: Inventory, n: nat) {
    var visits := ObjectJoin(syn, rea);
    && AllInRange(syn, rea, visits) && n < |visits| && ComparesContents(syn, rea, visits[..n], visits[n])
    && !IsVssExcluded(syn.objects[visits[n].i].path)
  }

  lemma {:induction false} ChunksOfOtherObjects(
    task: ReadTask, i: nat, j: nat, length: int, offset: int, chunk: ReadTask)
    requires chunk in Chunks(task, length, offset)
    ensures chunk.(syntheticObject := i, realObject := j) in
            Chunks(task.(syntheticObject := i, realObject := j), length, offset)
    decreases length - offset
  {
    var size := if length - offset < CHUNK then length - offset else CHUNK;
    if chunk != task.(offset := offset, length := size) {
      ChunksOfOtherObjects(task, i, j, length, offset + size, chunk);
    }
  }

  /** The task that reads a chunk of a counted visit. */
  lemma CountedChunkIsPlanned(syn: Inventory, rea: Inventory, n: nat, k: nat, chunk: ReadTask) returns (task: ReadTask)
    requires Counted(syn, rea, n)
    requires var v := ObjectJoin(syn, rea)[n];
             var s, r := syn.objects[v.i], rea.objects[v.j];
             && s.streams == r.streams && k < |s.streams| && Both(k, k) in StreamJoin(s, r)
             && chunk in Chunks(ReadTask(0, 0, k, k, 0, 0), s.streams[k].length, 0)
    ensures var v := ObjectJoin(syn, rea)[n];
            && task in TasksOf(syn, rea, ObjectJoin(syn, rea))
            && task == ReadTask(v.i, v.j, k, k, chunk.offset, chunk.length)
  {
    var visits := ObjectJoin(syn, rea);
    var v := visits[n];
    var s, r := syn.objects[v.i], rea.objects[v.j];
    JoinFits(StreamNames(s.streams), StreamNames(r.streams));
    task := chunk.(syntheticObject := v.i, realObject := v.j);
    ChunksOfOtherObjects(ReadTask(0, 0, k, k, 0, 0), v.i, v.j, s.streams[k].length, 0, chunk);
    PlanProperties.ChunksTile(ReadTask(0, 0, k, k, 0, 0), s.streams[k].length, 0, 0);
    assert [Both(k, k)][0] == Both(k, k);
    StreamTaskIncluded(v.i, v.j, s, r, StreamJoin(s, r), Both(k, k), task);
    TaskIncluded(syn, rea, visits, n, task);
  }

  lemma CountedChunkAgrees(c: Workers.Sides, log: seq<Action>, n: nat, k: nat, chunk: ReadTask)
    requires Clean(c, log) && Counted(c.syn, c.rea, n)
    requires var streams := c.syn.objects[ObjectJoin(c.syn, c.rea)[n].i].streams;
             k < |streams| && chunk in Chunks(ReadTask(0, 0, k, k, 0, 0), streams[k].length, 0)
    ensures var s := c.syn.objects[ObjectJoin(c.syn, c.rea)[n].i];
            ChunkAgrees(c.synthetic, c.actual, s.path, s.streams[k].name, chunk.offset, chunk.length)
  {
    var v := ObjectJoin(c.syn, c.rea)[n];
    JoinPairsEqualKeys(ObjectPaths(c.syn.objects), ObjectPaths(c.rea.objects), 0, 0, v);
    QuietVisit(c.syn, c.rea, ObjectJoin(c.syn, c.rea), v);
    QuietPair(c.syn, c.rea, v);
    var task := CountedChunkIsPlanned(c.syn, c.rea, n, k, chunk);
    AcceptedChunkAgrees(c, task, log);
  }

  /**
   What a clean comparison says of any two inventories and any two volumes,
   truthful or not: a matched pair outside the exclusion has one kind, the same
   failures and the same streams, and the chunks of a counted visit agree at
   its path.
   */
  lemma CleanPairAgrees(c: Workers.Sides, log: seq<Action>, n: nat)
    requires Clean(c, log) && n < |ObjectJoin(c.syn, c.rea)| && ObjectJoin(c.syn, c.rea)[n].Both?
    requires !IsVssExcluded(c.syn.objects[ObjectJoin(c.syn, c.rea)[n].i].path)
    ensures var v := ObjectJoin(c.syn, c.rea)[n];
            var s, r := c.syn.objects[v.i], c.rea.objects[v.j];
            var fs, fr := FailuresAt(c.syn.issues, s.path), FailuresAt(c.rea.issues, s.path);
            && s.path == r.path && s.kind == r.kind
            && ((fs.open.None? && fr.open.None?) || FailuresMatch(fs.open, fr.open))
            && (fs.open.None? && fr.open.None? ==>
                  (fs.streams.None? && fr.streams.None?) || FailuresMatch(fs.streams, fr.streams))
            && (Eligible(c.syn, c.rea, v) ==> s.streams == r.streams)
            && (Counted(c.syn, c.rea, n) ==> StreamsAgree(c.synthetic, c.actual, s.path, s.streams))
  {
    var v := ObjectJoin(c.syn, c.rea)[n];
    JoinPairsEqualKeys(ObjectPaths(c.syn.objects), ObjectPaths(c.rea.objects), 0, 0, v);
    QuietVisit(c.syn, c.rea, ObjectJoin(c.syn, c.rea), v);
    QuietPair(c.syn, c.rea, v);
    var streams := c.syn.objects[v.i].streams;
    if Counted(c.syn, c.rea, n) {
      forall k, chunk | 0 <= k < |streams| && chunk in Chunks(ReadTask(0, 0, k, k, 0, 0), streams[k].length, 0)
        ensures ChunkAgrees(c.synthetic, c.actual, c.syn.objects[v.i].path, streams[k].name, chunk.offset, chunk.length)
      {
        CountedChunkAgrees(c, log, n, k, chunk);
      }
    }
  }

  // ----- Which data is compared, directly or through other links -----

  /** A file of one side: known by its identity, or, without one, by its path. */
  datatype Node = ById(id: nat) | ByPath(path: string)

  function NodeOf(o: ObjectRecord): Node { if o.identity != 0 then ById(o.identity) else ByPath(o.path) }

  /** Some counted visit compares these two files. */
  ghost predicate Edge(syn: Inventory, rea: Inventory, x: Node, y: Node) {
    exists n: nat ::
      && Counted(syn, rea, n)
      && NodeOf(syn.objects[ObjectJoin(syn, rea)[n].i]) == x && NodeOf(rea.objects[ObjectJoin(syn, rea)[n].j]) == y
  }

  /** A chain of at most `2 * k + 1` comparisons leads from the synthetic file to the real one. */
  ghost predicate Joined(syn: Inventory, rea: Inventory, x: Node, y: Node, k: nat)
    decreases k
  {
    || Edge(syn, rea, x, y)
    || (k > 0 && exists x', y' :: Edge(syn, rea, x, y') && Edge(syn, rea, x', y') && Joined(syn, rea, x', y, k - 1))
  }

  ghost predicate Connected(syn: Inventory, rea: Inventory, x: Node, y: Node) {
    exists k: nat :: Joined(syn, rea, x, y, k)
  }

  /** Both objects have a stream of one name and one positive length. */
  predicate HasData(s: ObjectRecord, r: ObjectRecord) {
    exists a, b ::
      0 <= a < |s.streams| && 0 <= b < |r.streams| && s.streams[a] == r.streams[b] && s.streams[a].length > 0
  }

  /** The pair is outside the exclusion and its streams are comparable and not empty. */
  ghost predicate Matters(syn: Inventory, rea: Inventory, n: nat) {
    var visits := ObjectJoin(syn, rea);
    && AllInRange(syn, rea, visits) && n < |visits| && Eligible(syn, rea, visits[n])
    && !IsVssExcluded(syn.objects[visits[n].i].path) && HasData(syn.objects[visits[n].i], rea.objects[visits[n].j])
  }

  /** Every pair that matters has its data compared, under its own path or through a chain of counted links. */
  ghost predicate DataConnected(syn: Inventory, rea: Inventory) {
    forall n: nat :: Matters(syn, rea, n) ==>
      Connected(syn, rea, NodeOf(syn.objects[ObjectJoin(syn, rea)[n].i]),
        NodeOf(rea.objects[ObjectJoin(syn, rea)[n].j]))
  }

  /** A pair whose first link is outside the exclusion is compared; in particular one without identities. */
  lemma FirstLinkOutsideConnects(syn: Inventory, rea: Inventory, n: nat, f: nat)
    requires AllInRange(syn, rea, ObjectJoin(syn, rea)) && n < |ObjectJoin(syn, rea)|
    requires Eligible(syn, rea, ObjectJoin(syn, rea)[n])
    requires var visits := ObjectJoin(syn, rea);
             || (IsFirstLink(syn, rea, visits, n, f) && Identified(syn, rea, visits[n])
                 && !IsVssExcluded(syn.objects[visits[f].i].path))
             || (f == n && !Identified(syn, rea, visits[n]) && !IsVssExcluded(syn.objects[visits[n].i].path))
    ensures var v := ObjectJoin(syn, rea)[n];
            Connected(syn, rea, NodeOf(syn.objects[v.i]), NodeOf(rea.objects[v.j]))
  {
    var visits := ObjectJoin(syn, rea);
    if Identified(syn, rea, visits[n]) { FirstLinkIsCompared(syn, rea, visits, n, f); }
    assert Counted(syn, rea, f);
    assert Joined(syn, rea, NodeOf(syn.objects[visits[n].i]), NodeOf(rea.objects[visits[n].j]), 0);
  }

  /** In particular when no first link of a pair that matters is excluded. */
  lemma FirstLinksOutsideConnect(syn: Inventory, rea: Inventory)
    requires AllInRange(syn, rea, ObjectJoin(syn, rea))
    requires forall n: nat, f: nat :: Matters(syn, rea, n) && IsFirstLink(syn, rea, ObjectJoin(syn, rea), n, f) ==>
               !IsVssExcluded(syn.objects[ObjectJoin(syn, rea)[f].i].path)
    ensures DataConnected(syn, rea)
  {
    var visits := ObjectJoin(syn, rea);
    forall n: nat | Matters(syn, rea, n)
      ensures Connected(syn, rea, NodeOf(syn.objects[visits[n].i]), NodeOf(rea.objects[visits[n].j]))
    {
      if Identified(syn, rea, visits[n]) {
        var f := FirstLinkExists(syn, rea, visits, n, n);
        FirstLinkOutsideConnects(syn, rea, n, f);
      } else {
        FirstLinkOutsideConnects(syn, rea, n, n);
      }
    }
  }

  // ----- From inventories to volumes -----

  /** Both inventories are truthful, and links to one file answer alike. */
  ghost predicate Faithful(c: Workers.Sides) {
    && WellFormed(c.syn) && WellFormed(c.rea)
    && Truthful(c.synthetic, c.syn) && Truthful(c.actual, c.rea)
    && Traversal.IdentityDetermines(c.synthetic) && Traversal.IdentityDetermines(c.actual)
  }

  lemma ReachableIsListed(vol: Volume, t: Traversal.Task) returns (path: string, e: Entry)
    requires Traversal.Reachable(vol, t) && t.identity.Some?
    ensures Traversal.Listed(vol, path, e) && t == Traversal.Child(path, e)
  {
    var depth: nat :| Traversal.ReachedAt(vol, t, depth);
    var parent, f :| Traversal.ReachedAt(vol, parent, depth - 1) && Traversal.Opens(vol, parent, f) &&
      t == Traversal.Child(parent.path, f);
    path, e := parent.path, f;
  }

  /** Objects with one node are one file. */
  lemma SameNodeIsSameFile(vol: Volume, inventory: Inventory, i: nat, j: nat)
    requires Truthful(vol, inventory) && Traversal.IdentityDetermines(vol) && i < |inventory.objects|
    requires j < |inventory.objects|
    requires NodeOf(inventory.objects[i]) == NodeOf(inventory.objects[j])
    ensures Traversal.SameFile(vol, inventory.objects[i].path, inventory.objects[j].path)
  {
    if inventory.objects[i].identity != 0 {
      assert inventory.objects[i] in inventory.objects && inventory.objects[j] in inventory.objects;
      var t :| Traversal.Reachable(vol, t) && inventory.objects[i] == Traversal.ObjectOf(vol, t);
      var u :| Traversal.Reachable(vol, u) && inventory.objects[j] == Traversal.ObjectOf(vol, u);
      var p, e := ReachableIsListed(vol, t);
      var q, f := ReachableIsListed(vol, u);
    }
  }

  /** Two paths, one on each side, show the same streams and the same outcome for every chunk. */
  ghost predicate SameData(c: Workers.Sides, ps: string, pr: string) {
    && c.synthetic.query(ps).Streams? && c.synthetic.query(ps) == c.actual.query(pr)
    && var streams := c.synthetic.query(ps).records;
       forall k, chunk :: 0 <= k < |streams| && chunk in Chunks(ReadTask(0, 0, k, k, 0, 0), streams[k].length, 0) ==>
         OutcomeAt(c.synthetic, ps, streams[k].name, chunk.offset, chunk.length)
         == OutcomeAt(c.actual, pr, streams[k].name, chunk.offset, chunk.length)
  }

  lemma SameFileMoves(c: Workers.Sides, ps: string, pr: string, ps': string, pr': string)
    requires SameData(c, ps, pr) && Traversal.SameFile(c.synthetic, ps, ps') && Traversal.SameFile(c.actual, pr, pr')
    ensures SameData(c, ps', pr')
  {
  }

  /** Real data equal to `pr`'s and synthetic data equal to `ps'`'s close the chain. */
  lemma SameDataChains(c: Workers.Sides, ps: string, pr: string, ps': string, pr': string)
    requires SameData(c, ps, pr') && SameData(c, ps', pr') && SameData(c, ps', pr)
    ensures SameData(c, ps, pr)
  {
  }

  lemma KnownStreams(vol: Volume, inventory: Inventory, i: nat)
    requires Truthful(vol, inventory) && i < |inventory.objects| && inventory.objects[i].streamsComplete
    ensures vol.query(inventory.objects[i].path) == Streams(inventory.objects[i].streams)
  {
    assert inventory.objects[i] in inventory.objects;
    var t :| Traversal.Reachable(vol, t) && inventory.objects[i] == Traversal.ObjectOf(vol, t);
  }

  lemma CountedVisitHasSameData(c: Workers.Sides, log: seq<Action>, n: nat)
    requires Clean(c, log) && Counted(c.syn, c.rea, n) && Truthful(c.synthetic, c.syn) && Truthful(c.actual, c.rea)
    ensures var v := ObjectJoin(c.syn, c.rea)[n]; SameData(c, c.syn.objects[v.i].path, c.rea.objects[v.j].path)
  {
    var v := ObjectJoin(c.syn, c.rea)[n];
    CleanPairAgrees(c, log, n);
    KnownStreams(c.synthetic, c.syn, v.i);
    KnownStreams(c.actual, c.rea, v.j);
  }

  /** Two objects with the nodes of an edge. */
  lemma EdgeHasSameData(c: Workers.Sides, log: seq<Action>, i: nat, j: nat)
    requires Clean(c, log) && Faithful(c) && i < |c.syn.objects| && j < |c.rea.objects|
    requires Edge(c.syn, c.rea, NodeOf(c.syn.objects[i]), NodeOf(c.rea.objects[j]))
    ensures SameData(c, c.syn.objects[i].path, c.rea.objects[j].path)
  {
    var x, y := NodeOf(c.syn.objects[i]), NodeOf(c.rea.objects[j]);
    var n: nat :|
      && Counted(c.syn, c.rea, n)
      && NodeOf(c.syn.objects[ObjectJoin(c.syn, c.rea)[n].i]) == x
      && NodeOf(c.rea.objects[ObjectJoin(c.syn, c.rea)[n].j]) == y;
    var v := ObjectJoin(c.syn, c.rea)[n];
    CountedVisitHasSameData(c, log, n);
    SameNodeIsSameFile(c.synthetic, c.syn, v.i, i);
    SameNodeIsSameFile(c.actual, c.rea, v.j, j);
    SameFileMoves(c, c.syn.objects[v.i].path, c.rea.objects[v.j].path, c.syn.objects[i].path, c.rea.objects[j].path);
  }

  lemma EdgeEnds(syn: Inventory, rea: Inventory, x: Node, y: Node) returns (i: nat, j: nat)
    requires Edge(syn, rea, x, y)
    ensures i < |syn.objects| && j < |rea.objects| && NodeOf(syn.objects[i]) == x && NodeOf(rea.objects[j]) == y
  {
    var n: nat :|
      && Counted(syn, rea, n)
      && NodeOf(syn.objects[ObjectJoin(syn, rea)[n].i]) == x && NodeOf(rea.objects[ObjectJoin(syn, rea)[n].j]) == y;
    i, j := ObjectJoin(syn, rea)[n].i, ObjectJoin(syn, rea)[n].j;
  }

  /** A chain of clean comparisons is as good as one. */
  lemma {:induction false} JoinedHasSameData(c: Workers.Sides, log: seq<Action>, i: nat, j: nat, k: nat)
    requires Clean(c, log) && Faithful(c) && i < |c.syn.objects| && j < |c.rea.objects|
    requires Joined(c.syn, c.rea, NodeOf(c.syn.objects[i]), NodeOf(c.rea.objects[j]), k)
    ensures SameData(c, c.syn.objects[i].path, c.rea.objects[j].path)
    decreases k
  {
    var x, y := NodeOf(c.syn.objects[i]), NodeOf(c.rea.objects[j]);
    if Edge(c.syn, c.rea, x, y) { EdgeHasSameData(c, log, i, j); }
    else {
      var x', y' :| Edge(c.syn, c.rea, x, y') && Edge(c.syn, c.rea, x', y') && Joined(c.syn, c.rea, x', y, k - 1);
      var i', j' := EdgeEnds(c.syn, c.rea, x', y');
      EdgeHasSameData(c, log, i, j');
      EdgeHasSameData(c, log, i', j');
      JoinedHasSameData(c, log, i', j, k - 1);
      SameDataChains(c, c.syn.objects[i].path, c.rea.objects[j].path, c.syn.objects[i'].path, c.rea.objects[j'].path);
    }
  }

  // ----- Agreement of the volumes -----

  /** The visit is the meeting of two reachable objects. */
  ghost predicate Meets(c: Workers.Sides, v: Visit, t: Traversal.Task, u: Traversal.Task) {
    && InRange(c.syn, c.rea, v) && v.Both?
    && Traversal.Reachable(c.synthetic, t) && c.syn.objects[v.i] == Traversal.ObjectOf(c.synthetic, t)
    && Traversal.Reachable(c.actual, u) && c.rea.objects[v.j] == Traversal.ObjectOf(c.actual, u)
    && t.path == u.path
  }

  lemma MatchedVisitMeets(c: Workers.Sides, v: Visit) returns (t: Traversal.Task, u: Traversal.Task)
    requires Faithful(c) && v in ObjectJoin(c.syn, c.rea) && v.Both?
    ensures Meets(c, v, t, u)
  {
    JoinPairsEqualKeys(ObjectPaths(c.syn.objects), ObjectPaths(c.rea.objects), 0, 0, v);
    assert c.syn.objects[v.i] in c.syn.objects && c.rea.objects[v.j] in c.rea.objects;
    t :| Traversal.Reachable(c.synthetic, t) && c.syn.objects[v.i] == Traversal.ObjectOf(c.synthetic, t);
    u :| Traversal.Reachable(c.actual, u) && c.rea.objects[v.j] == Traversal.ObjectOf(c.actual, u);
  }

  /** Without data there is nothing to disagree about. */
  lemma NoDataAgrees(synthetic: Volume, actual: Volume, s: ObjectRecord, r: ObjectRecord)
    requires s.streams == r.streams && !HasData(s, r)
    ensures StreamsAgree(synthetic, actual, s.path, s.streams)
  {
    forall k: nat | k < |s.streams| ensures Chunks(ReadTask(0, 0, k, k, 0, 0), s.streams[k].length, 0) == [] {
      assert s.streams[k] == r.streams[k];
    }
  }

  /** A matched pair whose streams are comparable has equal data, compared under its own path or elsewhere. */
  lemma EligiblePairAgrees(c: Workers.Sides, log: seq<Action>, n: nat)
    requires Faithful(c) && Clean(c, log) && DataConnected(c.syn, c.rea) && n < |ObjectJoin(c.syn, c.rea)|
    requires Eligible(c.syn, c.rea, ObjectJoin(c.syn, c.rea)[n])
    requires !IsVssExcluded(c.syn.objects[ObjectJoin(c.syn, c.rea)[n].i].path)
    ensures var s := c.syn.objects[ObjectJoin(c.syn, c.rea)[n].i];
            StreamsAgree(c.synthetic, c.actual, s.path, s.streams)
  {
    var v := ObjectJoin(c.syn, c.rea)[n];
    var s, r := c.syn.objects[v.i], c.rea.objects[v.j];
    CleanPairAgrees(c, log, n);
    if HasData(s, r) {
      assert Matters(c.syn, c.rea, n);
      var k: nat :| Joined(c.syn, c.rea, NodeOf(s), NodeOf(r), k);
      JoinedHasSameData(c, log, v.i, v.j, k);
      KnownStreams(c.synthetic, c.syn, v.i);
    } else {
      NoDataAgrees(c.synthetic, c.actual, s, r);
    }
  }

  /** Outside the exclusion a complete surface has no unreadable directory. */
  lemma NothingUnread(vol: Volume, inventory: Inventory, t: Traversal.Task)
    requires Truthful(vol, inventory) && Traversal.Reachable(vol, t) && !IsVssExcluded(t.path)
    requires !ComparisonSurfaceIncomplete(inventory.incompleteDirectories)
    ensures !Traversal.IsIncomplete(vol, t)
  {
    assert t.path !in inventory.incompleteDirectories;
  }

  lemma MetObjectsAgree(c: Workers.Sides, log: seq<Action>, n: nat, t: Traversal.Task, u: Traversal.Task)
    requires Faithful(c) && Clean(c, log) && DataConnected(c.syn, c.rea) && SurfacesComplete(c)
    requires n < |ObjectJoin(c.syn, c.rea)| && Meets(c, ObjectJoin(c.syn, c.rea)[n], t, u) && !IsVssExcluded(t.path)
    ensures ObjectAgrees(c.synthetic, c.actual, t, u)
  {
    CleanPairAgrees(c, log, n);
    InventoryFailuresAreTrue(c.synthetic, c.syn, t);
    InventoryFailuresAreTrue(c.actual, c.rea, u);
    NothingUnread(c.synthetic, c.syn, t);
    NothingUnread(c.actual, c.rea, u);
    if Eligible(c.syn, c.rea, ObjectJoin(c.syn, c.rea)[n]) { EligiblePairAgrees(c, log, n); }
  }

  lemma LoudLeft(c: Workers.Sides, v: Visit)
    requires InRange(c.syn, c.rea, v) && v.OnlyLeft? && SurfacesComplete(c) && !IsVssExcluded(c.syn.objects[v.i].path)
    ensures !Quiet(VisitActions(c.syn, c.rea, v))
  {
    var path := c.syn.objects[v.i].path;
    if IsBelowIncompleteDirectory(c.rea.incompleteDirectories, path) {
      SuppressedIsExcluded(c.rea.incompleteDirectories, path);
    }
    assert VisitActions(c.syn, c.rea, v)[0] in VisitActions(c.syn, c.rea, v);
  }

  lemma LoudRight(c: Workers.Sides, v: Visit)
    requires InRange(c.syn, c.rea, v) && v.OnlyRight? && SurfacesComplete(c) && !IsVssExcluded(c.rea.objects[v.j].path)
    ensures !Quiet(VisitActions(c.syn, c.rea, v))
  {
    var path := c.rea.objects[v.j].path;
    if IsBelowIncompleteDirectory(c.syn.incompleteDirectories, path) {
      SuppressedIsExcluded(c.syn.incompleteDirectories, path);
    }
    assert VisitActions(c.syn, c.rea, v)[0] in VisitActions(c.syn, c.rea, v);
  }

  lemma SyntheticObjectIsMet(c: Workers.Sides, t: Traversal.Task) returns (n: nat, u: Traversal.Task)
    requires Faithful(c) && SurfacesComplete(c) && AllInRange(c.syn, c.rea, ObjectJoin(c.syn, c.rea))
    requires Quiet(ActionsOf(c.syn, c.rea, ObjectJoin(c.syn, c.rea))) && Traversal.Reachable(c.synthetic, t)
    requires !IsVssExcluded(t.path)
    ensures n < |ObjectJoin(c.syn, c.rea)| && Meets(c, ObjectJoin(c.syn, c.rea)[n], t, u)
  {
    var visits := ObjectJoin(c.syn, c.rea);
    var left, right := ObjectPaths(c.syn.objects), ObjectPaths(c.rea.objects);
    var i :| 0 <= i < |c.syn.objects| && c.syn.objects[i] == Traversal.ObjectOf(c.synthetic, t);
    JoinVisitsOnce(left, right, 0, 0, i, 0);
    n := TouchedLeftIsVisited(visits, i);
    var v := visits[n];
    QuietVisit(c.syn, c.rea, visits, v);
    if v.OnlyLeft? { LoudLeft(c, v); }
    var t';
    t', u := MatchedVisitMeets(c, v);
  }

  lemma RealObjectIsMet(c: Workers.Sides, u: Traversal.Task) returns (n: nat, t: Traversal.Task)
    requires Faithful(c) && SurfacesComplete(c) && AllInRange(c.syn, c.rea, ObjectJoin(c.syn, c.rea))
    requires Quiet(ActionsOf(c.syn, c.rea, ObjectJoin(c.syn, c.rea))) && Traversal.Reachable(c.actual, u)
    requires !IsVssExcluded(u.path)
    ensures n < |ObjectJoin(c.syn, c.rea)| && Meets(c, ObjectJoin(c.syn, c.rea)[n], t, u)
  {
    var visits := ObjectJoin(c.syn, c.rea);
    var left, right := ObjectPaths(c.syn.objects), ObjectPaths(c.rea.objects);
    var j :| 0 <= j < |c.rea.objects| && c.rea.objects[j] == Traversal.ObjectOf(c.actual, u);
    JoinVisitsOnce(left, right, 0, 0, 0, j);
    n := TouchedRightIsVisited(visits, j);
    var v := visits[n];
    QuietVisit(c.syn, c.rea, visits, v);
    if v.OnlyRight? { LoudRight(c, v); }
    var u';
    t, u' := MatchedVisitMeets(c, v);
  }

  /** A clean comparison of truthful inventories means that the volumes agree. */
  lemma CleanMeansAgreement(c: Workers.Sides, log: seq<Action>)
    requires Faithful(c) && Clean(c, log) && DataConnected(c.syn, c.rea) && SurfacesComplete(c)
    ensures FilesystemsAgree(c.synthetic, c.actual)
  {
    forall t | Traversal.Reachable(c.synthetic, t) && !IsVssExcluded(t.path)
      ensures exists u :: Traversal.Reachable(c.actual, u) && ObjectAgrees(c.synthetic, c.actual, t, u)
    {
      var n, u := SyntheticObjectIsMet(c, t);
      MetObjectsAgree(c, log, n, t, u);
    }
    forall u | Traversal.Reachable(c.actual, u) && !IsVssExcluded(u.path)
      ensures exists t :: Traversal.Reachable(c.synthetic, t) && ObjectAgrees(c.synthetic, c.actual, t, u)
    {
      var n, t := RealObjectIsMet(c, u);
      MetObjectsAgree(c, log, n, t, u);
    }
  }

  // ----- The verdict -----

  ghost function Candidates(c: Workers.Sides): seq<ReadTask>
    requires AllInRange(c.syn, c.rea, ObjectJoin(c.syn, c.rea))
  {
    TasksOf(c.syn, c.rea, ObjectJoin(c.syn, c.rea))
  }

  /** The workers' run, with the join's actions already in the ledger, ended in VERIFIED. */
  ghost predicate EndsVerified(
    c: Workers.Sides, full: bool, plan: ComparisonPlan, workerCount: nat, schedule: seq<Workers.Step>)
  {
    && AllInRange(c.syn, c.rea, ObjectJoin(c.syn, c.rea)) && Workers.PlanFits(c, plan.tasks)
    && IsPlan(Candidates(c), full, plan)
    && var actions := ActionsOf(c.syn, c.rea, ObjectJoin(c.syn, c.rea));
       var s := Workers.After(c, plan.tasks, Workers.Initial(workerCount, actions), schedule);
       StatusOf(RecordAll(s.log).mismatchCount, Workers.ReturnsTrue(plan.tasks, s) && SurfacesComplete(c), plan) ==
         VERIFIED
  }

  /** Byte totals are compared modulo 2^64: a sample may hide that many bytes, a full comparison leaves none out. */
  ghost predicate TotalsTell(c: Workers.Sides, full: bool)
    requires AllInRange(c.syn, c.rea, ObjectJoin(c.syn, c.rea))
  {
    full || TotalLength(Candidates(c)) < WORD
  }

  lemma VerifiedIsClean(
    c: Workers.Sides, full: bool, plan: ComparisonPlan, workerCount: nat, schedule: seq<Workers.Step>)
    returns (log: seq<Action>)
    requires EndsVerified(c, full, plan, workerCount, schedule) && TotalsTell(c, full)
    ensures Clean(c, log) && SurfacesComplete(c)
  {
    var visits := ObjectJoin(c.syn, c.rea);
    var actions := ActionsOf(c.syn, c.rea, visits);
    var candidates := TasksOf(c.syn, c.rea, visits);
    log := Workers.After(c, plan.tasks, Workers.Initial(workerCount, actions), schedule).log;
    PlannedTasksFit(c);
    if !full { PlanProperties.EqualTotalsMeanEverythingSelected(candidates, full, plan); }
    assert plan.tasks == candidates;
    Workers.UndisturbedRunIsSound(c, plan.tasks, workerCount, actions, schedule);
    Workers.TrueMeansEveryTaskAccepted(c, plan.tasks, workerCount, actions, schedule);
    ZeroMismatchesMeansNoneReported(log);
    forall a | a in actions ensures !Accuses(a) { assert a in log; }
    forall t | t in candidates ensures Workers.TaskFits(c, t) && Workers.Evidence(c, t, log, [], Workers.Accept) {
      var k :| 0 <= k < |candidates| && candidates[k] == t;
    }
  }

  /** Some finished traversal of the volume, undisturbed, yields the inventory. */
  ghost predicate Traversed(vol: Volume, inventory: Inventory) {
    exists workers: nat, schedule ::
      Traversal.Finished(Traversal.After(vol, workers, schedule)) &&
        InventoryOf(Traversal.After(vol, workers, schedule), inventory)
  }

  /** What the program compares: volumes as filesystems are, and the inventories its traversals make of them. */
  ghost predicate IsComparison(c: Workers.Sides) {
    && Traversal.NamesProper(c.synthetic) && Traversal.IdentityDetermines(c.synthetic) && Traversed(c.synthetic, c.syn)
    && Traversal.NamesProper(c.actual) && Traversal.IdentityDetermines(c.actual) && Traversed(c.actual, c.rea)
  }

  lemma ComparisonIsFaithful(c: Workers.Sides)
    requires IsComparison(c)
    ensures Faithful(c)
  {
    var m: nat, a :| Traversal.Finished(Traversal.After(c.synthetic, m, a)) &&
      InventoryOf(Traversal.After(c.synthetic, m, a), c.syn);
    var n: nat, b :| Traversal.Finished(Traversal.After(c.actual, n, b)) &&
      InventoryOf(Traversal.After(c.actual, n, b), c.rea);
    TraversalYieldsTruth(c.synthetic, m, a, c.syn);
    TraversalYieldsTruth(c.actual, n, b, c.rea);
  }

  /**
   VERIFIED means equal filesystems. For every pair of volumes, every
   interleaving of both traversals, every outcome of the random draws and every
   interleaving of the comparison workers: each object outside System Volume
   Information exists on both sides with one kind, and either fails alike or
   has the same streams, lengths and bytes.
   */
  lemma VerifiedMeansEqual(
    c: Workers.Sides, full: bool, plan: ComparisonPlan, workerCount: nat, schedule: seq<Workers.Step>)
    requires IsComparison(c) && EndsVerified(c, full, plan, workerCount, schedule)
    requires DataConnected(c.syn, c.rea) && TotalsTell(c, full)
    ensures FilesystemsAgree(c.synthetic, c.actual)
  {
    ComparisonIsFaithful(c);
    var log := VerifiedIsClean(c, full, plan, workerCount, schedule);
    CleanMeansAgreement(c, log);
  }
}
