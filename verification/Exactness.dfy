/**
 Exactly when VERIFIED can be trusted: the condition on links under which it
 means equal data is also necessary, because the data of a file that no chain of
 counted comparisons reaches can be exchanged without any worker objecting.
 */
module Exactness {
  import opened Common
  import opened Filesystem
  import opened MergeJoin
  import opened Ledger
  import opened Plan
  import opened JoinEvidence
  import opened Verdict
  import opened Soundness
  import opened Completeness
  import PlanProperties
  import Traversal
  import Workers

  // ----- The file at a path -----

  ghost predicate IsLink(vol: Volume, path: string, e: Entry) {
    e.identity != 0 && exists dir :: Traversal.Listed(vol, dir, e) && ChildPath(dir, e.name) == path
  }

  ghost function NodeAt(vol: Volume, path: string): Node {
    if exists e :: IsLink(vol, path, e) then var e :| IsLink(vol, path, e); ById(e.identity) else ByPath(path)
  }

  lemma ListedOnce(vol: Volume, dir: string, e: Entry, f: Entry)
    requires Traversal.NamesProper(vol) && Traversal.Listed(vol, dir, e) && Traversal.Listed(vol, dir, f)
    requires e.name == f.name
    ensures e == f
  {
    var batches := vol.list(dir).batches;
    var b1 :| 0 <= b1 < |batches| && e in batches[b1];
    var b2 :| 0 <= b2 < |batches| && f in batches[b2];
    var i1 :| 0 <= i1 < |batches[b1]| && batches[b1][i1] == e;
    var i2 :| 0 <= i2 < |batches[b2]| && batches[b2][i2] == f;
    assert Traversal.UniqueNames(batches);
  }

  /** A path has one directory entry. */
  lemma EntryIsUnique(vol: Volume, dir1: string, e1: Entry, dir2: string, e2: Entry)
    requires Traversal.NamesProper(vol) && Traversal.Listed(vol, dir1, e1) && Traversal.Listed(vol, dir2, e2)
    requires ChildPath(dir1, e1.name) == ChildPath(dir2, e2.name)
    ensures dir1 == dir2 && e1 == e2
  {
    ChildPathInjective(dir1, e1.name, dir2, e2.name);
    ListedOnce(vol, dir1, e1, e2);
  }

  lemma NodeOfEntry(vol: Volume, dir: string, e: Entry)
    requires Traversal.NamesProper(vol) && Traversal.Listed(vol, dir, e)
    ensures NodeAt(vol, ChildPath(dir, e.name)) == if e.identity != 0 then ById(e.identity)
            else ByPath(ChildPath(dir, e.name))
  {
    var path := ChildPath(dir, e.name);
    forall f | IsLink(vol, path, f) ensures f == e {
      var dir' :| Traversal.Listed(vol, dir', f) && ChildPath(dir', f.name) == path;
      EntryIsUnique(vol, dir, e, dir', f);
    }
    if e.identity != 0 { assert IsLink(vol, path, e); }
  }

  lemma NodeOfRoot(vol: Volume)
    requires Traversal.NamesProper(vol)
    ensures NodeAt(vol, "") == ByPath("")
  {
  }

  /** The node of a reachable object is the node of its path. */
  lemma NodeOfObject(vol: Volume, inventory: Inventory, i: nat)
    requires Traversal.NamesProper(vol) && Truthful(vol, inventory) && i < |inventory.objects|
    ensures NodeAt(vol, inventory.objects[i].path) == NodeOf(inventory.objects[i])
  {
    assert inventory.objects[i] in inventory.objects;
    var t :| Traversal.Reachable(vol, t) && inventory.objects[i] == Traversal.ObjectOf(vol, t);
    var depth: nat :| Traversal.ReachedAt(vol, t, depth);
    if depth == 0 { NodeOfRoot(vol); }
    else {
      var parent, e :| Traversal.ReachedAt(vol, parent, depth - 1) && Traversal.Opens(vol, parent, e) &&
        t == Traversal.Child(parent.path, e);
      NodeOfEntry(vol, parent.path, e);
    }
  }

  // ----- Exchanging the data of some files -----

  /** The same names, kinds and streams, but some files are readable and hold nothing but one byte value. */
  ghost function Swap(vol: Volume, nodes: Node -> bool, content: nat): Volume {
    Volume(
      vol.open, vol.query, vol.list,
      (path, name) => if nodes(NodeAt(vol, path)) then None else vol.openStream(path, name),
      (path, name, offset) => if nodes(NodeAt(vol, path)) then None else vol.seek(path, name, offset),
      (path: string, name: string, offset: int, length: nat) =>
        if nodes(NodeAt(vol, path)) then Transferred(seq(length, _ => content))
        else vol.read(path, name, offset, length))
  }

  lemma {:induction false} SwapTraversesAlike(
    vol: Volume, nodes: Node -> bool, content: nat, workers: nat, schedule: seq<Traversal.Step>)
    ensures Traversal.After(Swap(vol, nodes, content), workers, schedule) == Traversal.After(vol, workers, schedule)
    decreases |schedule|
  {
    if schedule != [] { SwapTraversesAlike(vol, nodes, content, workers, schedule[..|schedule| - 1]); }
  }

  lemma SwapListsAlike(vol: Volume, nodes: Node -> bool, content: nat, path: string, e: Entry)
    ensures Traversal.Listed(Swap(vol, nodes, content), path, e) <==> Traversal.Listed(vol, path, e)
  {
  }

  lemma SwapKeepsNames(vol: Volume, nodes: Node -> bool, content: nat)
    requires Traversal.NamesProper(vol)
    ensures Traversal.NamesProper(Swap(vol, nodes, content))
  {
    var swapped := Swap(vol, nodes, content);
    forall path, e | Traversal.Listed(swapped, path, e) ensures e.name != "" && '\\' !in e.name {
      SwapListsAlike(vol, nodes, content, path, e);
    }
  }

  lemma SameNodeSwapsAlike(vol: Volume, nodes: Node -> bool, content: nat, path1: string, path2: string)
    requires NodeAt(vol, path1) == NodeAt(vol, path2) && Traversal.SameFile(vol, path1, path2)
    ensures Traversal.SameFile(Swap(vol, nodes, content), path1, path2)
  {
  }

  lemma SwapKeepsIdentities(vol: Volume, nodes: Node -> bool, content: nat)
    requires Traversal.NamesProper(vol) && Traversal.IdentityDetermines(vol)
    ensures Traversal.IdentityDetermines(Swap(vol, nodes, content))
  {
    var swapped := Swap(vol, nodes, content);
    forall p1, e1, p2, e2 |
      Traversal.Listed(swapped, p1, e1) && Traversal.Listed(swapped, p2, e2) && e1.identity == e2.identity != 0
      ensures Traversal.SameFile(swapped, ChildPath(p1, e1.name), ChildPath(p2, e2.name))
    {
      SwapListsAlike(vol, nodes, content, p1, e1);
      SwapListsAlike(vol, nodes, content, p2, e2);
      NodeOfEntry(vol, p1, e1);
      NodeOfEntry(vol, p2, e2);
      SameNodeSwapsAlike(vol, nodes, content, ChildPath(p1, e1.name), ChildPath(p2, e2.name));
    }
  }

  lemma SwapKeepsTraversal(vol: Volume, nodes: Node -> bool, content: nat, inventory: Inventory)
    requires Traversed(vol, inventory)
    ensures Traversed(Swap(vol, nodes, content), inventory)
  {
    var workers: nat, schedule :|
      Traversal.Finished(Traversal.After(vol, workers, schedule)) &&
        InventoryOf(Traversal.After(vol, workers, schedule), inventory);
    SwapTraversesAlike(vol, nodes, content, workers, schedule);
  }

  ghost function Swapped(c: Workers.Sides, left: Node -> bool, right: Node -> bool, content: nat): Workers.Sides {
    Workers.Sides(c.syn, c.rea, Swap(c.synthetic, left, content), Swap(c.actual, right, content))
  }

  lemma SwappedIsComparison(c: Workers.Sides, left: Node -> bool, right: Node -> bool, content: nat)
    requires IsComparison(c)
    ensures IsComparison(Swapped(c, left, right, content))
  {
    SwapKeepsNames(c.synthetic, left, content);
    SwapKeepsNames(c.actual, right, content);
    SwapKeepsIdentities(c.synthetic, left, content);
    SwapKeepsIdentities(c.actual, right, content);
    SwapKeepsTraversal(c.synthetic, left, content, c.syn);
    SwapKeepsTraversal(c.actual, right, content, c.rea);
  }

  // ----- No worker objects -----

  lemma {:induction false} EqualHasNoDifference(a: seq<nat>)
    ensures Workers.FirstDifference(a, a) == |a|
  {
    if a != [] { EqualHasNoDifference(a[1..]); }
  }

  /** Files exchanged on both sides compare equal. */
  lemma ExchangedTaskIsQuiet(c: Workers.Sides, left: Node -> bool, right: Node -> bool, content: nat, t: ReadTask)
    requires Workers.TaskFits(c, t)
    requires left(NodeAt(c.synthetic, Workers.SyntheticPath(c, t))) && right(NodeAt(c.actual, Workers.RealPath(c, t)))
    ensures QuietTask(Swapped(c, left, right, content), t)
  {
    EqualHasNoDifference(seq(t.length, _ => content));
  }

  /** Files left alone on both sides compare as before. */
  lemma UntouchedTaskIsQuiet(c: Workers.Sides, left: Node -> bool, right: Node -> bool, content: nat, t: ReadTask)
    requires QuietTask(c, t)
    requires !left(NodeAt(c.synthetic, Workers.SyntheticPath(c, t))) && !right(NodeAt(c.actual, Workers.RealPath(c, t)))
    ensures QuietTask(Swapped(c, left, right, content), t)
  {
  }

  lemma ExcludedTaskIsQuiet(c: Workers.Sides, t: ReadTask)
    requires Workers.TaskFits(c, t) && IsVssExcluded(Workers.SyntheticPath(c, t))
    ensures QuietTask(c, t)
  {
    ExcludedTasksNeverAccuse(c, t);
  }

  /** The exchange respects every counted comparison. */
  ghost predicate Respects(syn: Inventory, rea: Inventory, left: Node -> bool, right: Node -> bool) {
    forall x, y :: Edge(syn, rea, x, y) ==> (left(x) <==> right(y))
  }

  /** A planned task under a path that counts is an edge. */
  lemma CountedTaskIsEdge(c: Workers.Sides, t: ReadTask)
    requires AllInRange(c.syn, c.rea, ObjectJoin(c.syn, c.rea)) && t in Candidates(c)
    ensures Workers.TaskFits(c, t)
    ensures !IsVssExcluded(Workers.SyntheticPath(c, t)) ==>
              Edge(c.syn, c.rea, NodeOf(c.syn.objects[t.syntheticObject]), NodeOf(c.rea.objects[t.realObject]))
  {
    var visits := ObjectJoin(c.syn, c.rea);
    var n := TaskComesFromVisit(c.syn, c.rea, visits, t);
    VisitTaskFits(c.syn, c.rea, visits[..n], visits[n], t);
    if !IsVssExcluded(Workers.SyntheticPath(c, t)) { assert Counted(c.syn, c.rea, n); }
  }

  lemma SwappedTaskIsQuiet(
    c: Workers.Sides, log: seq<Action>, left: Node -> bool, right: Node -> bool, content: nat, t: ReadTask)
    requires IsComparison(c) && Clean(c, log) && t in Candidates(c) && Respects(c.syn, c.rea, left, right)
    ensures QuietTask(Swapped(c, left, right, content), t)
  {
    CountedTaskIsEdge(c, t);
    ComparisonIsFaithful(c);
    NodeOfObject(c.synthetic, c.syn, t.syntheticObject);
    NodeOfObject(c.actual, c.rea, t.realObject);
    if IsVssExcluded(Workers.SyntheticPath(c, t)) { ExcludedTaskIsQuiet(Swapped(c, left, right, content), t); }
    else if left(NodeAt(c.synthetic, Workers.SyntheticPath(c, t))) { ExchangedTaskIsQuiet(c, left, right, content, t); }
    else {
      CleanTaskIsQuiet(c, log, t);
      UntouchedTaskIsQuiet(c, left, right, content, t);
    }
  }

  /** Some run, full or sampled within the bound, ends in VERIFIED. */
  ghost predicate CanEndVerified(c: Workers.Sides) {
    exists full, plan, workerCount: nat, schedule ::
      EndsVerified(c, full, plan, workerCount, schedule) && TotalsTell(c, full)
  }

  /** Whatever data the exchanged files hold, the comparison still ends in VERIFIED. */
  lemma ExchangeGoesUnnoticed(c: Workers.Sides, log: seq<Action>, left: Node -> bool, right: Node -> bool, content: nat)
    requires IsComparison(c) && Clean(c, log) && SurfacesComplete(c) && Respects(c.syn, c.rea, left, right)
    ensures IsComparison(Swapped(c, left, right, content)) && CanEndVerified(Swapped(c, left, right, content))
  {
    var c' := Swapped(c, left, right, content);
    SwappedIsComparison(c, left, right, content);
    forall n | 0 <= n < |Candidates(c')| ensures QuietTask(c', Candidates(c')[n]) {
      SwappedTaskIsQuiet(c, log, left, right, content, Candidates(c)[n]);
    }
    var schedule := QuietComparisonEndsVerified(c');
    assert TotalsTell(c', true);
  }

  // ----- The files a real file is compared with -----

  ghost predicate InRight(syn: Inventory, rea: Inventory, y0: Node, y: Node) {
    y == y0 || exists x :: Connected(syn, rea, x, y0) && Edge(syn, rea, x, y)
  }

  lemma ConnectedThrough(syn: Inventory, rea: Inventory, x: Node, x': Node, y: Node, y0: Node)
    requires Edge(syn, rea, x, y) && Edge(syn, rea, x', y) && Connected(syn, rea, x', y0)
    ensures Connected(syn, rea, x, y0)
  {
    var k: nat :| Joined(syn, rea, x', y0, k);
    assert Joined(syn, rea, x, y0, k + 1);
  }

  ghost function LeftOf(syn: Inventory, rea: Inventory, y0: Node): Node -> bool { x => Connected(syn, rea, x, y0) }

  ghost function RightOf(syn: Inventory, rea: Inventory, y0: Node): Node -> bool { y => InRight(syn, rea, y0, y) }

  lemma ComponentIsRespected(syn: Inventory, rea: Inventory, y0: Node)
    ensures Respects(syn, rea, LeftOf(syn, rea, y0), RightOf(syn, rea, y0))
  {
    forall x, y | Edge(syn, rea, x, y) ensures Connected(syn, rea, x, y0) <==> InRight(syn, rea, y0, y) {
      if y == y0 { assert Joined(syn, rea, x, y0, 0); }
      else if InRight(syn, rea, y0, y) {
        var x' :| Connected(syn, rea, x', y0) && Edge(syn, rea, x', y);
        ConnectedThrough(syn, rea, x, x', y, y0);
      }
    }
  }

  // ----- The pair that is not compared -----

  /** A byte value that the synthetic data of the chunk does not begin with. */
  function OtherThan(outcome: ChunkOutcome): nat {
    if outcome.Read? && outcome.bytes != [] then (outcome.bytes[0] + 1) % 256 else 0
  }

  lemma OtherContentDiffers(outcome: ChunkOutcome, length: nat)
    requires length > 0
    ensures outcome != Read(None, seq(length, _ => OtherThan(outcome)))
  {
    var bytes := seq(length, _ => OtherThan(outcome));
    if outcome.Read? && outcome.bytes != [] { assert bytes[0] != outcome.bytes[0]; }
    else { assert bytes != []; }
  }

  lemma SwappedOutcome(
    vol: Volume, nodes: Node -> bool, content: nat, path: string, name: string, offset: int, length: nat)
    ensures OutcomeAt(Swap(vol, nodes, content), path, name, offset, length)
            == if nodes(NodeAt(vol, path)) then Read(None, seq(length, _ => content))
              else OutcomeAt(vol, path, name, offset, length)
  {
  }

  lemma FirstChunk(length: int, k: nat) returns (chunk: ReadTask)
    requires length > 0
    ensures chunk in Chunks(ReadTask(0, 0, k, k, 0, 0), length, 0) && chunk.length > 0
  {
    chunk := Chunks(ReadTask(0, 0, k, k, 0, 0), length, 0)[0];
  }

  /** A difference in one chunk of a comparable pair is a difference of the filesystems. */
  lemma ChunkDifferenceShows(c: Workers.Sides, n: nat, k: nat, chunk: ReadTask)
    requires Faithful(c) && Matters(c.syn, c.rea, n)
    requires var s := c.syn.objects[ObjectJoin(c.syn, c.rea)[n].i];
             && k < |s.streams| && chunk in Chunks(ReadTask(0, 0, k, k, 0, 0), s.streams[k].length, 0)
             && !ChunkAgrees(c.synthetic, c.actual, s.path, s.streams[k].name, chunk.offset, chunk.length)
    ensures !FilesystemsAgree(c.synthetic, c.actual)
  {
    var v := ObjectJoin(c.syn, c.rea)[n];
    var t, u := MatchedVisitMeets(c, v);
    InventoryFailuresAreTrue(c.synthetic, c.syn, t);
    InventoryFailuresAreTrue(c.actual, c.rea, u);
    KnownStreams(c.synthetic, c.syn, v.i);
    KnownStreams(c.actual, c.rea, v.j);
    forall w | Traversal.Reachable(c.actual, w) ensures !ObjectAgrees(c.synthetic, c.actual, t, w) {
      if w.path == t.path { assert w == u; }
    }
  }

  lemma StreamWithData(s: ObjectRecord, r: ObjectRecord) returns (k: nat)
    requires HasData(s, r)
    ensures k < |s.streams| && s.streams[k].length > 0
  {
    var a, b :| && 0 <= a < |s.streams| && 0 <= b < |r.streams| && s.streams[a] == r.streams[b] &&
      s.streams[a].length > 0;
    k := a;
  }

  /**
   If some pair that matters is not reached, its data can be made to differ, and the
   comparison still ends in VERIFIED.
   */
  lemma UnreachedPairGoesUnnoticed(c: Workers.Sides, log: seq<Action>, n: nat) returns (c': Workers.Sides)
    requires IsComparison(c) && Clean(c, log) && SurfacesComplete(c) && Matters(c.syn, c.rea, n)
    requires !Connected(c.syn, c.rea, NodeOf(c.syn.objects[ObjectJoin(c.syn, c.rea)[n].i]),
             NodeOf(c.rea.objects[ObjectJoin(c.syn, c.rea)[n].j]))
    ensures c'.syn == c.syn && c'.rea == c.rea && IsComparison(c') && CanEndVerified(c')
    ensures !FilesystemsAgree(c'.synthetic, c'.actual)
  {
    var v := ObjectJoin(c.syn, c.rea)[n];
    var s, r := c.syn.objects[v.i], c.rea.objects[v.j];
    var left, right := LeftOf(c.syn, c.rea, NodeOf(r)), RightOf(c.syn, c.rea, NodeOf(r));
    ComponentIsRespected(c.syn, c.rea, NodeOf(r));
    var k := StreamWithData(s, r);
    var chunk := FirstChunk(s.streams[k].length, k);
    var outcome := OutcomeAt(c.synthetic, s.path, s.streams[k].name, chunk.offset, chunk.length);
    c' := Swapped(c, left, right, OtherThan(outcome));
    ExchangeGoesUnnoticed(c, log, left, right, OtherThan(outcome));
    ComparisonIsFaithful(c);
    ComparisonIsFaithful(c');
    JoinPairsEqualKeys(ObjectPaths(c.syn.objects), ObjectPaths(c.rea.objects), 0, 0, v);
    NodeOfObject(c.synthetic, c.syn, v.i);
    NodeOfObject(c.actual, c.rea, v.j);
    SwappedOutcome(c.synthetic, left, OtherThan(outcome), s.path, s.streams[k].name, chunk.offset, chunk.length);
    SwappedOutcome(c.actual, right, OtherThan(outcome), s.path, s.streams[k].name, chunk.offset, chunk.length);
    OtherContentDiffers(outcome, chunk.length);
    ChunkDifferenceShows(c', n, k, chunk);
  }

  /** The same names, streams and failures, with whatever data. */
  ghost predicate SameInventories(c: Workers.Sides, c': Workers.Sides) { c'.syn == c.syn && c'.rea == c.rea }

  /** Whatever data the files behind the inventories hold, VERIFIED means equal filesystems. */
  ghost predicate Trusted(c: Workers.Sides) {
    forall c' :: SameInventories(c, c') && IsComparison(c') && CanEndVerified(c') ==>
      FilesystemsAgree(c'.synthetic, c'.actual)
  }

  lemma ConnectedIsTrusted(c: Workers.Sides)
    requires DataConnected(c.syn, c.rea)
    ensures Trusted(c)
  {
    forall c' | SameInventories(c, c') && IsComparison(c') && CanEndVerified(c')
      ensures FilesystemsAgree(c'.synthetic, c'.actual)
    {
      var full, plan, workerCount: nat, schedule :| EndsVerified(c', full, plan, workerCount, schedule) &&
        TotalsTell(c', full);
      VerifiedMeansEqual(c', full, plan, workerCount, schedule);
    }
  }

  lemma UnconnectedIsNotTrusted(c: Workers.Sides)
    requires IsComparison(c) && CanEndVerified(c) && !DataConnected(c.syn, c.rea)
    ensures !Trusted(c)
  {
    var log := CleanLog(c);
    var n := UnreachedPair(c.syn, c.rea);
    var c' := UnreachedPairGoesUnnoticed(c, log, n);
    assert SameInventories(c, c');
  }

  lemma CleanLog(c: Workers.Sides) returns (log: seq<Action>)
    requires CanEndVerified(c)
    ensures Clean(c, log) && SurfacesComplete(c)
  {
    var full, plan, workerCount: nat, schedule :| EndsVerified(c, full, plan, workerCount, schedule) &&
      TotalsTell(c, full);
    log := VerifiedIsClean(c, full, plan, workerCount, schedule);
  }

  lemma UnreachedPair(syn: Inventory, rea: Inventory) returns (n: nat)
    requires !DataConnected(syn, rea)
    ensures Matters(syn, rea, n)
    ensures var v := ObjectJoin(syn, rea)[n]; !Connected(syn, rea, NodeOf(syn.objects[v.i]), NodeOf(rea.objects[v.j]))
  {
    n :| Matters(syn, rea, n) &&
      !Connected(syn, rea, NodeOf(syn.objects[ObjectJoin(syn, rea)[n].i]),
        NodeOf(rea.objects[ObjectJoin(syn, rea)[n].j]));
  }

  /**
   Exactly when VERIFIED can be trusted. For inventories that some comparison
   brought to VERIFIED: whatever data the files behind them hold, VERIFIED means
   equal filesystems, if and only if every pair that matters has its data
   compared, under its own path or through a chain of counted links.
   */
  lemma TrustedIffConnected(c: Workers.Sides)
    requires IsComparison(c) && CanEndVerified(c)
    ensures Trusted(c) <==> DataConnected(c.syn, c.rea)
  {
    if DataConnected(c.syn, c.rea) { ConnectedIsTrusted(c); } else { UnconnectedIsNotTrusted(c); }
  }
}
