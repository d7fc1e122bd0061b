/**
 Two volumes on which VERIFIED is wrong: one file, linked as "Z" and from inside
 System Volume Information, holds a different byte on each side.
 */
module Counterexample {
  import opened Common
  import opened Filesystem
  import opened MergeJoin
  import opened Ledger
  import opened Plan
  import opened JoinEvidence
  import opened Verdict
  import opened Soundness
  import opened Completeness
  import opened Exactness
  import Traversal
  import Workers

  // ----- The volumes -----

  const INSIDE := SVI + "\\a"

  const DATA := [StreamRecord("", 1)]

  function QueryLinked(path: string): StreamQuery {
    if path == INSIDE || path == "Z" then Streams(DATA) else Streams([])
  }

  const TOP := [Entry(SVI, Directory, 5), Entry("Z", File, 7)]

  function ListLinked(path: string): Listing {
    if path == "" then Listing([TOP], None)
    else if path == SVI then Listing([[Entry("a", File, 7)]], None)
    else Listing([], None)
  }

  /** One file with two links; every byte read from anywhere is `content`. */
  function LinkedVolume(content: nat): Volume {
    Volume(_ => None, QueryLinked, ListLinked, (_, _) => None, (_, _, _) => None,
           (path: string, name: string, offset: int, length: nat) => Transferred(seq(length, _ => content)))
  }

  lemma ListedIs(content: nat, path: string, e: Entry)
    requires Traversal.Listed(LinkedVolume(content), path, e)
    ensures (path == "" && (e == TOP[0] || e == TOP[1])) || (path == SVI && e == Entry("a", File, 7))
  {
    var batches := LinkedVolume(content).list(path).batches;
    var b :| 0 <= b < |batches| && e in batches[b];
  }

  lemma SviHasNoBackslash()
    ensures '\\' !in SVI
  {
  }

  lemma LinkedNamesAreProper(content: nat)
    ensures Traversal.NamesProper(LinkedVolume(content))
  {
    var vol := LinkedVolume(content);
    SviHasNoBackslash();
    forall path, e | Traversal.Listed(vol, path, e) ensures e.name != "" && '\\' !in e.name {
      ListedIs(content, path, e);
    }
    forall path ensures Traversal.UniqueNames(vol.list(path).batches) {
      if path == "" { assert vol.list(path).batches == [TOP]; assert SVI[0] == 'S' && "Z"[0] == 'Z'; }
    }
  }

  lemma LinkedPaths()
    ensures ChildPath("", SVI) == SVI && ChildPath("", "Z") == "Z" && ChildPath(SVI, "a") == INSIDE
  {
    assert SVI + "\\" + "a" == INSIDE;
  }

  lemma LinkedIdentitiesDetermine(content: nat)
    ensures Traversal.IdentityDetermines(LinkedVolume(content))
  {
    var vol := LinkedVolume(content);
    LinkedPaths();
    forall p1, e1, p2, e2 | Traversal.Listed(vol, p1, e1) && Traversal.Listed(vol, p2, e2) &&
      e1.identity == e2.identity != 0
      ensures Traversal.SameFile(vol, ChildPath(p1, e1.name), ChildPath(p2, e2.name))
    {
      ListedIs(content, p1, e1);
      ListedIs(content, p2, e2);
    }
  }

  // ----- Their traversal by one worker -----

  /** What one idle worker has queued and committed, with no failure so far. */
  ghost predicate Shows(
    s: Traversal.State, pending: seq<Traversal.Task>, objects: seq<ObjectRecord>, cache: map<nat, nat>)
  {
    && s.workers == [Traversal.Idle] && s.active == 0 && s.pending == pending && s.objects == objects
    && s.issues == [] && s.incomplete == [] && s.streamsByIdentity == cache && !s.cancelled && !s.failed
  }

  lemma AfterStep(vol: Volume, schedule: seq<Traversal.Step>, step: Traversal.Step)
    requires Traversal.Enabled(Traversal.After(vol, 1, schedule), step)
    ensures Traversal.After(vol, 1, schedule + [step]) == Traversal.Apply(vol, Traversal.After(vol, 1, schedule), step)
  {
    assert (schedule + [step])[..|schedule|] == schedule;
  }

  /** The worker has taken the first pending task and knows what to do. */
  ghost predicate At(
    s: Traversal.State, t: Traversal.Task, k: nat, script: seq<Traversal.Effect>, pending: seq<Traversal.Task>,
    objects: seq<ObjectRecord>, cache: map<nat, nat>)
  {
    && s.workers == [Traversal.Running(t, k, script)] && s.active == 1 && s.pending == pending && s.objects == objects
    && s.issues == [] && s.incomplete == [] && s.streamsByIdentity == cache && !s.cancelled && !s.failed
  }

  lemma TakeTask(
    vol: Volume, schedule: seq<Traversal.Step>, pending: seq<Traversal.Task>, objects: seq<ObjectRecord>,
    cache: map<nat, nat>)
    returns (longer: seq<Traversal.Step>, k: nat)
    requires Shows(Traversal.After(vol, 1, schedule), pending, objects, cache) && pending != []
    ensures var s := Traversal.After(vol, 1, schedule);
            At(Traversal.After(vol, 1, longer), pending[0], k,
               Traversal.Script(vol, pending[0], Traversal.CachedStreams(s, pending[0])), pending[1..], objects, cache)
  {
    k := Traversal.After(vol, 1, schedule).taken;
    AfterStep(vol, schedule, Traversal.Take(0));
    AfterStep(vol, schedule + [Traversal.Take(0)], Traversal.Look(0));
    longer := schedule + [Traversal.Take(0)] + [Traversal.Look(0)];
  }

  function Cached(cache: map<nat, nat>, o: ObjectRecord, n: nat): map<nat, nat> {
    if o.streamsComplete && o.kind != Directory && o.identity != 0 && o.identity !in cache then cache[o.identity := n]
    else cache
  }

  lemma CommitObject(
    vol: Volume, schedule: seq<Traversal.Step>, t: Traversal.Task, k: nat, script: seq<Traversal.Effect>,
    pending: seq<Traversal.Task>, objects: seq<ObjectRecord>,
    cache: map<nat, nat>) returns (longer: seq<Traversal.Step>)
    requires At(Traversal.After(vol, 1, schedule), t, k, script, pending, objects, cache) && script != []
    requires script[0].Commit?
    ensures At(Traversal.After(vol, 1, longer), t, k, script[1..], pending, objects + [script[0].record],
            Cached(cache, script[0].record, |objects|))
  {
    AfterStep(vol, schedule, Traversal.Perform(0));
    longer := schedule + [Traversal.Perform(0)];
  }

  lemma QueueTasks(
    vol: Volume, schedule: seq<Traversal.Step>, t: Traversal.Task, k: nat, script: seq<Traversal.Effect>,
    pending: seq<Traversal.Task>, objects: seq<ObjectRecord>,
    cache: map<nat, nat>) returns (longer: seq<Traversal.Step>)
    requires At(Traversal.After(vol, 1, schedule), t, k, script, pending, objects, cache) && script != []
    requires script[0].Queue?
    ensures At(Traversal.After(vol, 1, longer), t, k, script[1..], pending + script[0].tasks, objects, cache)
  {
    AfterStep(vol, schedule, Traversal.Perform(0));
    longer := schedule + [Traversal.Perform(0)];
  }

  lemma CompleteTask(
    vol: Volume, schedule: seq<Traversal.Step>, t: Traversal.Task, k: nat,
    pending: seq<Traversal.Task>, objects: seq<ObjectRecord>,
    cache: map<nat, nat>) returns (longer: seq<Traversal.Step>)
    requires At(Traversal.After(vol, 1, schedule), t, k, [Traversal.Complete], pending, objects, cache)
    ensures Shows(Traversal.After(vol, 1, longer), pending, objects, cache)
  {
    AfterStep(vol, schedule, Traversal.Perform(0));
    longer := schedule + [Traversal.Perform(0)];
  }

  /** A directory with one batch of entries. */
  lemma DoDirectory(
    vol: Volume, schedule: seq<Traversal.Step>, t: Traversal.Task, batch: seq<Entry>, pending: seq<Traversal.Task>,
    objects: seq<ObjectRecord>, cache: map<nat, nat>) returns (longer: seq<Traversal.Step>)
    requires Shows(Traversal.After(vol, 1, schedule), [t] + pending, objects, cache) && t.kind == Directory
    requires vol.open(t.path).None? && vol.query(t.path) == Streams([]) && vol.list(t.path) == Listing([batch], None)
    ensures Shows(Traversal.After(vol, 1, longer), pending + Traversal.Children(t.path, batch), objects
            + [Traversal.WithStreams(t, [])], cache)
  {
    var k;
    longer, k := TakeTask(vol, schedule, [t] + pending, objects, cache);
    assert ([t] + pending)[1..] == pending;
    var o, tasks := Traversal.WithStreams(t, []), Traversal.Children(t.path, batch);
    assert Traversal.QueueAll(t.path, [batch]) == [Traversal.Queue(tasks)];
    var script := [Traversal.Commit(o), Traversal.Queue(tasks), Traversal.Complete];
    assert Traversal.Script(vol, t, None) == script;
    longer := CommitObject(vol, longer, t, k, script, pending, objects, cache);
    assert script[1..] == [Traversal.Queue(tasks), Traversal.Complete];
    longer := QueueTasks(vol, longer, t, k, [Traversal.Queue(tasks), Traversal.Complete], pending, objects + [o],
      cache);
    longer := CompleteTask(vol, longer, t, k, pending + tasks, objects + [o], cache);
  }

  /** A file whose streams are read, or, the second time, found in the cache. */
  lemma DoFile(
    vol: Volume, schedule: seq<Traversal.Step>, t: Traversal.Task, streams: seq<StreamRecord>,
    pending: seq<Traversal.Task>,
    objects: seq<ObjectRecord>, cache: map<nat, nat>) returns (longer: seq<Traversal.Step>)
    requires Shows(Traversal.After(vol, 1, schedule), [t] + pending, objects, cache) && t.kind != Directory
    requires vol.open(t.path).None? && vol.query(t.path) == Streams(streams)
    requires t.identity.Some? && t.identity.value in cache ==>
               cache[t.identity.value] < |objects| && objects[cache[t.identity.value]].streams == streams
    ensures var o := Traversal.WithStreams(t, streams);
            Shows(Traversal.After(vol, 1, longer), pending, objects + [o], Cached(cache, o, |objects|))
  {
    var k;
    longer, k := TakeTask(vol, schedule, [t] + pending, objects, cache);
    assert ([t] + pending)[1..] == pending;
    var o := Traversal.WithStreams(t, streams);
    var cached := Traversal.CachedStreams(Traversal.After(vol, 1, schedule), t);
    assert cached.None? || cached == Some(streams);
    assert Traversal.Script(vol, t, cached) == [Traversal.Commit(o), Traversal.Complete];
    longer := CommitObject(vol, longer, t, k, [Traversal.Commit(o), Traversal.Complete], pending, objects, cache);
    longer := CompleteTask(vol, longer, t, k, pending, objects + [o], Cached(cache, o, |objects|));
  }

  const ROOT_OBJECT := ObjectRecord("", Directory, 0, [], true)
  const SVI_OBJECT := ObjectRecord(SVI, Directory, 5, [], true)
  const INSIDE_OBJECT := ObjectRecord(INSIDE, File, 7, DATA, true)
  const Z_OBJECT := ObjectRecord("Z", File, 7, DATA, true)

  const SVI_TASK := Traversal.Task(SVI, Directory, Some(5))
  const INSIDE_TASK := Traversal.Task(INSIDE, File, Some(7))
  const Z_TASK := Traversal.Task("Z", File, Some(7))

  lemma {:induction false} AllVisible(batch: seq<Entry>, n: nat)
    requires n <= |batch| && forall i :: 0 <= i < n ==> !Traversal.IsDot(batch[i].name)
    ensures |Traversal.Visible(batch, n)| == n && forall i :: 0 <= i < n ==> Traversal.Visible(batch, n)[i] == i
  {
    if n > 0 { AllVisible(batch, n - 1); }
  }

  lemma AllChildren(path: string, batch: seq<Entry>)
    requires forall i :: 0 <= i < |batch| ==> !Traversal.IsDot(batch[i].name)
    ensures |Traversal.Children(path, batch)| == |batch|
    ensures forall i :: 0 <= i < |batch| ==> Traversal.Children(path, batch)[i] == Traversal.Child(path, batch[i])
  {
    AllVisible(batch, |batch|);
  }

  lemma NamesAreNotDots()
    ensures !Traversal.IsDot(SVI) && !Traversal.IsDot("Z") && !Traversal.IsDot("a")
  {
    assert SVI[0] == 'S';
  }

  lemma ChildrenOfTop()
    ensures Traversal.Children("", TOP) == [SVI_TASK, Z_TASK]
  {
    LinkedPaths();
    NamesAreNotDots();
    AllChildren("", TOP);
  }

  lemma ChildrenOfSvi()
    ensures Traversal.Children(SVI, [Entry("a", File, 7)]) == [INSIDE_TASK]
  {
    LinkedPaths();
    NamesAreNotDots();
    AllChildren(SVI, [Entry("a", File, 7)]);
  }

  lemma TraverseDirectories(content: nat) returns (schedule: seq<Traversal.Step>)
    ensures Shows(Traversal.After(LinkedVolume(content), 1, schedule), [Z_TASK, INSIDE_TASK], [ROOT_OBJECT, SVI_OBJECT],
            map[])
  {
    var vol := LinkedVolume(content);
    assert Traversal.Initial(1).workers == [Traversal.Idle];
    assert [Traversal.ROOT] + [] == [Traversal.ROOT];
    ChildrenOfTop();
    ChildrenOfSvi();
    schedule := DoDirectory(vol, [], Traversal.ROOT, TOP, [], [], map[]);
    assert [] + [SVI_TASK, Z_TASK] == [SVI_TASK] + [Z_TASK] && [] + [ROOT_OBJECT] == [ROOT_OBJECT];
    schedule := DoDirectory(vol, schedule, SVI_TASK, [Entry("a", File, 7)], [Z_TASK], [ROOT_OBJECT], map[]);
    assert [Z_TASK] + [INSIDE_TASK] == [Z_TASK, INSIDE_TASK] &&
      [ROOT_OBJECT] + [SVI_OBJECT] == [ROOT_OBJECT, SVI_OBJECT];
  }

  /** The second link is answered from the cache. */
  lemma TraverseLinked(content: nat) returns (schedule: seq<Traversal.Step>)
    ensures Shows(Traversal.After(LinkedVolume(content), 1, schedule), [],
            [ROOT_OBJECT, SVI_OBJECT, Z_OBJECT, INSIDE_OBJECT], map[7 := 2])
  {
    var vol := LinkedVolume(content);
    schedule := TraverseDirectories(content);
    assert [Z_TASK, INSIDE_TASK] == [Z_TASK] + [INSIDE_TASK];
    schedule := DoFile(vol, schedule, Z_TASK, DATA, [INSIDE_TASK], [ROOT_OBJECT, SVI_OBJECT], map[]);
    assert [ROOT_OBJECT, SVI_OBJECT] + [Z_OBJECT] == [ROOT_OBJECT, SVI_OBJECT, Z_OBJECT];
    assert [INSIDE_TASK] + [] == [INSIDE_TASK];
    schedule := DoFile(vol, schedule, INSIDE_TASK, DATA, [], [ROOT_OBJECT, SVI_OBJECT, Z_OBJECT], map[7 := 2]);
    assert [ROOT_OBJECT, SVI_OBJECT, Z_OBJECT] + [INSIDE_OBJECT] == [ROOT_OBJECT, SVI_OBJECT, Z_OBJECT, INSIDE_OBJECT];
  }

  const LINKED := Inventory([ROOT_OBJECT, SVI_OBJECT, INSIDE_OBJECT, Z_OBJECT], [], [])

  lemma {:induction false} LongerIsGreater(a: string, b: string)
    requires b != []
    ensures Less(a, a + b)
    decreases |a|
  {
    if a != [] {
      assert (a + b)[1..] == a[1..] + b;
      LongerIsGreater(a[1..], b);
    }
  }

  lemma LinkedIsSorted()
    ensures Less("", SVI) && Less(SVI, INSIDE) && Less(INSIDE, "Z") && Less("", INSIDE) && Less("", "Z")
    ensures Less(SVI, "Z")
  {
    LongerIsGreater(SVI, "\\a");
    assert SVI[0] == 'S' && INSIDE[0] == 'S' && "Z"[0] == 'Z';
  }

  lemma LinkedInventoryIsSorted()
    ensures forall i, j :: 0 <= i < j < |LINKED.objects| ==> !Less(LINKED.objects[j].path, LINKED.objects[i].path)
  {
    LinkedIsSorted();
    LessTrichotomy("", SVI);
    LessTrichotomy(SVI, INSIDE);
    LessTrichotomy(INSIDE, "Z");
    LessTrichotomy("", INSIDE);
    LessTrichotomy("", "Z");
    LessTrichotomy(SVI, "Z");
  }

  lemma LinkedIsTraversed(content: nat)
    ensures Traversed(LinkedVolume(content), LINKED)
  {
    var vol := LinkedVolume(content);
    var schedule := TraverseLinked(content);
    AfterStep(vol, schedule, Traversal.Take(0));
    schedule := schedule + [Traversal.Take(0)];
    SortedInventory(Traversal.After(vol, 1, schedule));
    assert Traversal.Finished(Traversal.After(vol, 1, schedule));
  }

  lemma SortedInventory(s: Traversal.State)
    requires s.objects == [ROOT_OBJECT, SVI_OBJECT, Z_OBJECT, INSIDE_OBJECT] && s.issues == [] && s.incomplete == []
    ensures InventoryOf(s, LINKED)
  {
    LinkedInventoryIsSorted();
    Exchanged(ROOT_OBJECT, SVI_OBJECT, Z_OBJECT, INSIDE_OBJECT);
  }

  lemma Exchanged(a: ObjectRecord, b: ObjectRecord, c: ObjectRecord, d: ObjectRecord)
    ensures multiset([a, b, c, d]) == multiset([a, b, d, c])
  {
  }

  const SIDES := Workers.Sides(LINKED, LINKED, LinkedVolume(0), LinkedVolume(1))

  lemma LinkedIsComparison()
    ensures IsComparison(SIDES)
  {
    LinkedNamesAreProper(0);
    LinkedNamesAreProper(1);
    LinkedIdentitiesDetermine(0);
    LinkedIdentitiesDetermine(1);
    LinkedIsTraversed(0);
    LinkedIsTraversed(1);
  }

  // ----- An inventory against itself -----

  lemma {:induction false} SelfStreamsRecordNothing(o: ObjectRecord, visits: seq<Visit>)
    requires VisitsFit(|o.streams|, |o.streams|, visits) && forall n :: 0 <= n < |visits| ==> visits[n] == Both(n, n)
    ensures StreamActions(o, o, visits) == []
    decreases |visits|
  {
    if visits != [] { SelfStreamsRecordNothing(o, visits[..|visits| - 1]); }
  }

  lemma SelfVisitRecordsNothing(inventory: Inventory, n: nat)
    requires n < |inventory.objects| && inventory.issues == []
    ensures VisitActions(inventory, inventory, Both(n, n)) == []
  {
    var o := inventory.objects[n];
    JoinFits(StreamNames(o.streams), StreamNames(o.streams));
    forall m: nat | m < |StreamJoin(o, o)| ensures StreamJoin(o, o)[m] == Both(m, m) {
      SelfJoinPairs(StreamNames(o.streams), 0, m);
    }
    SelfStreamsRecordNothing(o, StreamJoin(o, o));
  }

  lemma {:induction false} SelfRecordsNothing(inventory: Inventory, visits: seq<Visit>)
    requires AllInRange(inventory, inventory, visits) && inventory.issues == []
    requires forall n :: 0 <= n < |visits| ==> visits[n] == Both(n, n)
    ensures ActionsOf(inventory, inventory, visits) == []
    decreases |visits|
  {
    if visits != [] {
      SelfRecordsNothing(inventory, visits[..|visits| - 1]);
      assert InRange(inventory, inventory, visits[|visits| - 1]);
      SelfVisitRecordsNothing(inventory, |visits| - 1);
    }
  }

  lemma LinkedJoin()
    ensures AllInRange(LINKED, LINKED, ObjectJoin(LINKED, LINKED)) && |ObjectJoin(LINKED, LINKED)| == 4
    ensures forall n :: 0 <= n < 4 ==> ObjectJoin(LINKED, LINKED)[n] == Both(n, n)
  {
    ObjectJoinInRange(LINKED, LINKED);
    SelfJoinPairs(ObjectPaths(LINKED.objects), 0, 0);
    forall n: nat | n < 4 ensures ObjectJoin(LINKED, LINKED)[n] == Both(n, n) {
      SelfJoinPairs(ObjectPaths(LINKED.objects), 0, n);
    }
  }

  lemma LinkedPairsAreEligible(n: nat)
    requires n < 4
    ensures Eligible(LINKED, LINKED, Both(n, n))
  {
  }

  lemma SecondLinkIsNotRead()
    ensures AllInRange(LINKED, LINKED, ObjectJoin(LINKED, LINKED)) && |ObjectJoin(LINKED, LINKED)| == 4
    ensures !ComparesContents(LINKED, LINKED, ObjectJoin(LINKED, LINKED)[..3], ObjectJoin(LINKED, LINKED)[3])
  {
    LinkedJoin();
    LinkedPairsAreEligible(2);
    var earlier := ObjectJoin(LINKED, LINKED)[..3];
    assert earlier[2] == Both(2, 2);
    assert SeenPair(LINKED, LINKED, earlier, 7, 7);
  }

  // ----- The verdict -----

  lemma InsideIsExcluded()
    ensures IsVssExcluded(INSIDE) && !IsVssExcluded("Z") && !IsVssExcluded("")
  {
    assert INSIDE == SVI + "\\" + "a";
  }

  /** "Z" is the second pair with its identities, so only the excluded link is read. */
  lemma LinkedTaskIsExcluded(t: ReadTask)
    requires AllInRange(LINKED, LINKED, ObjectJoin(LINKED, LINKED)) && t in Candidates(SIDES)
    ensures Workers.TaskFits(SIDES, t) && IsVssExcluded(Workers.SyntheticPath(SIDES, t))
  {
    var n := LinkedTaskVisit(t);
    InsideIsExcluded();
  }

  lemma LinkedTaskVisit(t: ReadTask) returns (n: nat)
    requires AllInRange(LINKED, LINKED, ObjectJoin(LINKED, LINKED)) && t in Candidates(SIDES)
    ensures n == 2 && t.syntheticObject == 2 && t.realObject == 2 && t.syntheticStream < 1 && t.realStream < 1
  {
    LinkedJoin();
    SecondLinkIsNotRead();
    var visits := ObjectJoin(LINKED, LINKED);
    n := TaskComesFromVisit(LINKED, LINKED, visits, t);
    VisitTaskFits(LINKED, LINKED, visits[..n], visits[n], t);
    assert visits[n] == Both(n, n);
    OnlyFilesHaveStreams(n);
  }

  lemma OnlyFilesHaveStreams(n: nat)
    requires n < 4
    ensures |LINKED.objects[n].streams| == if n < 2 then 0 else 1
  {
  }

  lemma LinkedCanEndVerified()
    ensures CanEndVerified(SIDES)
  {
    LinkedJoin();
    SelfRecordsNothing(LINKED, ObjectJoin(LINKED, LINKED));
    forall n | 0 <= n < |Candidates(SIDES)| ensures QuietTask(SIDES, Candidates(SIDES)[n]) {
      LinkedTaskIsExcluded(Candidates(SIDES)[n]);
      ExcludedTaskIsQuiet(SIDES, Candidates(SIDES)[n]);
    }
    var schedule := QuietComparisonEndsVerified(SIDES);
    assert TotalsTell(SIDES, true);
  }

  lemma LinkedFileDiffers()
    requires Faithful(SIDES)
    ensures !FilesystemsAgree(SIDES.synthetic, SIDES.actual)
  {
    LinkedFileMatters();
    LinkedJoin();
    var chunk := FirstChunk(1, 0);
    LinkedChunkDiffers(chunk.offset, chunk.length);
    ChunkDifferenceShows(SIDES, 3, 0, chunk);
  }

  lemma LinkedFileMatters()
    ensures Matters(LINKED, LINKED, 3)
  {
    LinkedJoin();
    InsideIsExcluded();
    LinkedPairsAreEligible(3);
    assert Z_OBJECT.streams[0] == DATA[0];
    assert HasData(Z_OBJECT, Z_OBJECT);
  }

  lemma LinkedChunkDiffers(offset: int, length: nat)
    requires length > 0
    ensures !ChunkAgrees(SIDES.synthetic, SIDES.actual, "Z", "", offset, length)
  {
    assert seq(length, _ => 0)[0] != seq(length, _ => 1)[0];
  }

  /**
   The program, run on these two volumes, can end in VERIFIED although they
   differ. All that `VerifiedMeansEqual` asks for is given, except that the data
   of "Z" be compared under a path that counts.
   */
  lemma LinkedIsNotTrusted()
    requires CanEndVerified(SIDES) && IsComparison(SIDES) && !FilesystemsAgree(SIDES.synthetic, SIDES.actual)
    ensures !Trusted(SIDES)
  {
    assert SameInventories(SIDES, SIDES);
  }

  lemma VerifiedDespiteDifference()
    ensures IsComparison(SIDES) && CanEndVerified(SIDES) && !FilesystemsAgree(SIDES.synthetic, SIDES.actual)
    ensures !DataConnected(SIDES.syn, SIDES.rea)
  {
    LinkedIsComparison();
    ComparisonIsFaithful(SIDES);
    LinkedCanEndVerified();
    LinkedFileDiffers();
    LinkedIsNotTrusted();
    TrustedIffConnected(SIDES);
  }
}
