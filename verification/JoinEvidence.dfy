/** What a comparison without an accusing record says about the inventories, and through which link a file is read. */
module JoinEvidence {
  import opened Common
  import opened Filesystem
  import opened MergeJoin
  import opened Ledger
  import opened Plan
  import PlanProperties
  import Workers

  // ----- What the join records and plans for one visit is part of the whole -----

  lemma {:induction false} ActionIncluded(syn: Inventory, rea: Inventory, visits: seq<Visit>, v: Visit, a: Action)
    requires AllInRange(syn, rea, visits) && v in visits && InRange(syn, rea, v) && a in VisitActions(syn, rea, v)
    ensures a in ActionsOf(syn, rea, visits)
    decreases |visits|
  {
    if v != visits[|visits| - 1] { ActionIncluded(syn, rea, visits[..|visits| - 1], v, a); }
  }

  lemma {:induction false} TaskIncluded(syn: Inventory, rea: Inventory, visits: seq<Visit>, n: nat, t: ReadTask)
    requires AllInRange(syn, rea, visits) && n < |visits| && t in VisitTasks(syn, rea, visits[..n], visits[n])
    ensures t in TasksOf(syn, rea, visits)
    decreases |visits|
  {
    if n < |visits| - 1 {
      assert visits[..|visits| - 1][..n] == visits[..n];
      TaskIncluded(syn, rea, visits[..|visits| - 1], n, t);
    }
  }

  /** And nothing else is: a planned task belongs to the visit that planned it. */
  lemma {:induction false} TaskComesFromVisit(
    syn: Inventory, rea: Inventory, visits: seq<Visit>, t: ReadTask) returns (n: nat)
    requires AllInRange(syn, rea, visits) && t in TasksOf(syn, rea, visits)
    ensures n < |visits| && t in VisitTasks(syn, rea, visits[..n], visits[n])
    decreases |visits|
  {
    n := |visits| - 1;
    if t !in VisitTasks(syn, rea, visits[..n], visits[n]) {
      var m := TaskComesFromVisit(syn, rea, visits[..n], t);
      assert visits[..n][..m] == visits[..m];
      n := m;
    }
  }

  lemma {:induction false} StreamActionIncluded(
    s: ObjectRecord, r: ObjectRecord, visits: seq<Visit>, v: Visit, a: Action)
    requires VisitsFit(|s.streams|, |r.streams|, visits) && v in visits
    requires VisitsFit(|s.streams|, |r.streams|, [v]) && a in StreamVisitActions(s, r, [v][0])
    ensures a in StreamActions(s, r, visits)
    decreases |visits|
  {
    if v != visits[|visits| - 1] { StreamActionIncluded(s, r, visits[..|visits| - 1], v, a); }
  }

  lemma {:induction false} StreamActionComesFromVisit(
    s: ObjectRecord, r: ObjectRecord, visits: seq<Visit>, a: Action) returns (n: nat)
    requires VisitsFit(|s.streams|, |r.streams|, visits) && a in StreamActions(s, r, visits)
    ensures n < |visits| && a in StreamVisitActions(s, r, visits[n])
    decreases |visits|
  {
    n := |visits| - 1;
    if a !in StreamVisitActions(s, r, visits[n]) { n := StreamActionComesFromVisit(s, r, visits[..n], a); }
  }

  function LengthReport(s: ObjectRecord, r: ObjectRecord, i: nat, j: nat): Action
    requires i < |s.streams| && j < |r.streams|
  {
    RecordMismatch(Plain(StreamLength, s.path, s.streams[i].name)
                   .(syntheticLength := s.streams[i].length, realLength := r.streams[j].length))
  }

  lemma MissingFromRealIff(s: ObjectRecord, r: ObjectRecord, name: string)
    requires StrictlySorted(StreamNames(s.streams)) && StrictlySorted(StreamNames(r.streams))
    requires VisitsFit(|s.streams|, |r.streams|, StreamJoin(s, r))
    ensures RecordMismatch(Plain(StreamMissingFromReal, s.path, name)) in StreamActions(s, r, StreamJoin(s, r)) <==>
            name in StreamNames(s.streams) && name !in StreamNames(r.streams)
  {
    var left, right, visits := StreamNames(s.streams), StreamNames(r.streams), StreamJoin(s, r);
    var report := RecordMismatch(Plain(StreamMissingFromReal, s.path, name));
    JoinIsExact(left, right);
    if report in StreamActions(s, r, visits) {
      var n := StreamActionComesFromVisit(s, r, visits, report);
      assert visits[n] in visits;
    }
    if name in left && name !in right {
      var i: nat :| i < |left| && left[i] == name;
      StreamActionIncluded(s, r, visits, OnlyLeft(i), report);
    }
  }

  lemma MissingFromSyntheticIff(s: ObjectRecord, r: ObjectRecord, name: string)
    requires StrictlySorted(StreamNames(s.streams)) && StrictlySorted(StreamNames(r.streams))
    requires VisitsFit(|s.streams|, |r.streams|, StreamJoin(s, r))
    ensures var report := RecordMismatch(Plain(StreamMissingFromSynthetic, r.path, name));
            report in StreamActions(s, r, StreamJoin(s, r)) <==>
            name in StreamNames(r.streams) && name !in StreamNames(s.streams)
  {
    var left, right, visits := StreamNames(s.streams), StreamNames(r.streams), StreamJoin(s, r);
    var report := RecordMismatch(Plain(StreamMissingFromSynthetic, r.path, name));
    JoinIsExact(left, right);
    if report in StreamActions(s, r, visits) {
      var n := StreamActionComesFromVisit(s, r, visits, report);
      assert visits[n] in visits;
    }
    if name in right && name !in left {
      var j: nat :| j < |right| && right[j] == name;
      StreamActionIncluded(s, r, visits, OnlyRight(j), report);
    }
  }

  /** A stream is reported missing from a side exactly when that side lacks its name. */
  lemma MissingStreamIff(s: ObjectRecord, r: ObjectRecord, name: string)
    requires StrictlySorted(StreamNames(s.streams)) && StrictlySorted(StreamNames(r.streams))
    requires VisitsFit(|s.streams|, |r.streams|, StreamJoin(s, r))
    ensures var actions := StreamActions(s, r, StreamJoin(s, r));
            && (RecordMismatch(Plain(StreamMissingFromReal, s.path, name)) in actions <==>
                  name in StreamNames(s.streams) && name !in StreamNames(r.streams))
            && (RecordMismatch(Plain(StreamMissingFromSynthetic, r.path, name)) in actions <==>
                  name in StreamNames(r.streams) && name !in StreamNames(s.streams))
  {
    MissingFromRealIff(s, r, name);
    MissingFromSyntheticIff(s, r, name);
  }

  /** Two streams of one name are reported, with both lengths, exactly when the lengths differ. */
  lemma LengthReportIff(s: ObjectRecord, r: ObjectRecord, i: nat, j: nat)
    requires StrictlySorted(StreamNames(s.streams)) && StrictlySorted(StreamNames(r.streams))
    requires VisitsFit(|s.streams|, |r.streams|, StreamJoin(s, r))
    requires i < |s.streams| && j < |r.streams| && s.streams[i].name == r.streams[j].name
    ensures LengthReport(s, r, i, j) in StreamActions(s, r, StreamJoin(s, r)) <==>
            s.streams[i].length != r.streams[j].length
  {
    var left, right, visits := StreamNames(s.streams), StreamNames(r.streams), StreamJoin(s, r);
    JoinIsExact(left, right);
    assert left[i] == right[j];
    if s.streams[i].length != r.streams[j].length {
      StreamActionIncluded(s, r, visits, Both(i, j), LengthReport(s, r, i, j));
    }
    if LengthReport(s, r, i, j) in StreamActions(s, r, visits) {
      var n := StreamActionComesFromVisit(s, r, visits, LengthReport(s, r, i, j));
      assert visits[n] in visits;
    }
  }

  lemma {:induction false} StreamTaskIncluded(
    i: nat, j: nat, s: ObjectRecord, r: ObjectRecord, visits: seq<Visit>, v: Visit, t: ReadTask)
    requires VisitsFit(|s.streams|, |r.streams|, visits) && v in visits
    requires VisitsFit(|s.streams|, |r.streams|, [v]) && t in StreamVisitTasks(i, j, s, r, [v][0])
    ensures t in StreamTasks(i, j, s, r, visits)
    decreases |visits|
  {
    if v != visits[|visits| - 1] { StreamTaskIncluded(i, j, s, r, visits[..|visits| - 1], v, t); }
  }

  /** A planned task reads its own objects, at most one chunk, within streams that exist. */
  lemma {:induction false} StreamTaskFits(
    i: nat, j: nat, s: ObjectRecord, r: ObjectRecord, visits: seq<Visit>, t: ReadTask)
    requires VisitsFit(|s.streams|, |r.streams|, visits) && t in StreamTasks(i, j, s, r, visits)
    ensures t.syntheticObject == i && t.realObject == j && t.length > 0
    ensures t.syntheticStream < |s.streams| && t.realStream < |r.streams|
    ensures Both(t.syntheticStream, t.realStream) in visits
    decreases |visits|
  {
    var v := visits[|visits| - 1];
    if t in StreamVisitTasks(i, j, s, r, v) {
      PlanProperties.ChunksTile(ReadTask(i, j, v.i, v.j, 0, 0), s.streams[v.i].length, 0, 0);
    } else {
      StreamTaskFits(i, j, s, r, visits[..|visits| - 1], t);
    }
  }

  lemma VisitTaskFits(syn: Inventory, rea: Inventory, earlier: seq<Visit>, v: Visit, t: ReadTask)
    requires AllInRange(syn, rea, earlier) && InRange(syn, rea, v) && t in VisitTasks(syn, rea, earlier, v)
    ensures ComparesContents(syn, rea, earlier, v)
    ensures t.syntheticObject == v.i && t.realObject == v.j && t.length > 0
    ensures t.syntheticStream < |syn.objects[v.i].streams| && t.realStream < |rea.objects[v.j].streams|
    ensures syn.objects[v.i].streams[t.syntheticStream].name == rea.objects[v.j].streams[t.realStream].name
  {
    var s, r := syn.objects[v.i], rea.objects[v.j];
    JoinFits(StreamNames(s.streams), StreamNames(r.streams));
    StreamTaskFits(v.i, v.j, s, r, StreamJoin(s, r), t);
    JoinPairsEqualKeys(StreamNames(s.streams), StreamNames(r.streams), 0, 0, Both(t.syntheticStream, t.realStream));
  }

  /** The workers never index outside the inventories, and every task has bytes to read. */
  lemma PlannedTasksFit(c: Workers.Sides)
    ensures AllInRange(c.syn, c.rea, ObjectJoin(c.syn, c.rea))
    ensures var tasks := TasksOf(c.syn, c.rea, ObjectJoin(c.syn, c.rea));
            Workers.PlanFits(c, tasks) && PlanProperties.AllPositive(tasks)
  {
    ObjectJoinInRange(c.syn, c.rea);
    var visits := ObjectJoin(c.syn, c.rea);
    var tasks := TasksOf(c.syn, c.rea, visits);
    forall k | 0 <= k < |tasks| ensures Workers.TaskFits(c, tasks[k]) && tasks[k].length > 0 {
      var n := TaskComesFromVisit(c.syn, c.rea, visits, tasks[k]);
      VisitTaskFits(c.syn, c.rea, visits[..n], visits[n], tasks[k]);
    }
  }

  // ----- A quiet comparison -----

  ghost predicate Quiet(actions: seq<Action>) { forall a :: a in actions ==> !Accuses(a) }

  lemma QuietVisit(syn: Inventory, rea: Inventory, visits: seq<Visit>, v: Visit)
    requires AllInRange(syn, rea, visits) && v in visits && Quiet(ActionsOf(syn, rea, visits))
    ensures InRange(syn, rea, v) && Quiet(VisitActions(syn, rea, v))
  {
    forall a | a in VisitActions(syn, rea, v) ensures !Accuses(a) { ActionIncluded(syn, rea, visits, v, a); }
  }

  /** No stream report about an accountable object means both objects have the same streams. */
  lemma QuietStreams(s: ObjectRecord, r: ObjectRecord)
    requires s.path == r.path && !IsVssExcluded(s.path)
    requires VisitsFit(|s.streams|, |r.streams|, StreamJoin(s, r)) && Quiet(StreamActions(s, r, StreamJoin(s, r)))
    ensures s.streams == r.streams
    ensures forall k :: 0 <= k < |s.streams| ==> Both(k, k) in StreamJoin(s, r)
  {
    var visits := StreamJoin(s, r);
    forall v | v in visits
      ensures v.Both?
      ensures v.Both? ==> v.i < |s.streams| && v.j < |r.streams| && s.streams[v.i].length == r.streams[v.j].length
    {
      assert VisitsFit(|s.streams|, |r.streams|, [v]);
      var acts := StreamVisitActions(s, r, [v][0]);
      if acts != [] { StreamActionIncluded(s, r, visits, v, acts[0]); }
    }
    var left, right := StreamNames(s.streams), StreamNames(r.streams);
    AllPairedMeansEqual(left, right, 0, 0, 0);
    assert left[0..] == left && right[0..] == right;
    forall k | 0 <= k < |s.streams| ensures Both(k, k) in visits && s.streams[k] == r.streams[k] {
      AllPairedMeansEqual(left, right, 0, 0, k);
      assert Both(k, k) in visits;
      assert left[k] == right[k];
    }
  }

  lemma QuietOperation(path: string, operation: Operation, a: Option<Failure>, b: Option<Failure>)
    requires !IsVssExcluded(path) && Quiet(OperationActions(path, operation, a, b))
    ensures (a.None? && b.None?) || FailuresMatch(a, b)
  {
    var acts := OperationActions(path, operation, a, b);
    if acts != [] { assert acts[0] in acts; }
  }

  lemma QuietConcat(a: seq<Action>, b: seq<Action>)
    requires Quiet(a + b)
    ensures Quiet(a) && Quiet(b)
  {
    forall x | x in a ensures !Accuses(x) { assert x in a + b; }
    forall x | x in b ensures !Accuses(x) { assert x in a + b; }
  }

  lemma QuietFailures(syn: Inventory, rea: Inventory, s: ObjectRecord, r: ObjectRecord)
    requires !IsVssExcluded(s.path) && Quiet(FailureActions(syn, rea, s, r))
    ensures var fs, fr := FailuresAt(syn.issues, s.path), FailuresAt(rea.issues, s.path);
            && ((fs.open.None? && fr.open.None?) || FailuresMatch(fs.open, fr.open))
            && (fs.open.None? && fr.open.None? ==>
                  (fs.streams.None? && fr.streams.None?) || FailuresMatch(fs.streams, fr.streams))
  {
    var fs, fr := FailuresAt(syn.issues, s.path), FailuresAt(rea.issues, s.path);
    var opens := OperationActions(s.path, OpenObject, fs.open, fr.open);
    var queries := OperationActions(s.path, QueryStreams, fs.streams, fr.streams);
    var lists := if s.kind == Directory && r.kind == Directory
                 then OperationActions(s.path, QueryDirectory, fs.directory, fr.directory) else [];
    if fs.open.None? && fr.open.None? {
      assert FailureActions(syn, rea, s, r) == opens + (queries + lists);
      QuietConcat(opens, queries + lists);
      QuietConcat(queries, lists);
      QuietOperation(s.path, QueryStreams, fs.streams, fr.streams);
    } else {
      QuietConcat(opens, []);
      assert opens + [] == opens;
      QuietOperation(s.path, OpenObject, fs.open, fr.open);
    }
  }

  lemma DifferentKindsAccuse(syn: Inventory, rea: Inventory, v: Visit)
    requires InRange(syn, rea, v) && v.Both? && !IsVssExcluded(syn.objects[v.i].path)
    requires syn.objects[v.i].kind != rea.objects[v.j].kind
    ensures !Quiet(VisitActions(syn, rea, v))
  {
    var s, r := syn.objects[v.i], rea.objects[v.j];
    var m := RecordMismatch(Plain(ObjectType, s.path, "").(syntheticKind := s.kind, realKind := r.kind));
    assert VisitActions(syn, rea, v) == FailureActions(syn, rea, s, r) + [m];
    assert m in VisitActions(syn, rea, v);
  }

  /**
   A quiet matched pair outside the exclusion has one kind, equal failures, and equal
   streams when they are compared.
   */
  lemma QuietPair(syn: Inventory, rea: Inventory, v: Visit)
    requires InRange(syn, rea, v) && v.Both? && Quiet(VisitActions(syn, rea, v))
    requires syn.objects[v.i].path == rea.objects[v.j].path && !IsVssExcluded(syn.objects[v.i].path)
    ensures var s, r := syn.objects[v.i], rea.objects[v.j];
            && s.kind == r.kind
            && var fs, fr := FailuresAt(syn.issues, s.path), FailuresAt(rea.issues, s.path);
               && ((fs.open.None? && fr.open.None?) || FailuresMatch(fs.open, fr.open))
               && (fs.open.None? && fr.open.None? ==>
                     (fs.streams.None? && fr.streams.None?) || FailuresMatch(fs.streams, fr.streams))
               && (Eligible(syn, rea, v) ==> s.streams == r.streams && forall k :: 0 <= k < |s.streams| ==>
                     Both(k, k) in StreamJoin(s, r))
  {
    var s, r := syn.objects[v.i], rea.objects[v.j];
    var failures := FailureActions(syn, rea, s, r);
    if s.kind != r.kind {
      DifferentKindsAccuse(syn, rea, v);
    } else if Eligible(syn, rea, v) {
      JoinFits(StreamNames(s.streams), StreamNames(r.streams));
      var streams := StreamActions(s, r, StreamJoin(s, r));
      assert VisitActions(syn, rea, v) == failures + streams;
      QuietConcat(failures, streams);
      QuietStreams(s, r);
    } else {
      assert VisitActions(syn, rea, v) == failures + [];
      QuietConcat(failures, []);
    }
    QuietFailures(syn, rea, s, r);
  }

  // ----- Hard links are read through the first pair that shows them -----

  ghost predicate SameIdentities(syn: Inventory, rea: Inventory, v: Visit, w: Visit)
    requires InRange(syn, rea, v) && InRange(syn, rea, w) && v.Both? && w.Both?
  {
    syn.objects[v.i].identity == syn.objects[w.i].identity && rea.objects[v.j].identity == rea.objects[w.j].identity
  }

  ghost predicate Identified(syn: Inventory, rea: Inventory, v: Visit)
    requires InRange(syn, rea, v) && v.Both?
  {
    syn.objects[v.i].identity != 0 && rea.objects[v.j].identity != 0
  }

  /** The first eligible visit with the pair of identities of `visits[n]`. */
  ghost predicate IsFirstLink(syn: Inventory, rea: Inventory, visits: seq<Visit>, n: nat, f: nat)
    requires AllInRange(syn, rea, visits) && n < |visits| && Eligible(syn, rea, visits[n])
  {
    && f <= n && Eligible(syn, rea, visits[f]) && SameIdentities(syn, rea, visits[n], visits[f])
    && forall m :: 0 <= m < f && Eligible(syn, rea, visits[m]) ==> !SameIdentities(syn, rea, visits[n], visits[m])
  }

  lemma {:induction false} FirstLinkExists(
    syn: Inventory, rea: Inventory, visits: seq<Visit>, n: nat, f: nat) returns (first: nat)
    requires AllInRange(syn, rea, visits) && f <= n < |visits| && Eligible(syn, rea, visits[n])
    requires Eligible(syn, rea, visits[f]) && SameIdentities(syn, rea, visits[n], visits[f])
    ensures IsFirstLink(syn, rea, visits, n, first)
    decreases f
  {
    if m :| 0 <= m < f && Eligible(syn, rea, visits[m]) && SameIdentities(syn, rea, visits[n], visits[m]) {
      first := FirstLinkExists(syn, rea, visits, n, m);
    } else {
      first := f;
    }
  }

  lemma FirstLinkIsCompared(syn: Inventory, rea: Inventory, visits: seq<Visit>, n: nat, f: nat)
    requires AllInRange(syn, rea, visits) && n < |visits| && Eligible(syn, rea, visits[n])
    requires IsFirstLink(syn, rea, visits, n, f)
    ensures ComparesContents(syn, rea, visits[..f], visits[f])
  {
    var a, b := syn.objects[visits[f].i].identity, rea.objects[visits[f].j].identity;
    assert !SeenPair(syn, rea, visits[..f], a, b);
  }

  lemma EarlierLinkIsSeen(syn: Inventory, rea: Inventory, visits: seq<Visit>, f: nat, m: nat)
    requires AllInRange(syn, rea, visits) && f < |visits| && m < |visits| && Eligible(syn, rea, visits[f])
    ensures f < m ==>
            SeenPair(syn, rea, visits[..m], syn.objects[visits[f].i].identity, rea.objects[visits[f].j].identity)
  {
    if f < m { assert visits[..m][f] == visits[f]; }
  }

  /** Of an identified pair, every planned task is a task of its first link. */
  lemma OnlyFirstLinkIsRead(syn: Inventory, rea: Inventory, visits: seq<Visit>, n: nat, f: nat, t: ReadTask)
    requires AllInRange(syn, rea, visits) && n < |visits| && Eligible(syn, rea, visits[n])
    requires IsFirstLink(syn, rea, visits, n, f)
    requires Identified(syn, rea, visits[n]) && t in TasksOf(syn, rea, visits)
    requires t.syntheticObject < |syn.objects| && t.realObject < |rea.objects|
    requires syn.objects[t.syntheticObject].identity == syn.objects[visits[n].i].identity
    requires rea.objects[t.realObject].identity == rea.objects[visits[n].j].identity
    ensures t.syntheticObject == visits[f].i && t.realObject == visits[f].j
  {
    var m := TaskComesFromVisit(syn, rea, visits, t);
    VisitTaskFits(syn, rea, visits[..m], visits[m], t);
    assert SameIdentities(syn, rea, visits[n], visits[m]);
    EarlierLinkIsSeen(syn, rea, visits, f, m);
  }

  /** Some task reads the data of the pair under a path whose differences count. */
  ghost predicate ReadAccountably(syn: Inventory, rea: Inventory, visits: seq<Visit>, v: Visit)
    requires AllInRange(syn, rea, visits) && InRange(syn, rea, v) && v.Both?
  {
    exists t :: t in TasksOf(syn, rea, visits)
      && t.syntheticObject < |syn.objects| && t.realObject < |rea.objects|
      && syn.objects[t.syntheticObject].identity == syn.objects[v.i].identity
      && rea.objects[t.realObject].identity == rea.objects[v.j].identity
      && !IsVssExcluded(syn.objects[t.syntheticObject].path)
  }

  /**
   When the data of a hard-linked pair is compared accountably: exactly when
   the first pair that shows the two identities lies outside System Volume
   Information and has something to read.
   */
  lemma ReadAccountablyIff(syn: Inventory, rea: Inventory, visits: seq<Visit>, n: nat, f: nat)
    requires AllInRange(syn, rea, visits) && n < |visits| && Eligible(syn, rea, visits[n])
    requires IsFirstLink(syn, rea, visits, n, f)
    requires Identified(syn, rea, visits[n])
    ensures ReadAccountably(syn, rea, visits, visits[n]) <==>
            !IsVssExcluded(syn.objects[visits[f].i].path) && VisitTasks(syn, rea, visits[..f], visits[f]) != []
  {
    if ReadAccountably(syn, rea, visits, visits[n]) {
      var t :| t in TasksOf(syn, rea, visits)
        && t.syntheticObject < |syn.objects| && t.realObject < |rea.objects|
        && syn.objects[t.syntheticObject].identity == syn.objects[visits[n].i].identity
        && rea.objects[t.realObject].identity == rea.objects[visits[n].j].identity
        && !IsVssExcluded(syn.objects[t.syntheticObject].path);
      OnlyFirstLinkIsRead(syn, rea, visits, n, f, t);
      var m := TaskComesFromVisit(syn, rea, visits, t);
      VisitTaskFits(syn, rea, visits[..m], visits[m], t);
      SameFirst(syn, rea, visits, n, f, m);
    }
    if !IsVssExcluded(syn.objects[visits[f].i].path) && VisitTasks(syn, rea, visits[..f], visits[f]) != [] {
      var t := VisitTasks(syn, rea, visits[..f], visits[f])[0];
      TaskIncluded(syn, rea, visits, f, t);
      VisitTaskFits(syn, rea, visits[..f], visits[f], t);
      assert t in TasksOf(syn, rea, visits);
    }
  }

  lemma SameFirst(syn: Inventory, rea: Inventory, visits: seq<Visit>, n: nat, f: nat, m: nat)
    requires AllInRange(syn, rea, visits) && n < |visits| && Eligible(syn, rea, visits[n])
    requires IsFirstLink(syn, rea, visits, n, f)
    requires Identified(syn, rea, visits[n]) && m < |visits| && ComparesContents(syn, rea, visits[..m], visits[m])
    requires SameIdentities(syn, rea, visits[n], visits[m])
    ensures m == f
  {
    EarlierLinkIsSeen(syn, rea, visits, f, m);
  }

  /** What a task under an excluded path records never counts as a mismatch, whatever the data. */
  lemma ExcludedTasksNeverAccuse(c: Workers.Sides, t: ReadTask)
    requires Workers.TaskFits(c, t) && IsVssExcluded(Workers.SyntheticPath(c, t))
    ensures Quiet(Workers.ReadOutcome(c, t).0)
    ensures match Workers.OpenOutcome(c, t)
            case Readable => true
            case Refused(action, accepted) => !Accuses(action) && accepted
    ensures Workers.ReadOutcome(c, t).1 == Workers.Accept
  {
  }
}
