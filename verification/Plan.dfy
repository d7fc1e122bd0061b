/**
 `BuildComparisonPlan`: a merge join over two inventories records every
 difference of names, kinds, failures and stream lengths, and cuts the equal
 streams into read tasks, all or a random sample of which are selected.
 */
module Plan {
  import opened Common
  import opened Filesystem
  import opened MergeJoin
  import opened Ledger

  /** Byte totals are 64-bit unsigned and wrap. */
  const WORD: nat := 0x1_0000_0000_0000_0000

  datatype ReadTask = ReadTask(
    syntheticObject: nat, realObject: nat, syntheticStream: nat, realStream: nat, offset: int, length: nat)

  datatype ComparisonPlan = ComparisonPlan(availableBytes: nat, selectedBytes: nat, tasks: seq<ReadTask>)

  // ----- Failures of one object -----

  /** The failure that counts for an operation on a path: the last one recorded. */
  function LastFailure(issues: seq<InventoryIssue>, path: string, operation: Operation): Option<Failure> {
    if issues == [] then None
    else
      var last := issues[|issues| - 1];
      if last.path == path && last.operation == operation then Some(last.failure)
      else LastFailure(issues[..|issues| - 1], path, operation)
  }

  datatype Failures = Failures(open: Option<Failure>, streams: Option<Failure>, directory: Option<Failure>)

  function FailuresAt(issues: seq<InventoryIssue>, path: string): Failures {
    Failures(LastFailure(issues, path, OpenObject), LastFailure(issues, path, QueryStreams),
             LastFailure(issues, path, QueryDirectory))
  }

  predicate IssuesSorted(issues: seq<InventoryIssue>) {
    forall i, j :: 0 <= i < j < |issues| ==> !Less(issues[j].path, issues[i].path)
  }

  predicate IsInventoryOperation(operation: Operation) {
    operation.OpenObject? || operation.QueryStreams? || operation.QueryDirectory?
  }

  lemma {:induction false} LaterPathsDoNotMatter(
    issues: seq<InventoryIssue>, n: nat, path: string, operation: Operation)
    requires n <= |issues| && forall i :: n <= i < |issues| ==> issues[i].path != path
    ensures LastFailure(issues, path, operation) == LastFailure(issues[..n], path, operation)
    decreases |issues|
  {
    if n < |issues| {
      LaterPathsDoNotMatter(issues[..|issues| - 1], n, path, operation);
      assert issues[..|issues| - 1][..n] == issues[..n];
    } else {
      assert issues[..n] == issues;
    }
  }

  lemma {:induction false} EarlierPathsDoNotMatter(issues: seq<InventoryIssue>, path: string, operation: Operation)
    requires forall i :: 0 <= i < |issues| ==> issues[i].path != path
    ensures LastFailure(issues, path, operation) == None
  {
    if issues != [] { EarlierPathsDoNotMatter(issues[..|issues| - 1], path, operation); }
  }

  /** The cursor finds every failure of the path, and skips none of a later path. */
  method FailuresForObject(issues: seq<InventoryIssue>, cursor: nat, path: string) returns (result: Failures, next: nat)
    requires cursor <= |issues| && IssuesSorted(issues)
    requires forall i :: 0 <= i < cursor ==> Less(issues[i].path, path)
    requires forall i :: 0 <= i < |issues| ==> IsInventoryOperation(issues[i].operation)
    ensures result == FailuresAt(issues, path)
    ensures cursor <= next <= |issues|
    ensures forall i :: 0 <= i < next ==> !Less(path, issues[i].path)
    ensures forall i :: next <= i < |issues| ==> Less(path, issues[i].path)
  {
    next := cursor;
    while next < |issues| && Less(issues[next].path, path)
      invariant cursor <= next <= |issues|
      invariant forall i :: 0 <= i < next ==> Less(issues[i].path, path)
    {
      next := next + 1;
    }
    forall i | 0 <= i < next ensures issues[i].path != path { LessTrichotomy(issues[i].path, path); }
    EarlierPathsDoNotMatter(issues[..next], path, OpenObject);
    EarlierPathsDoNotMatter(issues[..next], path, QueryStreams);
    EarlierPathsDoNotMatter(issues[..next], path, QueryDirectory);

    result := Failures(None, None, None);
    while next < |issues| && issues[next].path == path
      invariant cursor <= next <= |issues|
      invariant forall i :: 0 <= i < next ==> Less(issues[i].path, path) || issues[i].path == path
      invariant next < |issues| ==> !Less(issues[next].path, path)
      invariant result == FailuresAt(issues[..next], path)
    {
      var issue := issues[next];
      assert issues[..next + 1][..next] == issues[..next];
      assert IsInventoryOperation(issue.operation);
      match issue.operation {
        case OpenObject => result := result.(open := Some(issue.failure));
        case QueryStreams => result := result.(streams := Some(issue.failure));
        case QueryDirectory => result := result.(directory := Some(issue.failure));
      }
      LessTrichotomy(path, path);
      next := next + 1;
    }
    forall i | 0 <= i < next ensures !Less(path, issues[i].path) { LessTrichotomy(path, issues[i].path); }
    forall i | next <= i < |issues| ensures Less(path, issues[i].path) && issues[i].path != path {
      LessTrichotomy(path, issues[next].path);
      LessTrichotomy(issues[next].path, issues[i].path);
      if Less(issues[next].path, issues[i].path) { LessTransitive(path, issues[next].path, issues[i].path); }
      LessTrichotomy(path, issues[i].path);
    }
    LaterPathsDoNotMatter(issues, next, path, OpenObject);
    LaterPathsDoNotMatter(issues, next, path, QueryStreams);
    LaterPathsDoNotMatter(issues, next, path, QueryDirectory);
  }

  // ----- What the comparison of two inventories reports -----

  predicate IsBelow(directory: string, path: string) {
    if directory == "" then path != ""
    else |path| > |directory| && directory <= path && path[|directory|] == '\\'
  }

  predicate IsBelowIncompleteDirectory(incomplete: seq<string>, path: string) {
    exists i :: 0 <= i < |incomplete| && IsBelow(incomplete[i], path)
  }

  predicate ComparisonSurfaceIncomplete(incomplete: seq<string>) {
    exists i :: 0 <= i < |incomplete| && !IsVssExcluded(incomplete[i])
  }

  /** Whatever is suppressed under an incomplete directory is excluded itself once the surface is complete. */
  lemma SuppressedIsExcluded(incomplete: seq<string>, path: string)
    requires !ComparisonSurfaceIncomplete(incomplete) && IsBelowIncompleteDirectory(incomplete, path)
    ensures IsVssExcluded(path)
  {
    var i :| 0 <= i < |incomplete| && IsBelow(incomplete[i], path);
    var directory := incomplete[i];
    assert IsVssExcluded(directory);
    assert path[..|directory|] == directory;
    if directory == SVI { assert path[..|directory| + 1] == SVI + "\\"; }
    else { assert path[..|SVI| + 1] == SVI + "\\"; }
  }

  function OperationActions(
    path: string, operation: Operation, synthetic: Option<Failure>, actual: Option<Failure>): seq<Action>
  {
    if synthetic.None? && actual.None? then []
    else [RecordOperation(Comparison(IssueKey(path, "", operation, 0), 0, synthetic, actual))]
  }

  function StreamVisitActions(s: ObjectRecord, r: ObjectRecord, v: Visit): seq<Action>
    requires !v.OnlyRight? ==> v.i < |s.streams|
    requires !v.OnlyLeft? ==> v.j < |r.streams|
  {
    match v
    case OnlyLeft(i) => [RecordMismatch(Plain(StreamMissingFromReal, s.path, s.streams[i].name))]
    case OnlyRight(j) => [RecordMismatch(Plain(StreamMissingFromSynthetic, r.path, r.streams[j].name))]
    case Both(i, j) =>
      if s.streams[i].length != r.streams[j].length
      then [RecordMismatch(Plain(StreamLength, s.path, s.streams[i].name)
                           .(syntheticLength := s.streams[i].length, realLength := r.streams[j].length))]
      else []
  }

  ghost predicate VisitsFit(left: nat, right: nat, visits: seq<Visit>) {
    forall n :: 0 <= n < |visits| ==>
      (!visits[n].OnlyRight? ==> visits[n].i < left) && (!visits[n].OnlyLeft? ==> visits[n].j < right)
  }

  ghost function StreamActions(s: ObjectRecord, r: ObjectRecord, visits: seq<Visit>): seq<Action>
    requires VisitsFit(|s.streams|, |r.streams|, visits)
    decreases |visits|
  {
    if visits == [] then []
    else StreamActions(s, r, visits[..|visits| - 1]) + StreamVisitActions(s, r, visits[|visits| - 1])
  }

  /** The chunks of a stream from `offset` on. */
  function Chunks(task: ReadTask, length: int, offset: int): (tasks: seq<ReadTask>)
    decreases length - offset
  {
    if offset >= length then []
    else
      var size := if length - offset < CHUNK then length - offset else CHUNK;
      [task.(offset := offset, length := size)] + Chunks(task, length, offset + size)
  }

  function StreamVisitTasks(i: nat, j: nat, s: ObjectRecord, r: ObjectRecord, v: Visit): seq<ReadTask>
    requires !v.OnlyRight? ==> v.i < |s.streams|
    requires !v.OnlyLeft? ==> v.j < |r.streams|
  {
    if v.Both? && s.streams[v.i].length == r.streams[v.j].length
    then Chunks(ReadTask(i, j, v.i, v.j, 0, 0), s.streams[v.i].length, 0) else []
  }

  ghost function StreamTasks(i: nat, j: nat, s: ObjectRecord, r: ObjectRecord, visits: seq<Visit>): seq<ReadTask>
    requires VisitsFit(|s.streams|, |r.streams|, visits)
    decreases |visits|
  {
    if visits == [] then []
    else StreamTasks(i, j, s, r, visits[..|visits| - 1]) + StreamVisitTasks(i, j, s, r, visits[|visits| - 1])
  }

  function StreamJoin(s: ObjectRecord, r: ObjectRecord): seq<Visit> {
    Join(StreamNames(s.streams), StreamNames(r.streams), 0, 0)
  }

  lemma JoinFits(left: seq<string>, right: seq<string>)
    ensures VisitsFit(|left|, |right|, Join(left, right, 0, 0))
  {
    var visits := Join(left, right, 0, 0);
    forall n | 0 <= n < |visits|
      ensures (!visits[n].OnlyRight? ==> visits[n].i < |left|) && (!visits[n].OnlyLeft? ==> visits[n].j < |right|)
    {
      JoinPairsEqualKeys(left, right, 0, 0, visits[n]);
    }
  }

  function BothOpened(syn: Inventory, rea: Inventory, path: string): bool {
    FailuresAt(syn.issues, path).open.None? && FailuresAt(rea.issues, path).open.None?
  }

  ghost predicate InRange(syn: Inventory, rea: Inventory, v: Visit) {
    (!v.OnlyRight? ==> v.i < |syn.objects|) && (!v.OnlyLeft? ==> v.j < |rea.objects|)
  }

  /** The streams of a matched pair are compared. */
  ghost predicate Eligible(syn: Inventory, rea: Inventory, v: Visit)
    requires InRange(syn, rea, v)
  {
    && v.Both?
    && var s, r := syn.objects[v.i], rea.objects[v.j];
       s.kind == r.kind && BothOpened(syn, rea, s.path) && s.streamsComplete && r.streamsComplete
  }

  ghost function FailureActions(syn: Inventory, rea: Inventory, s: ObjectRecord, r: ObjectRecord): seq<Action> {
    var fs, fr := FailuresAt(syn.issues, s.path), FailuresAt(rea.issues, s.path);
    OperationActions(s.path, OpenObject, fs.open, fr.open)
    + (if fs.open.None? && fr.open.None? then
         OperationActions(s.path, QueryStreams, fs.streams, fr.streams)
         + (if s.kind == Directory && r.kind == Directory
            then OperationActions(s.path, QueryDirectory, fs.directory, fr.directory) else [])
       else [])
  }

  ghost function ContentActions(syn: Inventory, rea: Inventory, i: nat, j: nat): seq<Action>
    requires i < |syn.objects| && j < |rea.objects|
  {
    var s, r := syn.objects[i], rea.objects[j];
    if s.kind != r.kind then
      [RecordMismatch(Plain(ObjectType, s.path, "").(syntheticKind := s.kind, realKind := r.kind))]
    else if Eligible(syn, rea, Both(i, j)) then
      JoinFits(StreamNames(s.streams), StreamNames(r.streams));
      StreamActions(s, r, StreamJoin(s, r))
    else []
  }

  ghost function VisitActions(syn: Inventory, rea: Inventory, v: Visit): seq<Action>
    requires InRange(syn, rea, v)
  {
    match v
    case OnlyLeft(i) =>
      var path := syn.objects[i].path;
      if IsBelowIncompleteDirectory(rea.incompleteDirectories, path) then []
      else [RecordMismatch(Plain(ObjectMissingFromReal, path, ""))]
    case OnlyRight(j) =>
      var path := rea.objects[j].path;
      if IsBelowIncompleteDirectory(syn.incompleteDirectories, path) then []
      else [RecordMismatch(Plain(ObjectMissingFromSynthetic, path, ""))]
    case Both(i, j) =>
      FailureActions(syn, rea, syn.objects[i], rea.objects[j]) + ContentActions(syn, rea, i, j)
  }

  ghost predicate AllInRange(syn: Inventory, rea: Inventory, visits: seq<Visit>) {
    forall n :: 0 <= n < |visits| ==> InRange(syn, rea, visits[n])
  }

  /** Everything the comparison of two inventories records, visit by visit. */
  ghost function ActionsOf(syn: Inventory, rea: Inventory, visits: seq<Visit>): seq<Action>
    requires AllInRange(syn, rea, visits)
    decreases |visits|
  {
    if visits == [] then []
    else ActionsOf(syn, rea, visits[..|visits| - 1]) + VisitActions(syn, rea, visits[|visits| - 1])
  }

  /** An earlier eligible pair had the same two file identities. */
  ghost predicate SeenPair(syn: Inventory, rea: Inventory, visits: seq<Visit>, a: nat, b: nat)
    requires AllInRange(syn, rea, visits)
  {
    exists n :: 0 <= n < |visits| && Eligible(syn, rea, visits[n])
                && syn.objects[visits[n].i].identity == a && rea.objects[visits[n].j].identity == b
  }

  ghost predicate ComparesContents(syn: Inventory, rea: Inventory, earlier: seq<Visit>, v: Visit)
    requires AllInRange(syn, rea, earlier) && InRange(syn, rea, v)
  {
    && Eligible(syn, rea, v)
    && var a, b := syn.objects[v.i].identity, rea.objects[v.j].identity;
       a == 0 || b == 0 || !SeenPair(syn, rea, earlier, a, b)
  }

  ghost function VisitTasks(syn: Inventory, rea: Inventory, earlier: seq<Visit>, v: Visit): seq<ReadTask>
    requires AllInRange(syn, rea, earlier) && InRange(syn, rea, v)
  {
    if ComparesContents(syn, rea, earlier, v) then
      var s, r := syn.objects[v.i], rea.objects[v.j];
      JoinFits(StreamNames(s.streams), StreamNames(r.streams));
      StreamTasks(v.i, v.j, s, r, StreamJoin(s, r))
    else []
  }

  /** Every read task the plan may select from. */
  ghost function TasksOf(syn: Inventory, rea: Inventory, visits: seq<Visit>): seq<ReadTask>
    requires AllInRange(syn, rea, visits)
    decreases |visits|
  {
    if visits == [] then []
    else TasksOf(syn, rea, visits[..|visits| - 1]) + VisitTasks(syn, rea, visits[..|visits| - 1], visits[|visits| - 1])
  }

  function ObjectJoin(syn: Inventory, rea: Inventory): seq<Visit> {
    Join(ObjectPaths(syn.objects), ObjectPaths(rea.objects), 0, 0)
  }

  lemma ObjectJoinInRange(syn: Inventory, rea: Inventory)
    ensures AllInRange(syn, rea, ObjectJoin(syn, rea))
  {
    JoinFits(ObjectPaths(syn.objects), ObjectPaths(rea.objects));
  }

  // ----- Selecting tasks -----

  function TotalLength(tasks: seq<ReadTask>): nat {
    if tasks == [] then 0 else TotalLength(tasks[..|tasks| - 1]) + tasks[|tasks| - 1].length
  }

  function Picked(candidates: seq<ReadTask>, picks: seq<bool>): seq<ReadTask>
    requires |picks| == |candidates|
  {
    if candidates == [] then []
    else
      Picked(candidates[..|candidates| - 1], picks[..|picks| - 1])
      + (if picks[|picks| - 1] then [candidates[|candidates| - 1]] else [])
  }

  function Unpicked(candidates: seq<ReadTask>, picks: seq<bool>): seq<ReadTask>
    requires |picks| == |candidates|
  {
    if candidates == [] then []
    else
      Unpicked(candidates[..|candidates| - 1], picks[..|picks| - 1])
      + (if picks[|picks| - 1] then [] else [candidates[|candidates| - 1]])
  }

  /**
   A plan over the candidates: all of them for a full comparison; otherwise
   the picked ones, or a single candidate when none was picked.
   */
  ghost predicate IsPlan(candidates: seq<ReadTask>, full: bool, plan: ComparisonPlan) {
    && plan.availableBytes == TotalLength(candidates) % WORD
    && plan.selectedBytes == TotalLength(plan.tasks) % WORD
    && if full then plan.tasks == candidates
       else exists picks: seq<bool> :: |picks| == |candidates| && plan.tasks == Picked(candidates, picks)
                                       && (candidates != [] ==> true in picks)
  }

  lemma TotalLengthOneMore(tasks: seq<ReadTask>, task: ReadTask)
    ensures TotalLength(tasks + [task]) == TotalLength(tasks) + task.length
  {
    assert (tasks + [task])[..|tasks|] == tasks;
  }

  lemma WrappedTotalOneMore(tasks: seq<ReadTask>, task: ReadTask)
    ensures (TotalLength(tasks) % WORD + task.length) % WORD == TotalLength(tasks + [task]) % WORD
  {
    TotalLengthOneMore(tasks, task);
  }

  lemma PickedOneMore(candidates: seq<ReadTask>, picks: seq<bool>, task: ReadTask, pick: bool)
    requires |picks| == |candidates|
    ensures Picked(candidates + [task], picks + [pick]) ==
            if pick then Picked(candidates, picks) + [task] else Picked(candidates, picks)
  {
    assert (candidates + [task])[..|candidates|] == candidates && (picks + [pick])[..|picks|] == picks;
  }

  /** The tasks are those picked, and the byte counts the wrapped totals of the candidates and of the tasks. */
  ghost predicate Sums(
    candidates: seq<ReadTask>, picks: seq<bool>, tasks: seq<ReadTask>, available: nat, selected: nat)
  {
    && |picks| == |candidates| && tasks == Picked(candidates, picks)
    && available == TotalLength(candidates) % WORD && selected == TotalLength(tasks) % WORD
  }

  lemma SumsWithPick(
    candidates: seq<ReadTask>, picks: seq<bool>, tasks: seq<ReadTask>, available: nat, selected: nat, task: ReadTask)
    requires Sums(candidates, picks, tasks, available, selected)
    ensures Sums(candidates + [task], picks + [true], tasks + [task],
                 (available + task.length) % WORD, (selected + task.length) % WORD)
  {
    WrappedTotalOneMore(candidates, task);
    WrappedTotalOneMore(tasks, task);
    PickedOneMore(candidates, picks, task, true);
  }

  lemma SumsWithoutPick(
    candidates: seq<ReadTask>, picks: seq<bool>, tasks: seq<ReadTask>, available: nat, selected: nat, task: ReadTask)
    requires Sums(candidates, picks, tasks, available, selected)
    ensures Sums(candidates + [task], picks + [false], tasks, (available + task.length) % WORD, selected)
  {
    WrappedTotalOneMore(candidates, task);
    PickedOneMore(candidates, picks, task, false);
  }

  /** The fallback is one of the candidates; a full comparison keeps none. */
  ghost predicate IsFallback(full: bool, candidates: seq<ReadTask>, kept: nat, fallback: Option<ReadTask>) {
    if full || candidates == [] then fallback == None
    else kept < |candidates| && fallback == Some(candidates[kept])
  }

  class PlanBuilder {
    const full: bool
    var availableBytes: nat
    var selectedBytes: nat
    var tasks: seq<ReadTask>
    var fallback: Option<ReadTask>
    var taskCount: nat
    ghost var candidates: seq<ReadTask>
    ghost var picks: seq<bool>
    ghost var kept: nat

    ghost predicate Valid()
      reads this
    {
      && taskCount == |candidates| && Sums(candidates, picks, tasks, availableBytes, selectedBytes)
      && (full ==> tasks == candidates) && IsFallback(full, candidates, kept, fallback)
    }

    constructor (full: bool)
      ensures Valid() && candidates == [] && this.full == full
    {
      this.full := full;
      availableBytes, selectedBytes, tasks, fallback, taskCount := 0, 0, [], None, 0;
      candidates, picks, kept := [], [], 0;
    }

    method AddTask(task: ReadTask)
      requires Valid()
      modifies this
      ensures Valid() && candidates == old(candidates) + [task]
    {
      KeepFallback(task);
      Count(task);
    }

    /** A draw from [0, taskCount] that comes out zero, as it must for the first task, replaces the fallback. */
    method KeepFallback(task: ReadTask)
      requires taskCount == |candidates| && IsFallback(full, candidates, kept, fallback)
      modifies this`fallback, this`kept
      ensures IsFallback(full, candidates + [task], kept, fallback)
    {
      var drawn: bool := *;
      if !full && (drawn || taskCount == 0) {
        fallback := Some(task);
        kept := |candidates|;
      }
    }

    /** Counts a candidate, and the task if it is chosen. */
    method Count(task: ReadTask)
      requires Sums(candidates, picks, tasks, availableBytes, selectedBytes) && (full ==> tasks == candidates)
      modifies this`availableBytes, this`selectedBytes, this`tasks, this`taskCount, this`candidates, this`picks
      ensures candidates == old(candidates) + [task] && taskCount == old(taskCount) + 1
      ensures Sums(candidates, picks, tasks, availableBytes, selectedBytes) && (full ==> tasks == candidates)
    {
      var chosen: bool := *;
      if chosen || full {
        SumsWithPick(candidates, picks, tasks, availableBytes, selectedBytes, task);
        selectedBytes := (selectedBytes + task.length) % WORD;
        tasks, picks := tasks + [task], picks + [true];
      } else {
        SumsWithoutPick(candidates, picks, tasks, availableBytes, selectedBytes, task);
        picks := picks + [false];
      }
      availableBytes := (availableBytes + task.length) % WORD;
      taskCount := taskCount + 1;
      candidates := candidates + [task];
    }

    method Finish() returns (plan: ComparisonPlan)
      requires Valid()
      modifies this
      ensures IsPlan(candidates, full, plan) && candidates == old(candidates)
    {
      if tasks == [] && fallback.Some? {
        NonePickedFromEmptySelection(candidates, picks);
        selectedBytes := fallback.value.length % WORD;
        tasks := [fallback.value];
        picks := picks[kept := true];
        PickOne(candidates, picks, kept);
        assert tasks[..0] == [];
      }
      plan := ComparisonPlan(availableBytes, selectedBytes, tasks);
      if !full && candidates != [] && true !in picks { NothingPicked(candidates, picks); }
      assert IsPlan(candidates, full, plan) by {
        assert !full ==> |picks| == |candidates| && plan.tasks == Picked(candidates, picks);
      }
    }
  }

  lemma {:induction false} NonePickedFromEmptySelection(candidates: seq<ReadTask>, picks: seq<bool>)
    requires |picks| == |candidates| && Picked(candidates, picks) == []
    ensures true !in picks
  {
    if candidates != [] { NonePickedFromEmptySelection(candidates[..|candidates| - 1], picks[..|picks| - 1]); }
  }

  lemma {:induction false} NothingPicked(candidates: seq<ReadTask>, picks: seq<bool>)
    requires |picks| == |candidates| && true !in picks
    ensures Picked(candidates, picks) == []
  {
    if candidates != [] { NothingPicked(candidates[..|candidates| - 1], picks[..|picks| - 1]); }
  }

  lemma {:induction false} PickOne(candidates: seq<ReadTask>, picks: seq<bool>, k: nat)
    requires |picks| == |candidates| && k < |picks| && picks[k] && forall i :: 0 <= i < |picks| && i != k ==> !picks[i]
    ensures Picked(candidates, picks) == [candidates[k]]
  {
    if k == |picks| - 1 { NothingPicked(candidates[..k], picks[..k]); }
    else { PickOne(candidates[..|candidates| - 1], picks[..|picks| - 1], k); }
  }

  // ----- Building the plan -----

  lemma RecordOneMore(log: seq<Action>, a: Action)
    ensures RecordAll(log + [a]) == Record(RecordAll(log), a)
  {
    assert (log + [a])[..|log|] == log;
  }

  method ReportMismatch(state: VerificationState, m: Mismatch, ghost log: seq<Action>)
    requires state.Valid() && state.View() == RecordAll(log)
    modifies state
    ensures state.Valid() && state.View() == RecordAll(log + [RecordMismatch(m)])
  {
    RecordOneMore(log, RecordMismatch(m));
    var _ := state.Append(m);
  }

  method RecordInventoryOperationComparison(
    state: VerificationState, path: string, operation: Operation, synthetic: Option<Failure>, actual: Option<Failure>,
    ghost log: seq<Action>)
    requires state.Valid() && state.View() == RecordAll(log)
    modifies state
    ensures state.Valid() && state.View() == RecordAll(log + OperationActions(path, operation, synthetic, actual))
  {
    if synthetic.None? && actual.None? {
      assert log + [] == log;
      return;
    }
    var c := Comparison(IssueKey(path, "", operation, 0), 0, synthetic, actual);
    RecordOneMore(log, RecordOperation(c));
    state.RecordOperationComparison(c);
  }

  lemma Regroup<T>(done: seq<T>, next: seq<T>, rest: seq<T>)
    ensures done + (next + rest) == (done + next) + rest
  {
  }

  lemma StreamActionsOneMore(s: ObjectRecord, r: ObjectRecord, visits: seq<Visit>, v: Visit)
    requires VisitsFit(|s.streams|, |r.streams|, visits) && VisitsFit(|s.streams|, |r.streams|, [v])
    ensures VisitsFit(|s.streams|, |r.streams|, visits + [v])
    ensures StreamActions(s, r, visits + [v]) == StreamActions(s, r, visits) + StreamVisitActions(s, r, [v][0])
  {
    assert (visits + [v])[..|visits|] == visits && (visits + [v])[|visits|] == [v][0];
  }

  lemma StreamTasksOneMore(i: nat, j: nat, s: ObjectRecord, r: ObjectRecord, visits: seq<Visit>, v: Visit)
    requires VisitsFit(|s.streams|, |r.streams|, visits) && VisitsFit(|s.streams|, |r.streams|, [v])
    ensures VisitsFit(|s.streams|, |r.streams|, visits + [v])
    ensures StreamTasks(i, j, s, r, visits + [v]) == StreamTasks(i, j, s, r, visits)
            + StreamVisitTasks(i, j, s, r, [v][0])
  {
    assert (visits + [v])[..|visits|] == visits && (visits + [v])[|visits|] == [v][0];
  }

  /** Cuts one stream into chunk tasks; stops early, with fewer tasks, only when cancelled. */
  lemma {:induction false} ChunkAppended(
    task: ReadTask, length: int, offset: int, added: seq<ReadTask>, chunk: ReadTask)
    requires offset < length
    requires chunk == task.(offset := offset, length := if length - offset < CHUNK then length - offset else CHUNK)
    ensures added + Chunks(task, length, offset) == added + [chunk] + Chunks(task, length, offset + chunk.length)
  {
  }

  method AppendChunks(task: ReadTask, length: int, builder: PlanBuilder) returns (complete: bool)
    requires builder.Valid()
    modifies builder
    ensures builder.Valid()
    ensures complete ==> builder.candidates == old(builder.candidates) + Chunks(task, length, 0)
  {
    var offset := 0;
    while offset < length
      invariant builder.Valid()
      invariant builder.candidates + Chunks(task, length, offset) == old(builder.candidates) + Chunks(task, length, 0)
      decreases length - offset
    {
      if * { return false; }
      var size := if length - offset < CHUNK then length - offset else CHUNK;
      var chunk := task.(offset := offset, length := size);
      ChunkAppended(task, length, offset, builder.candidates, chunk);
      builder.AddTask(chunk);
      offset := offset + size;
    }
    assert builder.candidates + [] == builder.candidates;
    return true;
  }

  /** One turn of the stream join. */
  /** The next visit of the join of two stream lists. */
  method NextStreamVisit(s: ObjectRecord, r: ObjectRecord, a: nat, b: nat) returns (v: Visit, a': nat, b': nat)
    requires a <= |s.streams| && b <= |r.streams| && (a < |s.streams| || b < |r.streams|)
    ensures VisitsFit(|s.streams|, |r.streams|, [v])
    ensures a <= a' <= |s.streams| && b <= b' <= |r.streams| && a' + b' > a + b
    ensures Join(StreamNames(s.streams), StreamNames(r.streams), a, b) ==
            [v] + Join(StreamNames(s.streams), StreamNames(r.streams), a', b')
  {
    if a == |s.streams| {
      v, a', b' := OnlyRight(b), a, b + 1;
    } else if b == |r.streams| || Less(s.streams[a].name, r.streams[b].name) {
      v, a', b' := OnlyLeft(a), a + 1, b;
    } else if Less(r.streams[b].name, s.streams[a].name) {
      v, a', b' := OnlyRight(b), a, b + 1;
    } else {
      v, a', b' := Both(a, b), a + 1, b + 1;
    }
  }

  method VisitStream(
    i: nat, j: nat, s: ObjectRecord, r: ObjectRecord, compareContents: bool, v: Visit,
    state: VerificationState, builder: PlanBuilder, ghost log: seq<Action>)
    returns (complete: bool, ghost actions: seq<Action>)
    requires !v.OnlyRight? ==> v.i < |s.streams|
    requires !v.OnlyLeft? ==> v.j < |r.streams|
    requires state.Valid() && state.View() == RecordAll(log) && builder.Valid()
    modifies state, builder
    ensures state.Valid() && state.View() == RecordAll(log + actions) && builder.Valid()
    ensures actions == StreamVisitActions(s, r, v)
    ensures complete ==>
              builder.candidates ==
              old(builder.candidates) + if compareContents then StreamVisitTasks(i, j, s, r, v) else []
  {
    complete, actions := true, [];
    assert log + [] == log && builder.candidates + [] == builder.candidates;
    match v
    case OnlyLeft(a) =>
      var m := Plain(StreamMissingFromReal, s.path, s.streams[a].name);
      ReportMismatch(state, m, log);
      actions := [RecordMismatch(m)];
    case OnlyRight(b) =>
      var m := Plain(StreamMissingFromSynthetic, r.path, r.streams[b].name);
      ReportMismatch(state, m, log);
      actions := [RecordMismatch(m)];
    case Both(a, b) =>
      var length, actualLength := s.streams[a].length, r.streams[b].length;
      if length != actualLength {
        var m := Plain(StreamLength, s.path, s.streams[a].name).(syntheticLength := length, realLength := actualLength);
        ReportMismatch(state, m, log);
        actions := [RecordMismatch(m)];
      } else if compareContents {
        complete := AppendChunks(ReadTask(i, j, a, b, 0, 0), length, builder);
      }
  }

  method AppendStreamTasks(
    i: nat, j: nat, s: ObjectRecord, r: ObjectRecord, compareContents: bool,
    state: VerificationState, builder: PlanBuilder, ghost log: seq<Action>)
    returns (complete: bool, ghost actions: seq<Action>)
    requires state.Valid() && state.View() == RecordAll(log) && builder.Valid()
    modifies state, builder
    ensures state.Valid() && state.View() == RecordAll(log + actions) && builder.Valid()
    ensures complete ==>
              && VisitsFit(|s.streams|, |r.streams|, StreamJoin(s, r))
              && actions == StreamActions(s, r, StreamJoin(s, r))
              && builder.candidates == old(builder.candidates) + if compareContents
                 then StreamTasks(i, j, s, r, StreamJoin(s, r)) else []
  {
    ghost var visited: seq<Visit>, tasks: seq<ReadTask> := [], [];
    actions := [];
    assert log + [] == log;
    var a, b := 0, 0;
    while a < |s.streams| || b < |r.streams|
      invariant a <= |s.streams| && b <= |r.streams|
      invariant visited + Join(StreamNames(s.streams), StreamNames(r.streams), a, b) == StreamJoin(s, r)
      invariant VisitsFit(|s.streams|, |r.streams|, visited)
      invariant actions == StreamActions(s, r, visited)
      invariant tasks == if compareContents then StreamTasks(i, j, s, r, visited) else []
      invariant state.Valid() && state.View() == RecordAll(log + actions) && builder.Valid()
      invariant builder.candidates == old(builder.candidates) + tasks
      decreases |s.streams| - a + |r.streams| - b
    {
      if * { return false, actions; }
      var v, a', b' := NextStreamVisit(s, r, a, b);
      ghost var more;
      var complete';
      complete', more := VisitStream(i, j, s, r, compareContents, [v][0], state, builder, log + actions);
      Regroup(log, actions, more);
      if !complete' { return false, actions + more; }
      StreamActionsOneMore(s, r, visited, v);
      StreamTasksOneMore(i, j, s, r, visited, v);
      Regroup(visited, [v], Join(StreamNames(s.streams), StreamNames(r.streams), a', b'));
      ghost var added := if compareContents then StreamVisitTasks(i, j, s, r, [v][0]) else [];
      Regroup(old(builder.candidates), tasks, added);
      visited, actions, tasks := visited + [v], actions + more, tasks + added;
      a, b := a', b';
    }
    assert visited + [] == visited;
    return true, actions;
  }

  /** What the traversal leaves behind: sorted paths, and failures sorted by path. */
  ghost predicate WellFormed(inventory: Inventory) {
    && StrictlySorted(ObjectPaths(inventory.objects))
    && IssuesSorted(inventory.issues)
    && forall n :: 0 <= n < |inventory.issues| ==> IsInventoryOperation(inventory.issues[n].operation)
  }

  /** No failure before the cursor belongs to an object from `i` on. */
  ghost predicate CursorBehind(inventory: Inventory, cursor: nat, i: nat)
    requires cursor <= |inventory.issues|
  {
    forall n, a :: 0 <= n < cursor && i <= a < |inventory.objects| ==>
      Less(inventory.issues[n].path, inventory.objects[a].path)
  }

  /** Consults the failures of object `i` and moves the cursor past them. */
  method TakeFailures(inventory: Inventory, cursor: nat, i: nat) returns (failures: Failures, next: nat)
    requires WellFormed(inventory) && i < |inventory.objects| && cursor <= |inventory.issues|
    requires CursorBehind(inventory, cursor, i)
    ensures failures == FailuresAt(inventory.issues, inventory.objects[i].path)
    ensures next <= |inventory.issues| && CursorBehind(inventory, next, i + 1)
  {
    var path := inventory.objects[i].path;
    failures, next := FailuresForObject(inventory.issues, cursor, path);
    forall n, a | 0 <= n < next && i + 1 <= a < |inventory.objects|
      ensures Less(inventory.issues[n].path, inventory.objects[a].path)
    {
      assert Less(ObjectPaths(inventory.objects)[i], ObjectPaths(inventory.objects)[a]);
      LessTrichotomy(inventory.issues[n].path, path);
      if Less(inventory.issues[n].path, path) {
        LessTransitive(inventory.issues[n].path, path, inventory.objects[a].path);
      }
    }
  }

  method RecordFailures(syn: Inventory, rea: Inventory, s: ObjectRecord, r: ObjectRecord, fs: Failures, fr: Failures,
                        state: VerificationState, ghost log: seq<Action>) returns (ghost actions: seq<Action>)
    requires fs == FailuresAt(syn.issues, s.path) && fr == FailuresAt(rea.issues, s.path)
    requires state.Valid() && state.View() == RecordAll(log)
    modifies state
    ensures state.Valid() && actions == FailureActions(syn, rea, s, r) && state.View() == RecordAll(log + actions)
  {
    RecordInventoryOperationComparison(state, s.path, OpenObject, fs.open, fr.open, log);
    actions := OperationActions(s.path, OpenObject, fs.open, fr.open);
    if fs.open.None? && fr.open.None? {
      RecordInventoryOperationComparison(state, s.path, QueryStreams, fs.streams, fr.streams, log + actions);
      ghost var more := OperationActions(s.path, QueryStreams, fs.streams, fr.streams);
      Regroup(log, actions, more);
      if s.kind == Directory && r.kind == Directory {
        RecordInventoryOperationComparison(state, s.path, QueryDirectory, fs.directory, fr.directory, log
          + (actions + more));
        ghost var last := OperationActions(s.path, QueryDirectory, fs.directory, fr.directory);
        Regroup(log, actions + more, last);
        Regroup(actions, more, last);
        actions := actions + (more + last);
      } else {
        assert more + [] == more;
        actions := actions + more;
      }
    } else {
      assert actions + [] == actions;
    }
  }

  /** The tasks of a matched pair, given the paired identities compared so far. */
  ghost function PairTasks(syn: Inventory, rea: Inventory, i: nat, j: nat, compared: set<(nat, nat)>): seq<ReadTask>
    requires i < |syn.objects| && j < |rea.objects|
    requires VisitsFit(|syn.objects[i].streams|, |rea.objects[j].streams|, StreamJoin(syn.objects[i], rea.objects[j]))
  {
    var s, r := syn.objects[i], rea.objects[j];
    if Eligible(syn, rea, Both(i, j)) && (s.identity == 0 || r.identity == 0 || (s.identity, r.identity) !in compared)
    then StreamTasks(i, j, s, r, StreamJoin(s, r)) else []
  }

  /** A matched pair: its failures, its kinds, and its streams. */
  /** The kinds of a pair and, if it is eligible, its streams. */
  method CompareContents(
    syn: Inventory, rea: Inventory, i: nat, j: nat, bothOpened: bool, compared: set<(nat, nat)>,
    state: VerificationState, builder: PlanBuilder, ghost log: seq<Action>)
    returns (complete: bool, compared': set<(nat, nat)>, ghost actions: seq<Action>)
    requires i < |syn.objects| && j < |rea.objects| && (bothOpened <==> BothOpened(syn, rea, syn.objects[i].path))
    requires state.Valid() && state.View() == RecordAll(log) && builder.Valid()
    modifies state, builder
    ensures state.Valid() && state.View() == RecordAll(log + actions) && builder.Valid()
    ensures var a, b := syn.objects[i].identity, rea.objects[j].identity;
            && (complete ==> actions == ContentActions(syn, rea, i, j))
            && (complete ==>
                  compared' ==
                  if Eligible(syn, rea, Both(i, j)) && a != 0 && b != 0 then compared + {(a, b)} else compared)
    ensures complete ==>
              VisitsFit(|syn.objects[i].streams|, |rea.objects[j].streams|, StreamJoin(syn.objects[i], rea.objects[j]))
    ensures complete ==> builder.candidates == old(builder.candidates) + PairTasks(syn, rea, i, j, compared)
  {
    var s, r := syn.objects[i], rea.objects[j];
    JoinFits(StreamNames(s.streams), StreamNames(r.streams));
    complete, compared' := true, compared;
    actions := [];
    assert log + [] == log && builder.candidates + [] == builder.candidates;
    if s.kind != r.kind {
      var m := Plain(ObjectType, s.path, "").(syntheticKind := s.kind, realKind := r.kind);
      ReportMismatch(state, m, log);
      actions := [RecordMismatch(m)];
    } else if bothOpened && s.streamsComplete && r.streamsComplete {
      var compareContents := s.identity == 0 || r.identity == 0 || (s.identity, r.identity) !in compared;
      if s.identity != 0 && r.identity != 0 { compared' := compared + {(s.identity, r.identity)}; }
      complete, actions := AppendStreamTasks(i, j, s, r, compareContents, state, builder, log);
    }
  }

  lemma PairActions(syn: Inventory, rea: Inventory, i: nat, j: nat)
    requires i < |syn.objects| && j < |rea.objects|
    ensures VisitActions(syn, rea, Both(i, j)) ==
            FailureActions(syn, rea, syn.objects[i], rea.objects[j]) + ContentActions(syn, rea, i, j)
  {
  }

  method ComparePair(
    syn: Inventory, rea: Inventory, i: nat, j: nat, fs: Failures, fr: Failures, compared: set<(nat, nat)>,
    state: VerificationState, builder: PlanBuilder, ghost log: seq<Action>)
    returns (complete: bool, compared': set<(nat, nat)>, ghost actions: seq<Action>)
    requires i < |syn.objects| && j < |rea.objects|
    requires fs == FailuresAt(syn.issues, syn.objects[i].path) && fr == FailuresAt(rea.issues, syn.objects[i].path)
    requires state.Valid() && state.View() == RecordAll(log) && builder.Valid()
    modifies state, builder
    ensures state.Valid() && state.View() == RecordAll(log + actions) && builder.Valid()
    ensures var a, b := syn.objects[i].identity, rea.objects[j].identity;
            && (complete ==> actions == VisitActions(syn, rea, Both(i, j)))
            && (complete ==>
                  compared' ==
                  if Eligible(syn, rea, Both(i, j)) && a != 0 && b != 0 then compared + {(a, b)} else compared)
    ensures complete ==>
              VisitsFit(|syn.objects[i].streams|, |rea.objects[j].streams|, StreamJoin(syn.objects[i], rea.objects[j]))
    ensures complete ==> builder.candidates == old(builder.candidates) + PairTasks(syn, rea, i, j, compared)
  {
    actions := RecordFailures(syn, rea, syn.objects[i], rea.objects[j], fs, fr, state, log);
    var bothOpened := fs.open.None? && fr.open.None?;
    ghost var more;
    complete, compared', more := CompareContents(syn, rea, i, j, bothOpened, compared, state, builder, log + actions);
    Regroup(log, actions, more);
    actions := actions + more;
    if complete { PairActions(syn, rea, i, j); }
  }

  /** The remembered identities are those of the eligible pairs visited so far. */
  ghost predicate Remembers(syn: Inventory, rea: Inventory, visited: seq<Visit>, compared: set<(nat, nat)>) {
    && AllInRange(syn, rea, visited)
    && forall a: nat, b: nat :: (a, b) in compared <==> a != 0 && b != 0 && SeenPair(syn, rea, visited, a, b)
  }

  lemma RemembersOneMore(
    syn: Inventory, rea: Inventory, visited: seq<Visit>, compared: set<(nat, nat)>, v: Visit,
    compared': set<(nat, nat)>)
    requires Remembers(syn, rea, visited, compared) && InRange(syn, rea, v)
    requires compared' == if Eligible(syn, rea, v) && syn.objects[v.i].identity != 0 && rea.objects[v.j].identity != 0
                          then compared + {(syn.objects[v.i].identity, rea.objects[v.j].identity)} else compared
    ensures Remembers(syn, rea, visited + [v], compared')
  {
    assert forall n :: 0 <= n < |visited| ==> (visited + [v])[n] == visited[n];
    assert (visited + [v])[|visited|] == v;
    forall a: nat, b: nat | (a, b) in compared' ensures a != 0 && b != 0 && SeenPair(syn, rea, visited + [v], a, b) {
      if (a, b) in compared {
        var n :| 0 <= n < |visited| && Eligible(syn, rea, visited[n])
                 && syn.objects[visited[n].i].identity == a && rea.objects[visited[n].j].identity == b;
        assert Eligible(syn, rea, (visited + [v])[n]);
      } else {
        assert Eligible(syn, rea, (visited + [v])[|visited|]);
      }
    }
    forall a: nat, b: nat | a != 0 && b != 0 && SeenPair(syn, rea, visited + [v], a, b) ensures (a, b) in compared' {
      var n :| 0 <= n < |visited + [v]| && Eligible(syn, rea, (visited + [v])[n])
               && syn.objects[(visited + [v])[n].i].identity == a && rea.objects[(visited + [v])[n].j].identity == b;
      if n < |visited| { assert SeenPair(syn, rea, visited, a, b); }
    }
  }

  lemma ActionsOneMore(syn: Inventory, rea: Inventory, visits: seq<Visit>, v: Visit)
    requires AllInRange(syn, rea, visits) && InRange(syn, rea, v)
    ensures AllInRange(syn, rea, visits + [v])
    ensures ActionsOf(syn, rea, visits + [v]) == ActionsOf(syn, rea, visits) + VisitActions(syn, rea, v)
    ensures TasksOf(syn, rea, visits + [v]) == TasksOf(syn, rea, visits) + VisitTasks(syn, rea, visits, v)
  {
    assert (visits + [v])[..|visits|] == visits;
  }

  lemma CursorStays(inventory: Inventory, cursor: nat, i: nat)
    requires cursor <= |inventory.issues| && CursorBehind(inventory, cursor, i)
    ensures CursorBehind(inventory, cursor, i + 1)
  {
  }

  lemma PairTasksAreVisitTasks(
    syn: Inventory, rea: Inventory, i: nat, j: nat, visited: seq<Visit>, compared: set<(nat, nat)>)
    requires i < |syn.objects| && j < |rea.objects| && Remembers(syn, rea, visited, compared)
    requires VisitsFit(|syn.objects[i].streams|, |rea.objects[j].streams|, StreamJoin(syn.objects[i], rea.objects[j]))
    ensures PairTasks(syn, rea, i, j, compared) == VisitTasks(syn, rea, visited, Both(i, j))
  {
    var a, b := syn.objects[i].identity, rea.objects[j].identity;
    assert (a, b) in compared <==> a != 0 && b != 0 && SeenPair(syn, rea, visited, a, b);
  }

  /** An object of one side only: reported unless it lies below a directory the other side could not read. */
  method VisitOneSided(syn: Inventory, rea: Inventory, v: Visit, state: VerificationState, ghost log: seq<Action>)
    returns (ghost actions: seq<Action>)
    requires InRange(syn, rea, v) && !v.Both?
    requires state.Valid() && state.View() == RecordAll(log)
    modifies state
    ensures state.Valid() && state.View() == RecordAll(log + actions) && actions == VisitActions(syn, rea, v)
  {
    var incomplete := if v.OnlyLeft? then rea.incompleteDirectories else syn.incompleteDirectories;
    var path := if v.OnlyLeft? then syn.objects[v.i].path else rea.objects[v.j].path;
    actions := [];
    assert log + [] == log;
    if !IsBelowIncompleteDirectory(incomplete, path) {
      var m := Plain(if v.OnlyLeft? then ObjectMissingFromReal else ObjectMissingFromSynthetic, path, "");
      ReportMismatch(state, m, log);
      actions := [RecordMismatch(m)];
    }
  }

  /** The side, or both sides, whose entry comes next. */
  method NextVisit(syn: Inventory, rea: Inventory, i: nat, j: nat) returns (v: Visit, i': nat, j': nat)
    requires i <= |syn.objects| && j <= |rea.objects| && (i < |syn.objects| || j < |rea.objects|)
    ensures i' == i + (if v.OnlyRight? then 0 else 1) <= |syn.objects|
    ensures j' == j + (if v.OnlyLeft? then 0 else 1) <= |rea.objects|
    ensures InRange(syn, rea, v) && (v.Both? ==> v == Both(i, j) && syn.objects[i].path == rea.objects[j].path)
    ensures Join(ObjectPaths(syn.objects), ObjectPaths(rea.objects), i, j) == [v]
            + Join(ObjectPaths(syn.objects), ObjectPaths(rea.objects), i', j')
  {
    if i == |syn.objects| {
      v, i', j' := OnlyRight(j), i, j + 1;
    } else if j == |rea.objects| {
      v, i', j' := OnlyLeft(i), i + 1, j;
    } else {
      LessTrichotomy(syn.objects[i].path, rea.objects[j].path);
      if Less(syn.objects[i].path, rea.objects[j].path) {
        v, i', j' := OnlyLeft(i), i + 1, j;
      } else if Less(rea.objects[j].path, syn.objects[i].path) {
        v, i', j' := OnlyRight(j), i, j + 1;
      } else {
        v, i', j' := Both(i, j), i + 1, j + 1;
      }
    }
  }

  /** A matched pair with its cursors moved and its identities remembered. */
  method VisitMatched(
    syn: Inventory, rea: Inventory, i: nat, j: nat, cursorS: nat, cursorR: nat, compared: set<(nat, nat)>,
    state: VerificationState, builder: PlanBuilder, ghost log: seq<Action>, ghost visited: seq<Visit>)
    returns (complete: bool, cursorS': nat, cursorR': nat, compared': set<(nat, nat)>, ghost actions: seq<Action>)
    requires WellFormed(syn) && WellFormed(rea) && i < |syn.objects| && j < |rea.objects|
    requires syn.objects[i].path == rea.objects[j].path
    requires cursorS <= |syn.issues| && cursorR <= |rea.issues| && CursorBehind(syn, cursorS, i)
    requires CursorBehind(rea, cursorR, j)
    requires Remembers(syn, rea, visited, compared)
    requires state.Valid() && state.View() == RecordAll(log) && builder.Valid()
    modifies state, builder
    ensures state.Valid() && state.View() == RecordAll(log + actions) && builder.Valid()
    ensures cursorS' <= |syn.issues| && cursorR' <= |rea.issues| && CursorBehind(syn, cursorS', i + 1)
    ensures CursorBehind(rea, cursorR', j + 1)
    ensures complete ==>
            actions == VisitActions(syn, rea, Both(i, j)) && Remembers(syn, rea, visited + [Both(i, j)], compared')
    ensures complete ==> builder.candidates == old(builder.candidates) + VisitTasks(syn, rea, visited, Both(i, j))
  {
    var fs, fr;
    fs, cursorS' := TakeFailures(syn, cursorS, i);
    fr, cursorR' := TakeFailures(rea, cursorR, j);
    complete, compared', actions := ComparePair(syn, rea, i, j, fs, fr, compared, state, builder, log);
    if complete {
      PairTasksAreVisitTasks(syn, rea, i, j, visited, compared);
      RemembersOneMore(syn, rea, visited, compared, Both(i, j), compared');
    }
  }

  /** The visits up to the positions `i` and `j` of the join. */
  ghost predicate VisitsUpTo(syn: Inventory, rea: Inventory, i: nat, j: nat, visited: seq<Visit>)
    requires i <= |syn.objects| && j <= |rea.objects|
  {
    visited + Join(ObjectPaths(syn.objects), ObjectPaths(rea.objects), i, j) == ObjectJoin(syn, rea)
  }

  lemma VisitsOneMore(
    syn: Inventory, rea: Inventory, i: nat, j: nat, i': nat, j': nat, visited: seq<Visit>, v: Visit)
    requires i <= i' <= |syn.objects| && j <= j' <= |rea.objects| && VisitsUpTo(syn, rea, i, j, visited)
    requires Join(ObjectPaths(syn.objects), ObjectPaths(rea.objects), i, j) ==
             [v] + Join(ObjectPaths(syn.objects), ObjectPaths(rea.objects), i', j')
    ensures VisitsUpTo(syn, rea, i', j', visited + [v])
  {
    Regroup(visited, [v], Join(ObjectPaths(syn.objects), ObjectPaths(rea.objects), i', j'));
  }

  lemma AllVisited(syn: Inventory, rea: Inventory, visited: seq<Visit>)
    requires VisitsUpTo(syn, rea, |syn.objects|, |rea.objects|, visited)
    ensures visited == ObjectJoin(syn, rea)
  {
    assert visited + [] == visited;
  }

  method VisitNext(
    syn: Inventory, rea: Inventory, v: Visit, i: nat, j: nat, ghost i': nat, ghost j': nat, cursorS: nat, cursorR: nat,
    compared: set<(nat, nat)>, state: VerificationState, builder: PlanBuilder, ghost log: seq<Action>,
    ghost visited: seq<Visit>)
    returns (complete: bool, cursorS': nat, cursorR': nat, compared': set<(nat, nat)>, ghost actions: seq<Action>)
    requires WellFormed(syn) && WellFormed(rea) && InRange(syn, rea, v)
    requires i' == i + (if v.OnlyRight? then 0 else 1) <= |syn.objects|
    requires j' == j + (if v.OnlyLeft? then 0 else 1) <= |rea.objects|
    requires v.Both? ==> v == Both(i, j) && syn.objects[i].path == rea.objects[j].path
    requires cursorS <= |syn.issues| && cursorR <= |rea.issues|
    requires CursorBehind(syn, cursorS, i) && CursorBehind(rea, cursorR, j)
    requires Remembers(syn, rea, visited, compared)
    requires state.Valid() && state.View() == RecordAll(log) && builder.Valid()
    modifies state, builder
    ensures state.Valid() && state.View() == RecordAll(log + actions) && builder.Valid()
    ensures cursorS' <= |syn.issues| && cursorR' <= |rea.issues|
    ensures CursorBehind(syn, cursorS', i') && CursorBehind(rea, cursorR', j')
    ensures complete ==> actions == VisitActions(syn, rea, v) && Remembers(syn, rea, visited + [v], compared')
    ensures complete ==> builder.candidates == old(builder.candidates) + VisitTasks(syn, rea, visited, v)
  {
    if v.Both? {
      complete, cursorS', cursorR', compared', actions :=
        VisitMatched(syn, rea, i, j, cursorS, cursorR, compared, state, builder, log, visited);
    } else {
      complete, cursorS', cursorR', compared' := true, cursorS, cursorR, compared;
      actions := VisitOneSided(syn, rea, v, state, log);
      RemembersOneMore(syn, rea, visited, compared, v, compared);
      CursorStays(syn, cursorS, i);
      CursorStays(rea, cursorR, j);
    }
  }

  /**
   Compares two inventories. Unless cancelled, it records exactly what the
   join of the two sorted inventories reports, and returns a plan over exactly
   the tasks of that join, whatever the random draws were.
   */
  method BuildComparisonPlan(
    syn: Inventory, rea: Inventory, full: bool, state: VerificationState, ghost log: seq<Action>)
    returns (plan: Option<ComparisonPlan>, ghost actions: seq<Action>)
    requires WellFormed(syn) && WellFormed(rea)
    requires state.Valid() && state.View() == RecordAll(log)
    modifies state
    ensures state.Valid() && state.View() == RecordAll(log + actions)
    ensures plan.Some? ==>
              && AllInRange(syn, rea, ObjectJoin(syn, rea))
              && actions == ActionsOf(syn, rea, ObjectJoin(syn, rea))
              && IsPlan(TasksOf(syn, rea, ObjectJoin(syn, rea)), full, plan.value)
  {
    var builder := new PlanBuilder(full);
    ghost var visited: seq<Visit> := [];
    actions := [];
    assert log + [] == log;
    var i: nat, j: nat, cursorS: nat, cursorR: nat := 0, 0, 0, 0;
    var compared: set<(nat, nat)> := {};
    while i < |syn.objects| || j < |rea.objects|
      invariant i <= |syn.objects| && j <= |rea.objects|
      invariant cursorS <= |syn.issues| && cursorR <= |rea.issues| && CursorBehind(syn, cursorS, i)
      invariant CursorBehind(rea, cursorR, j)
      invariant Remembers(syn, rea, visited, compared)
      invariant VisitsUpTo(syn, rea, i, j, visited)
      invariant actions == ActionsOf(syn, rea, visited)
      invariant builder.Valid() && fresh(builder) && builder.full == full
      invariant builder.candidates == TasksOf(syn, rea, visited)
      invariant state.Valid() && state.View() == RecordAll(log + actions)
      decreases |syn.objects| - i + |rea.objects| - j
    {
      if * { return None, actions; }
      var v, i', j' := NextVisit(syn, rea, i, j);
      var complete;
      ghost var more;
      complete, cursorS, cursorR, compared, more :=
        VisitNext(syn, rea, v, i, j, i', j', cursorS, cursorR, compared, state, builder, log + actions, visited);
      Regroup(log, actions, more);
      if !complete { return None, actions + more; }
      ActionsOneMore(syn, rea, visited, v);
      VisitsOneMore(syn, rea, i, j, i', j', visited, v);
      visited, actions := visited + [v], actions + more;
      i, j := i', j';
    }
    AllVisited(syn, rea, visited);
    var result := builder.Finish();
    return Some(result), actions;
  }
}
