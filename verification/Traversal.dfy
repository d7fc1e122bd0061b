/**
 `FilesystemTraverser`: workers take directories and files from a shared queue,
 and every lock-protected section of theirs is one step. Steps of different
 workers interleave freely; cancellation and exceptions may strike at any time.
 */
module Traversal {
  import opened Common
  import opened Filesystem

  datatype Task = Task(path: string, kind: ObjectKind, identity: Option<nat>)

  const ROOT := Task("", Directory, None)

  /** The lock-protected updates a worker makes for one task. */
  datatype Effect =
    | Issue(issue: InventoryIssue, incompleteDirectory: bool)
    | Commit(record: ObjectRecord)
    | Queue(tasks: seq<Task>)
    | Complete

  datatype Reason = NoWork | Stopped | Threw

  datatype Worker =
    | Idle
    | Looking(task: Task, ticket: nat)
    | Running(task: Task, ticket: nat, script: seq<Effect>)
    | Left(reason: Reason, holding: bool)

  /**
   The shared state, and history that no step reads: the tasks ever queued, how
   many were taken, how many effects each taken task performed, which task and
   batch entry each queued task came from, and which task committed each object.
   */
  datatype State = State(
    pending: seq<Task>,
    active: int,
    workers: seq<Worker>,
    objects: seq<ObjectRecord>,
    issues: seq<InventoryIssue>,
    incomplete: seq<string>,
    streamsByIdentity: map<nat, nat>,
    cancelled: bool,
    failed: bool,
    discovered: seq<Task>,
    taken: nat,
    done: seq<nat>,
    origins: seq<Origin>,
    committedBy: seq<nat>)

  datatype Origin = Origin(parent: nat, effect: nat, entry: nat)

  function Initial(workerCount: nat): State {
    State([ROOT], 0, seq(workerCount, _ => Idle), [], [], [], map[], false, false,
          [ROOT], 0, [], [Origin(0, 0, 0)], [])
  }

  predicate IsDot(name: string) { name == "." || name == ".." }

  /** The positions below `n` of entries other than "." and "..", in order. */
  function Visible(batch: seq<Entry>, n: nat): (positions: seq<nat>)
    requires n <= |batch|
    ensures forall a, b :: 0 <= a < b < |positions| ==> positions[a] < positions[b]
    ensures forall a :: 0 <= a < |positions| ==> positions[a] < n && !IsDot(batch[positions[a]].name)
    ensures forall i :: 0 <= i < n && !IsDot(batch[i].name) ==> i in positions
  {
    if n == 0 then [] else Visible(batch, n - 1) + (if IsDot(batch[n - 1].name) then [] else [n - 1])
  }

  function Child(path: string, e: Entry): Task { Task(ChildPath(path, e.name), e.kind, Some(e.identity)) }

  function Children(path: string, batch: seq<Entry>): (tasks: seq<Task>) {
    var positions := Visible(batch, |batch|);
    seq(|positions|, m requires 0 <= m < |positions| => Child(path, batch[positions[m]]))
  }

  lemma ChildrenAreVisible(path: string, batch: seq<Entry>, t: Task)
    ensures t in Children(path, batch) <==> exists e :: e in batch && !IsDot(e.name) && t == Child(path, e)
  {
    var positions := Visible(batch, |batch|);
    var tasks := Children(path, batch);
    if t in tasks {
      var m :| 0 <= m < |tasks| && tasks[m] == t;
      assert batch[positions[m]] in batch;
    }
    forall e | e in batch && !IsDot(e.name) ensures Child(path, e) in tasks {
      var i :| 0 <= i < |batch| && batch[i] == e;
      var m :| 0 <= m < |positions| && positions[m] == i;
      assert tasks[m] == Child(path, e);
    }
  }

  function QueueAll(path: string, batches: seq<seq<Entry>>): (effects: seq<Effect>)
    ensures |effects| == |batches|
    ensures forall i :: 0 <= i < |batches| ==> effects[i] == Queue(Children(path, batches[i]))
  {
    seq(|batches|, i requires 0 <= i < |batches| => Queue(Children(path, batches[i])))
  }

  function Bare(t: Task): ObjectRecord {
    ObjectRecord(t.path, t.kind, if t.identity.Some? then t.identity.value else 0, [], false)
  }

  function WithStreams(t: Task, streams: seq<StreamRecord>): ObjectRecord {
    Bare(t).(streams := streams, streamsComplete := true)
  }

  /** The updates of `Process` for one task, given what the stream cache answered. */
  function Script(vol: Volume, t: Task, cached: Option<seq<StreamRecord>>): (script: seq<Effect>) {
    var refusal := vol.open(t.path);
    if refusal.Some? then
      [Issue(InventoryIssue(t.path, OpenObject, refusal.value), t.kind == Directory), Commit(Bare(t)), Complete]
    else if cached.Some? then
      [Commit(WithStreams(t, cached.value)), Complete]
    else
      (match vol.query(t.path)
       case Streams(records) => [Commit(WithStreams(t, records))]
       case StreamsFailed(f) => [Issue(InventoryIssue(t.path, QueryStreams, f), false), Commit(Bare(t))])
      + (if t.kind != Directory then []
         else
           var listing := vol.list(t.path);
           QueueAll(t.path, listing.batches) +
           (if listing.failure.None? then []
            else [Issue(InventoryIssue(t.path, QueryDirectory, listing.failure.value), true)]))
      + [Complete]
  }

  /** `CachedStreams`, consulted only for non-directories that carry an identity. */
  function CachedStreams(s: State, t: Task): Option<seq<StreamRecord>> {
    if t.kind == Directory || t.identity.None? || t.identity.value == 0 ||
      t.identity.value !in s.streamsByIdentity then None
    else
      var index := s.streamsByIdentity[t.identity.value];
      if index < |s.objects| then Some(s.objects[index].streams) else None
  }

  datatype Step = Take(w: nat) | Look(w: nat) | Perform(w: nat) | Abandon(w: nat) | Throw(w: nat) | Cancel

  predicate Enabled(s: State, step: Step) {
    match step
    case Cancel => true
    case Take(w) => w < |s.workers| && s.workers[w].Idle?
    case Look(w) => w < |s.workers| && s.workers[w].Looking?
    case Perform(w) => w < |s.workers| && s.workers[w].Running? && s.workers[w].script != []
    case Abandon(w) => w < |s.workers| && s.cancelled && (s.workers[w].Looking? || s.workers[w].Running?)
    case Throw(w) => w < |s.workers| && !s.workers[w].Left?
  }

  function TakeStep(s: State, w: nat): State
    requires Enabled(s, Take(w))
  {
    if s.cancelled || s.failed then s.(workers := s.workers[w := Left(Stopped, false)])
    else if s.pending != [] then
      s.(workers := s.workers[w := Looking(s.pending[0], s.taken)], pending := s.pending[1..],
         active := s.active + 1, taken := s.taken + 1, done := s.done + [0])
    else if s.active == 0 then s.(workers := s.workers[w := Left(NoWork, false)])
    else s
  }

  function PerformStep(s: State, w: nat): State
    requires Enabled(s, Perform(w))
  {
    var Running(task, ticket, script) := s.workers[w];
    var s' := s.(workers := s.workers[w := Running(task, ticket, script[1..])],
                 done := if ticket < |s.done| then s.done[ticket := s.done[ticket] + 1] else s.done);
    match script[0]
    case Issue(issue, incompleteDirectory) =>
      s'.(issues := s.issues + [issue],
          incomplete := if incompleteDirectory then s.incomplete + [issue.path] else s.incomplete)
    case Commit(o) =>
      s'.(objects := s.objects + [o], committedBy := s.committedBy + [ticket],
          streamsByIdentity :=
            if o.streamsComplete && o.kind != Directory && o.identity != 0 && o.identity !in s.streamsByIdentity
            then s.streamsByIdentity[o.identity := |s.objects|] else s.streamsByIdentity)
    case Queue(tasks) =>
      if s.cancelled || s.failed then s'
      else
        var index := if ticket < |s.done| then s.done[ticket] else 0;
        s'.(pending := s.pending + tasks, discovered := s.discovered + tasks,
            origins := s.origins + seq(|tasks|, n requires 0 <= n => Origin(ticket, index, n)))
    case Complete => s'.(workers := s.workers[w := Idle], active := s.active - 1)
  }

  function Apply(vol: Volume, s: State, step: Step): State
    requires Enabled(s, step)
  {
    match step
    case Cancel => s.(cancelled := true)
    case Take(w) => TakeStep(s, w)
    case Look(w) =>
      var Looking(task, ticket) := s.workers[w];
      s.(workers := s.workers[w := Running(task, ticket, Script(vol, task, CachedStreams(s, task)))])
    case Perform(w) => PerformStep(s, w)
    case Abandon(w) => s.(workers := s.workers[w := Left(Stopped, true)])
    case Throw(w) => s.(workers := s.workers[w := Left(Threw, !s.workers[w].Idle?)], failed := true)
  }

  /** The state after a schedule; a step that is not enabled when its turn comes does nothing. */
  function After(vol: Volume, workerCount: nat, schedule: seq<Step>): State
    decreases |schedule|
  {
    if schedule == [] then Initial(workerCount)
    else
      var before := After(vol, workerCount, schedule[..|schedule| - 1]);
      var step := schedule[|schedule| - 1];
      if Enabled(before, step) then Apply(vol, before, step) else before
  }

  // ----- Leaving for lack of work -----

  predicate Busy(w: Worker) { w.Looking? || w.Running? || (w.Left? && w.holding) }

  function BusyCount(workers: seq<Worker>): nat {
    if workers == [] then 0 else (if Busy(workers[0]) then 1 else 0) + BusyCount(workers[1..])
  }

  lemma {:induction false} BusyCountUpdate(workers: seq<Worker>, w: nat, new_: Worker)
    requires w < |workers|
    ensures BusyCount(workers[w := new_])
            == BusyCount(workers) - (if Busy(workers[w]) then 1 else 0) + (if Busy(new_) then 1 else 0)
  {
    if w > 0 {
      BusyCountUpdate(workers[1..], w - 1, new_);
      assert workers[w := new_][1..] == workers[1..][w - 1 := new_];
    }
  }

  lemma {:induction false} BusyWorkerCounts(workers: seq<Worker>, w: nat)
    requires w < |workers| && Busy(workers[w])
    ensures BusyCount(workers) > 0
  {
    if w > 0 { BusyWorkerCounts(workers[1..], w - 1); }
  }

  lemma {:induction false} IdleWorkersCountNothing(n: nat)
    ensures BusyCount(seq(n, _ => Idle)) == 0
  {
    if n > 0 {
      IdleWorkersCountNothing(n - 1);
      assert seq(n, _ => Idle)[1..] == seq(n - 1, _ => Idle);
    }
  }

  predicate Exhausted(s: State) { s.pending == [] && s.active == 0 }

  predicate LeftRightly(w: Worker, exhausted: bool, cancelled: bool, failed: bool) {
    w.Left? ==>
      && (w.reason == NoWork ==> exhausted && !w.holding)
      && (w.reason != NoWork ==> cancelled || failed)
  }

  /**
   The active counter is the number of workers holding a task, and nobody left for lack of
   work while any remained.
   */
  ghost predicate QueueInvariant(s: State) {
    && s.active == BusyCount(s.workers)
    && forall w :: 0 <= w < |s.workers| ==> LeftRightly(s.workers[w], Exhausted(s), s.cancelled, s.failed)
  }

  lemma OneWorkerMoves(s: State, s': State, w: nat)
    requires QueueInvariant(s) && w < |s.workers| == |s'.workers|
    requires s'.workers == s.workers[w := s'.workers[w]]
    requires s'.active == s.active - (if Busy(s.workers[w]) then 1 else 0) + (if Busy(s'.workers[w]) then 1 else 0)
    requires Exhausted(s) ==> Exhausted(s')
    requires (s.cancelled ==> s'.cancelled) && (s.failed ==> s'.failed)
    requires LeftRightly(s'.workers[w], Exhausted(s'), s'.cancelled, s'.failed)
    ensures QueueInvariant(s')
  {
    BusyCountUpdate(s.workers, w, s'.workers[w]);
    forall v | 0 <= v < |s'.workers| ensures LeftRightly(s'.workers[v], Exhausted(s'), s'.cancelled, s'.failed) {
      if v != w { assert s'.workers[v] == s.workers[v]; }
    }
  }

  lemma PerformKeepsQueueInvariant(s: State, w: nat)
    requires QueueInvariant(s) && Enabled(s, Perform(w))
    ensures QueueInvariant(PerformStep(s, w)) && !Exhausted(s)
  {
    BusyWorkerCounts(s.workers, w);
    OneWorkerMoves(s, PerformStep(s, w), w);
  }

  lemma TakeKeepsQueueInvariant(s: State, w: nat)
    requires QueueInvariant(s) && Enabled(s, Take(w))
    ensures QueueInvariant(TakeStep(s, w))
    ensures Exhausted(s) ==> Exhausted(TakeStep(s, w))
  {
    OneWorkerMoves(s, TakeStep(s, w), w);
  }

  lemma StepKeepsQueueInvariant(vol: Volume, s: State, step: Step)
    requires QueueInvariant(s) && Enabled(s, step)
    ensures QueueInvariant(Apply(vol, s, step))
    ensures Exhausted(s) ==> Exhausted(Apply(vol, s, step))
  {
    match step
    case Cancel =>
    case Take(w) => TakeKeepsQueueInvariant(s, w);
    case Look(w) => OneWorkerMoves(s, Apply(vol, s, step), w);
    case Perform(w) => PerformKeepsQueueInvariant(s, w);
    case Abandon(w) => OneWorkerMoves(s, Apply(vol, s, step), w);
    case Throw(w) => OneWorkerMoves(s, Apply(vol, s, step), w);
  }

  lemma {:induction false} ScheduleKeepsQueueInvariant(vol: Volume, workerCount: nat, schedule: seq<Step>)
    ensures QueueInvariant(After(vol, workerCount, schedule))
    decreases |schedule|
  {
    if schedule == [] {
      IdleWorkersCountNothing(workerCount);
    } else {
      ScheduleKeepsQueueInvariant(vol, workerCount, schedule[..|schedule| - 1]);
      var before := After(vol, workerCount, schedule[..|schedule| - 1]);
      var step := schedule[|schedule| - 1];
      if Enabled(before, step) { StepKeepsQueueInvariant(vol, before, step); }
    }
  }

  /** Once nothing is pending or active, no later step changes what was found. */
  lemma {:induction false} ExhaustionIsFinal(vol: Volume, workerCount: nat, schedule: seq<Step>, more: seq<Step>)
    requires Exhausted(After(vol, workerCount, schedule))
    ensures var s, s' := After(vol, workerCount, schedule), After(vol, workerCount, schedule + more);
            && Exhausted(s') && s'.objects == s.objects && s'.issues == s.issues && s'.discovered == s.discovered
    decreases |more|
  {
    if more == [] {
      assert schedule + more == schedule;
    } else {
      var fewer := more[..|more| - 1];
      ExhaustionIsFinal(vol, workerCount, schedule, fewer);
      var before := After(vol, workerCount, schedule + fewer);
      var step := more[|more| - 1];
      assert (schedule + more)[..|schedule + more| - 1] == schedule + fewer;
      ScheduleKeepsQueueInvariant(vol, workerCount, schedule + fewer);
      if Enabled(before, step) {
        StepKeepsQueueInvariant(vol, before, step);
        if step.Perform? { BusyWorkerCounts(before.workers, step.w); }
      }
    }
  }

  /**
   In every run, a worker that left for lack of work left nothing behind: no
   task is pending, no worker still holds one, and none appears however the
   run continues.
   */
  lemma WorkerLeavesOnlyWhenDone(vol: Volume, workerCount: nat, schedule: seq<Step>, more: seq<Step>, w: nat)
    requires w < |After(vol, workerCount, schedule).workers|
    requires After(vol, workerCount, schedule).workers[w] == Left(NoWork, false)
    ensures var s, s' := After(vol, workerCount, schedule), After(vol, workerCount, schedule + more);
            && s'.pending == [] && s'.discovered == s.discovered && s'.objects == s.objects
            && forall v :: 0 <= v < |s'.workers| ==> !Busy(s'.workers[v])
  {
    ScheduleKeepsQueueInvariant(vol, workerCount, schedule);
    assert LeftRightly(After(vol, workerCount, schedule).workers[w], Exhausted(After(vol, workerCount, schedule)),
      After(vol, workerCount, schedule).cancelled, After(vol, workerCount, schedule).failed);
    ExhaustionIsFinal(vol, workerCount, schedule, more);
    ScheduleKeepsQueueInvariant(vol, workerCount, schedule + more);
    var s' := After(vol, workerCount, schedule + more);
    forall v | 0 <= v < |s'.workers| ensures !Busy(s'.workers[v]) {
      if Busy(s'.workers[v]) { BusyWorkerCounts(s'.workers, v); }
    }
  }

  // ----- What an undisturbed run commits -----

  function Full(vol: Volume, t: Task): seq<Effect> { Script(vol, t, None) }

  predicate StreamsKnown(vol: Volume, t: Task) {
    vol.open(t.path).None? && vol.query(t.path).Streams?
  }

  /** The inventory record the volume determines for a task. */
  function ObjectOf(vol: Volume, t: Task): ObjectRecord {
    if StreamsKnown(vol, t) then WithStreams(t, vol.query(t.path).records) else Bare(t)
  }

  function CommitIndex(vol: Volume, t: Task): nat { if StreamsKnown(vol, t) then 0 else 1 }

  ghost predicate Listed(vol: Volume, path: string, e: Entry) {
    !IsDot(e.name) && exists b :: 0 <= b < |vol.list(path).batches| && e in vol.list(path).batches[b]
  }

  /** Links to one file show the same streams and bytes. */
  ghost predicate IdentityDetermines(vol: Volume) {
    forall p1, e1, p2, e2 :: Listed(vol, p1, e1) && Listed(vol, p2, e2) && e1.identity == e2.identity != 0 ==>
      SameFile(vol, ChildPath(p1, e1.name), ChildPath(p2, e2.name))
  }

  ghost predicate SameFile(vol: Volume, path1: string, path2: string) {
    && vol.query(path1) == vol.query(path2)
    && (forall stream :: vol.openStream(path1, stream) == vol.openStream(path2, stream))
    && (forall stream, offset :: vol.seek(path1, stream, offset) == vol.seek(path2, stream, offset))
    && (forall stream, offset, length ::
          vol.read(path1, stream, offset, length) == vol.read(path2, stream, offset, length))
  }

  lemma QueueEffectIsBatch(vol: Volume, t: Task, i: nat)
    requires i < |Full(vol, t)| && Full(vol, t)[i].Queue?
    ensures var b := i - CommitIndex(vol, t) - 1;
            && 0 <= b < |vol.list(t.path).batches|
            && Full(vol, t)[i].tasks == Children(t.path, vol.list(t.path).batches[b])
  {
  }

  lemma BatchIsQueued(vol: Volume, t: Task, b: nat)
    requires vol.open(t.path).None? && t.kind == Directory && b < |vol.list(t.path).batches|
    ensures var i := CommitIndex(vol, t) + 1 + b;
            i < |Full(vol, t)| && Full(vol, t)[i] == Queue(Children(t.path, vol.list(t.path).batches[b]))
  {
  }

  lemma ScriptFacts(vol: Volume, t: Task)
    ensures var full := Full(vol, t);
            && |full| >= 2 && full[|full| - 1] == Complete
            && (forall i :: 0 <= i < |full| - 1 ==> full[i] != Complete)
            && full[CommitIndex(vol, t)] == Commit(ObjectOf(vol, t))
            && (forall i :: 0 <= i < |full| && full[i].Commit? ==> i == CommitIndex(vol, t))
    ensures forall i, c :: 0 <= i < |Full(vol, t)| && Full(vol, t)[i].Queue? && c in Full(vol, t)[i].tasks ==>
              exists e :: Listed(vol, t.path, e) && c == Child(t.path, e)
  {
    var full := Full(vol, t);
    forall i, c | 0 <= i < |full| && full[i].Queue? && c in full[i].tasks
      ensures exists e :: Listed(vol, t.path, e) && c == Child(t.path, e)
    {
      var b := i - CommitIndex(vol, t) - 1;
      QueueEffectIsBatch(vol, t, i);
      ChildrenAreVisible(t.path, vol.list(t.path).batches[b], c);
      var e :| e in vol.list(t.path).batches[b] && !IsDot(e.name) && c == Child(t.path, e);
      assert Listed(vol, t.path, e);
    }
  }

  /** One commit, and completion last and only last. */
  ghost predicate Proper(script: seq<Effect>) {
    && |script| >= 2 && script[|script| - 1] == Complete
    && (forall i :: 0 <= i < |script| - 1 ==> script[i] != Complete)
  }

  type Scripts = Task -> seq<Effect>

  ghost predicate AllProper(full: Scripts) { forall t :: Proper(full(t)) }

  ghost predicate Shape(full: Scripts, s: State) {
    && |s.done| == s.taken <= |s.discovered| == |s.origins|
    && |s.discovered| > 0 && s.discovered[0] == ROOT
    && s.pending == s.discovered[s.taken..]
    && |s.committedBy| == |s.objects|
    && forall k :: 0 <= k < s.taken ==> s.done[k] <= |full(s.discovered[k])|
  }

  predicate Holds(w: Worker, k: nat) { (w.Looking? || w.Running?) && w.ticket == k }

  /** What a worker still has to do is exactly the rest of its task's script. */
  ghost predicate OnTrack(full: Scripts, s: State, w: Worker)
    requires Shape(full, s)
  {
    (w.Looking? || w.Running?) ==>
      && w.ticket < s.taken && w.task == s.discovered[w.ticket]
      && (w.Looking? ==> s.done[w.ticket] == 0)
      && (w.Running? ==> s.done[w.ticket] < |full(w.task)| && w.script == full(w.task)[s.done[w.ticket]..])
  }

  ghost predicate Holding(full: Scripts, s: State)
    requires Shape(full, s)
  {
    && (forall w :: 0 <= w < |s.workers| ==> OnTrack(full, s, s.workers[w]))
    && (forall v, w, k ::
          0 <= v < |s.workers| && 0 <= w < |s.workers| && Holds(s.workers[v], k) && Holds(s.workers[w], k) ==> v == w)
    && (forall k :: 0 <= k < s.taken && s.done[k] < |full(s.discovered[k])| ==>
          exists w :: 0 <= w < |s.workers| && Holds(s.workers[w], k))
  }

  /** Moving one worker, and the progress of its own ticket only, keeps every other worker on track. */
  lemma HoldingFrame(full: Scripts, s: State, s': State, w: nat)
    requires Shape(full, s) && Holding(full, s) && Shape(full, s')
    requires w < |s.workers| == |s'.workers| && s'.workers == s.workers[w := s'.workers[w]]
    requires s.discovered <= s'.discovered && s.taken <= s'.taken
    requires forall k :: 0 <= k < s.taken && !Holds(s.workers[w], k) ==> s'.done[k] == s.done[k]
    requires OnTrack(full, s', s'.workers[w])
    requires forall k: nat :: Holds(s'.workers[w], k) ==> Holds(s.workers[w], k) || k >= s.taken
    requires forall k :: 0 <= k < s'.taken && (k >= s.taken || Holds(s.workers[w], k)) && !Holds(s'.workers[w], k) ==>
               s'.done[k] == |full(s'.discovered[k])|
    ensures Holding(full, s')
  {
    forall v | 0 <= v < |s'.workers| ensures OnTrack(full, s', s'.workers[v]) {
      if v != w {
        assert s'.workers[v] == s.workers[v] && OnTrack(full, s, s.workers[v]);
        if s.workers[v].Looking? || s.workers[v].Running? { assert Holds(s.workers[v], s.workers[v].ticket); }
      }
    }
    forall k | 0 <= k < s'.taken && s'.done[k] < |full(s'.discovered[k])|
      ensures exists v :: 0 <= v < |s'.workers| && Holds(s'.workers[v], k)
    {
      if !Holds(s'.workers[w], k) {
        var v :| 0 <= v < |s.workers| && Holds(s.workers[v], k);
        assert Holds(s'.workers[v], k);
      }
    }
  }

  lemma CalmTake(full: Scripts, s: State, w: nat)
    requires AllProper(full) && Shape(full, s) && Holding(full, s) && Enabled(s, Take(w)) && !s.cancelled && !s.failed
    ensures Shape(full, TakeStep(s, w)) && Holding(full, TakeStep(s, w))
  {
    if s.pending != [] { assert Proper(full(s.pending[0])); }
    HoldingFrame(full, s, TakeStep(s, w), w);
  }

  lemma CalmLook(full: Scripts, vol: Volume, s: State, w: nat)
    requires AllProper(full) && Shape(full, s) && Holding(full, s) && Enabled(s, Look(w))
    requires Script(vol, s.workers[w].task, CachedStreams(s, s.workers[w].task)) == full(s.workers[w].task)
    ensures Shape(full, Apply(vol, s, Look(w))) && Holding(full, Apply(vol, s, Look(w)))
  {
    assert OnTrack(full, s, s.workers[w]);
    assert Proper(full(s.workers[w].task));
    HoldingFrame(full, s, Apply(vol, s, Look(w)), w);
  }

  lemma PendingGrows(discovered: seq<Task>, taken: nat, tasks: seq<Task>)
    requires taken <= |discovered|
    ensures (discovered + tasks)[taken..] == discovered[taken..] + tasks
  {
  }

  lemma PerformKeepsShape(full: Scripts, s: State, w: nat)
    requires AllProper(full) && Shape(full, s) && Enabled(s, Perform(w)) && OnTrack(full, s, s.workers[w])
    ensures Shape(full, PerformStep(s, w))
  {
    var s' := PerformStep(s, w);
    assert Proper(full(s.workers[w].task));
    if s.workers[w].script[0].Queue? { PendingGrows(s.discovered, s.taken, s.workers[w].script[0].tasks); }
  }

  /** A performed effect is the next one of its task's script. */
  lemma PerformAdvances(full: Scripts, s: State, w: nat)
    requires Shape(full, s) && Enabled(s, Perform(w)) && OnTrack(full, s, s.workers[w])
    ensures var k := s.workers[w].ticket;
            && k < s.taken && PerformStep(s, w).done == s.done[k := s.done[k] + 1]
            && s.done[k] < |full(s.discovered[k])| && full(s.discovered[k])[s.done[k]] == s.workers[w].script[0]
  {
  }

  /** A worker goes on with its task, or leaves it finished. */
  lemma PerformKeepsTrack(full: Scripts, s: State, w: nat)
    requires Shape(full, s) && Enabled(s, Perform(w)) && OnTrack(full, s, s.workers[w])
    requires Proper(full(s.workers[w].task)) && Shape(full, PerformStep(s, w))
    ensures var s', k := PerformStep(s, w), s.workers[w].ticket;
            && OnTrack(full, s', s'.workers[w])
            && (Holds(s'.workers[w], k) || (s'.workers[w].Idle? && s'.done[k] == |full(s'.discovered[k])|))
            && (forall k': nat :: Holds(s'.workers[w], k') ==> k' == k)
  {
    ScriptEnds(full(s.workers[w].task), s.done[s.workers[w].ticket]);
  }

  lemma ScriptEnds(script: seq<Effect>, d: nat)
    requires Proper(script) && d < |script|
    ensures script[d] == Complete <==> d == |script| - 1
    ensures script[d..][0] == script[d] && script[d..][1..] == script[d + 1..]
  {
  }

  lemma CalmPerform(full: Scripts, s: State, w: nat)
    requires AllProper(full) && Shape(full, s) && Holding(full, s) && Enabled(s, Perform(w)) && !s.cancelled
    requires !s.failed
    ensures Shape(full, PerformStep(s, w)) && Holding(full, PerformStep(s, w))
    ensures var k := s.workers[w].ticket;
            && k < s.taken && PerformStep(s, w).done == s.done[k := s.done[k] + 1]
            && s.done[k] < |full(s.discovered[k])| && full(s.discovered[k])[s.done[k]] == s.workers[w].script[0]
  {
    assert OnTrack(full, s, s.workers[w]);
    assert Proper(full(s.workers[w].task));
    PerformAdvances(full, s, w);
    PerformKeepsShape(full, s, w);
    PerformKeepsTrack(full, s, w);
    HoldingFrame(full, s, PerformStep(s, w), w);
  }

  /** Effect `i` of ticket `k` has been performed. */
  ghost predicate Performed(full: Scripts, s: State, k: nat, i: nat) {
    && k < s.taken && k < |s.done| && k < |s.discovered|
    && i < s.done[k] && i < |full(s.discovered[k])|
  }

  function EffectAt(full: Scripts, s: State, k: nat, i: nat): Effect
    requires Performed(full, s, k, i)
  {
    full(s.discovered[k])[i]
  }

  /** Task `j` was queued as entry `o.entry` of a performed batch of an earlier task. */
  ghost predicate CameFrom(full: Scripts, s: State, j: nat, o: Origin) {
    && j < |s.discovered| && o.parent < j && Performed(full, s, o.parent, o.effect)
    && var e := EffectAt(full, s, o.parent, o.effect);
       e.Queue? && o.entry < |e.tasks| && s.discovered[j] == e.tasks[o.entry]
  }

  ghost predicate Provenance(full: Scripts, s: State) {
    && |s.discovered| == |s.origins|
    && (forall j :: 0 < j < |s.discovered| ==> CameFrom(full, s, j, s.origins[j]))
    && (forall a, b :: 0 < a < b < |s.discovered| ==> s.origins[a] != s.origins[b])
    && (forall k, i :: Performed(full, s, k, i) && EffectAt(full, s, k, i).Queue? ==>
          forall t :: t in EffectAt(full, s, k, i).tasks ==> t in s.discovered)
  }

  ghost predicate CommitSeen(full: Scripts, s: State, k: nat, record: ObjectRecord) {
    exists i :: Performed(full, s, k, i) && EffectAt(full, s, k, i) == Commit(record)
  }

  ghost predicate Committed(full: Scripts, s: State) {
    && |s.committedBy| == |s.objects|
    && (forall j :: 0 <= j < |s.objects| ==> CommitSeen(full, s, s.committedBy[j], s.objects[j]))
    && (forall a, b :: 0 <= a < b < |s.objects| ==> s.committedBy[a] != s.committedBy[b])
    && (forall k, i :: Performed(full, s, k, i) && EffectAt(full, s, k, i).Commit? ==> k in s.committedBy)
  }

  predicate IncompleteMark(e: Effect, path: string) { e.Issue? && e.incompleteDirectory && e.issue.path == path }

  ghost predicate Reported(full: Scripts, s: State) {
    && (forall x :: x in s.issues ==>
          exists k, i :: Performed(full, s, k, i) && EffectAt(full, s, k, i).Issue? &&
            EffectAt(full, s, k, i).issue == x)
    && (forall p :: p in s.incomplete ==>
          exists k, i :: Performed(full, s, k, i) && IncompleteMark(EffectAt(full, s, k, i), p))
    && (forall k, i :: Performed(full, s, k, i) && EffectAt(full, s, k, i).Issue? ==>
          EffectAt(full, s, k, i).issue in s.issues
          && (EffectAt(full, s, k, i).incompleteDirectory ==> EffectAt(full, s, k, i).issue.path in s.incomplete))
  }

  ghost predicate CommitsOnce(script: seq<Effect>) {
    forall i, j :: 0 <= i < |script| && 0 <= j < |script| && script[i].Commit? && script[j].Commit? ==> i == j
  }

  /** `s'` has performed what `s` had, and besides it exactly effect `n` of ticket `k`. */
  ghost predicate Grown(full: Scripts, s: State, s': State, k: nat, n: nat) {
    && s.discovered <= s'.discovered && k < |s.discovered|
    && Performed(full, s', k, n) && !Performed(full, s, k, n)
    && (forall l, i :: Performed(full, s', l, i) ==> Performed(full, s, l, i) || (l == k && i == n))
    && (forall l, i :: Performed(full, s, l, i) ==>
          Performed(full, s', l, i) && EffectAt(full, s', l, i) == EffectAt(full, s, l, i))
  }

  lemma PerformGrows(full: Scripts, s: State, w: nat)
    requires AllProper(full) && Shape(full, s) && Holding(full, s) && Enabled(s, Perform(w)) && !s.cancelled
    requires !s.failed
    ensures var k := s.workers[w].ticket;
            && k < s.taken && Grown(full, s, PerformStep(s, w), k, s.done[k])
            && EffectAt(full, PerformStep(s, w), k, s.done[k]) == s.workers[w].script[0]
  {
    CalmPerform(full, s, w);
  }

  lemma ProvenanceGrows(full: Scripts, s: State, s': State, k: nat, n: nat, tasks: seq<Task>)
    requires Provenance(full, s) && Grown(full, s, s', k, n)
    requires EffectAt(full, s', k, n) == Queue(tasks) || (tasks == [] && !EffectAt(full, s', k, n).Queue?)
    requires s'.discovered == s.discovered + tasks && |s'.origins| == |s'.discovered|
    requires s.origins <= s'.origins
    requires forall m: nat :: m < |tasks| ==> s'.origins[|s.discovered| + m] == Origin(k, n, m)
    ensures Provenance(full, s')
  {
    forall j | 0 < j < |s'.discovered| ensures CameFrom(full, s', j, s'.origins[j]) {
      if j < |s.discovered| {
        assert CameFrom(full, s, j, s.origins[j]);
      } else {
        assert s'.origins[|s.discovered| + (j - |s.discovered|)] == Origin(k, n, j - |s.discovered|);
      }
    }
    forall a, b | 0 < a < b < |s'.discovered| ensures s'.origins[a] != s'.origins[b] {
      if |s.discovered| <= b {
        assert s'.origins[|s.discovered| + (b - |s.discovered|)] == Origin(k, n, b - |s.discovered|);
        if a < |s.discovered| {
          assert CameFrom(full, s, a, s.origins[a]);
        } else {
          assert s'.origins[|s.discovered| + (a - |s.discovered|)] == Origin(k, n, a - |s.discovered|);
        }
      }
    }
  }

  lemma ProvenanceAfterPerform(full: Scripts, s: State, w: nat)
    requires AllProper(full) && Shape(full, s) && Holding(full, s) && Enabled(s, Perform(w)) && !s.cancelled
    requires !s.failed
    requires Provenance(full, s)
    ensures Provenance(full, PerformStep(s, w))
  {
    PerformGrows(full, s, w);
    var e := s.workers[w].script[0];
    ProvenanceGrows(full, s, PerformStep(s, w), s.workers[w].ticket, s.done[s.workers[w].ticket], if e.Queue?
      then e.tasks else []);
  }

  lemma CommitsGrow(full: Scripts, s: State, s': State, k: nat, n: nat)
    requires Committed(full, s) && Grown(full, s, s', k, n) && CommitsOnce(full(s.discovered[k]))
    requires var e := EffectAt(full, s', k, n);
             if e.Commit? then s'.objects == s.objects + [e.record] && s'.committedBy == s.committedBy + [k]
             else s'.objects == s.objects && s'.committedBy == s.committedBy
    ensures Committed(full, s')
  {
    forall j | 0 <= j < |s'.objects| ensures CommitSeen(full, s', s'.committedBy[j], s'.objects[j]) {
      if j < |s.objects| {
        assert CommitSeen(full, s, s.committedBy[j], s.objects[j]);
        var i: nat :| Performed(full, s, s.committedBy[j], i) &&
          EffectAt(full, s, s.committedBy[j], i) == Commit(s.objects[j]);
        assert Performed(full, s', s'.committedBy[j], i);
      }
    }
    forall a, b | 0 <= a < b < |s'.objects| ensures s'.committedBy[a] != s'.committedBy[b] {
      if b == |s.objects| {
        assert CommitSeen(full, s, s.committedBy[a], s.objects[a]);
        var i: nat :| Performed(full, s, s.committedBy[a], i) &&
          EffectAt(full, s, s.committedBy[a], i) == Commit(s.objects[a]);
        assert full(s.discovered[s.committedBy[a]])[i].Commit? && full(s.discovered[k])[n].Commit?;
      }
    }
  }

  lemma IssuesGrow(full: Scripts, s: State, s': State, k: nat, n: nat)
    requires Reported(full, s) && Grown(full, s, s', k, n)
    requires var e := EffectAt(full, s', k, n);
             if e.Issue? then s'.issues == s.issues + [e.issue]
                              && s'.incomplete == s.incomplete + (if e.incompleteDirectory then [e.issue.path] else [])
             else s'.issues == s.issues && s'.incomplete == s.incomplete
    ensures Reported(full, s')
  {
    forall x | x in s'.issues
      ensures exists l, i ::
                Performed(full, s', l, i) && EffectAt(full, s', l, i).Issue? && EffectAt(full, s', l, i).issue == x
    {
      if x in s.issues {
        var l: nat, i: nat :| Performed(full, s, l, i) && EffectAt(full, s, l, i).Issue? &&
          EffectAt(full, s, l, i).issue == x;
        assert Performed(full, s', l, i);
      }
    }
    forall p | p in s'.incomplete
      ensures exists l, i :: Performed(full, s', l, i) && IncompleteMark(EffectAt(full, s', l, i), p)
    {
      if p in s.incomplete {
        var l: nat, i: nat :| Performed(full, s, l, i) && IncompleteMark(EffectAt(full, s, l, i), p);
        assert Performed(full, s', l, i);
      } else {
        assert IncompleteMark(EffectAt(full, s', k, n), p);
      }
    }
  }

  lemma RecordedAfterPerform(full: Scripts, s: State, w: nat)
    requires AllProper(full) && Shape(full, s) && Holding(full, s) && Enabled(s, Perform(w)) && !s.cancelled
    requires !s.failed
    requires Committed(full, s) && Reported(full, s) && forall t :: CommitsOnce(full(t))
    ensures Committed(full, PerformStep(s, w)) && Reported(full, PerformStep(s, w))
  {
    PerformGrows(full, s, w);
    var k := s.workers[w].ticket;
    CommitsGrow(full, s, PerformStep(s, w), k, s.done[k]);
    IssuesGrow(full, s, PerformStep(s, w), k, s.done[k]);
  }

  /** Every remembered index holds a file of that identity whose streams were read completely. */
  ghost predicate CacheSound(s: State) {
    forall id :: id in s.streamsByIdentity ==>
      && id != 0 && s.streamsByIdentity[id] < |s.objects|
      && var o := s.objects[s.streamsByIdentity[id]];
         o.identity == id && o.kind != Directory && o.streamsComplete
  }

  lemma StepKeepsCacheSound(vol: Volume, s: State, step: Step)
    requires CacheSound(s) && Enabled(s, step)
    ensures CacheSound(Apply(vol, s, step))
  {
    var s' := Apply(vol, s, step);
    if step.Perform? && s.workers[step.w].script[0].Commit? {
      forall id | id in s'.streamsByIdentity
        ensures id != 0 && s'.streamsByIdentity[id] < |s'.objects|
        ensures var o := s'.objects[s'.streamsByIdentity[id]];
                o.identity == id && o.kind != Directory && o.streamsComplete
      {
        if id in s.streamsByIdentity { assert s'.streamsByIdentity[id] == s.streamsByIdentity[id]; }
      }
    } else {
      assert s'.streamsByIdentity == s.streamsByIdentity && s'.objects == s.objects;
    }
  }

  /** The scripts of a volume, as a value the invariants need not look into. */
  function ScriptsOf(vol: Volume): Scripts { t => Full(vol, t) }

  lemma ScriptsAreProper(vol: Volume)
    ensures AllProper(ScriptsOf(vol))
    ensures forall t :: CommitsOnce(ScriptsOf(vol)(t))
  {
    forall t ensures Proper(ScriptsOf(vol)(t)) && CommitsOnce(ScriptsOf(vol)(t)) { ScriptFacts(vol, t); }
  }

  ghost predicate Calm(vol: Volume, s: State) {
    var full := ScriptsOf(vol);
    && Shape(full, s) && Holding(full, s) && Provenance(full, s) && Committed(full, s) && Reported(full, s)
    && CacheSound(s)
  }

  /** Every task but the root is a listed entry of the directory it came from. */
  lemma QueuedTaskIsListed(vol: Volume, s: State, j: nat) returns (path: string, e: Entry)
    requires Provenance(ScriptsOf(vol), s) && 0 < j < |s.discovered|
    ensures Listed(vol, path, e) && s.discovered[j] == Child(path, e)
    ensures var k := s.origins[j].parent; k < j && path == s.discovered[k].path
  {
    var o := s.origins[j];
    assert CameFrom(ScriptsOf(vol), s, j, o);
    var t := s.discovered[o.parent];
    ScriptFacts(vol, t);
    path := t.path;
    assert s.discovered[j] in Full(vol, t)[o.effect].tasks;
    e :| Listed(vol, t.path, e) && s.discovered[j] == Child(t.path, e);
  }

  /** Whichever worker committed it, an object is the record the volume determines for its task. */
  lemma CommittedIsDetermined(vol: Volume, s: State, j: nat)
    requires Committed(ScriptsOf(vol), s) && j < |s.objects|
    ensures s.committedBy[j] < |s.discovered| && s.objects[j] == ObjectOf(vol, s.discovered[s.committedBy[j]])
  {
    var k := s.committedBy[j];
    assert CommitSeen(ScriptsOf(vol), s, k, s.objects[j]);
    var i: nat :| Performed(ScriptsOf(vol), s, k, i) && EffectAt(ScriptsOf(vol), s, k, i) == Commit(s.objects[j]);
    assert Full(vol, s.discovered[k])[i] == Commit(s.objects[j]);
    ScriptFacts(vol, s.discovered[k]);
  }

  lemma ScriptFromCache(vol: Volume, t: Task, streams: seq<StreamRecord>)
    requires vol.query(t.path) == Streams(streams) && t.kind != Directory
    ensures Script(vol, t, Some(streams)) == Full(vol, t)
  {
  }

  lemma LinksAnswerAlike(vol: Volume, path1: string, e1: Entry, path2: string, e2: Entry)
    requires IdentityDetermines(vol) && Listed(vol, path1, e1) && Listed(vol, path2, e2)
    requires e1.identity == e2.identity != 0
    ensures vol.query(ChildPath(path1, e1.name)) == vol.query(ChildPath(path2, e2.name))
  {
    assert SameFile(vol, ChildPath(path1, e1.name), ChildPath(path2, e2.name));
  }

  lemma IdentifiedObjectIsListed(vol: Volume, s: State, j: nat) returns (path: string, e: Entry)
    requires Provenance(ScriptsOf(vol), s) && Committed(ScriptsOf(vol), s)
    requires j < |s.objects| && s.objects[j].identity != 0 && |s.discovered| > 0 && s.discovered[0] == ROOT
    ensures Listed(vol, path, e) && e.identity == s.objects[j].identity
    ensures s.objects[j] == ObjectOf(vol, Child(path, e))
  {
    CommittedIsDetermined(vol, s, j);
    path, e := QueuedTaskIsListed(vol, s, s.committedBy[j]);
  }

  /** A cached answer is the answer a direct stream query would have given. */
  lemma CachedAnswerIsDirect(vol: Volume, s: State, k: nat)
    requires IdentityDetermines(vol) && Provenance(ScriptsOf(vol), s) && Committed(ScriptsOf(vol), s) && CacheSound(s)
    requires k < |s.discovered| && s.discovered[0] == ROOT && CachedStreams(s, s.discovered[k]).Some?
    ensures vol.query(s.discovered[k].path) == Streams(CachedStreams(s, s.discovered[k]).value)
  {
    var j := CachedObject(s, s.discovered[k]);
    var path1, e1 := QueuedTaskIsListed(vol, s, k);
    var path2, e2 := IdentifiedObjectIsListed(vol, s, j);
    LinksAnswerAlike(vol, path1, e1, path2, e2);
    CompleteStreamsAreQueried(vol, Child(path2, e2));
  }

  /** The committed object the cache answers from. */
  lemma CachedObject(s: State, t: Task) returns (j: nat)
    requires CacheSound(s) && CachedStreams(s, t).Some?
    ensures t.identity.Some? && t.identity.value != 0 && j < |s.objects| && s.objects[j].identity == t.identity.value
    ensures s.objects[j].streamsComplete && s.objects[j].streams == CachedStreams(s, t).value
  {
    j := s.streamsByIdentity[t.identity.value];
  }

  lemma CompleteStreamsAreQueried(vol: Volume, t: Task)
    requires ObjectOf(vol, t).streamsComplete
    ensures vol.query(t.path) == Streams(ObjectOf(vol, t).streams)
  {
  }

  lemma CalmStep(vol: Volume, s: State, step: Step)
    requires IdentityDetermines(vol) && Calm(vol, s) && Enabled(s, step) && !s.cancelled && !s.failed
    requires !Apply(vol, s, step).cancelled && !Apply(vol, s, step).failed
    ensures Calm(vol, Apply(vol, s, step))
  {
    var full := ScriptsOf(vol);
    ScriptsAreProper(vol);
    StepKeepsCacheSound(vol, s, step);
    match step
    case Take(w) =>
      CalmTake(full, s, w);
      PerformedUnchanged(full, s, TakeStep(s, w));
    case Look(w) =>
      assert OnTrack(full, s, s.workers[w]);
      var k := s.workers[w].ticket;
      if CachedStreams(s, s.discovered[k]).Some? {
        CachedAnswerIsDirect(vol, s, k);
        ScriptFromCache(vol, s.discovered[k], CachedStreams(s, s.discovered[k]).value);
      }
      CalmLook(full, vol, s, w);
      PerformedUnchanged(full, s, Apply(vol, s, step));
    case Perform(w) =>
      CalmPerform(full, s, w);
      ProvenanceAfterPerform(full, s, w);
      RecordedAfterPerform(full, s, w);
    case _ =>
  }

  lemma PerformedUnchanged(full: Scripts, s: State, s': State)
    requires Provenance(full, s) && Committed(full, s) && Reported(full, s)
    requires s'.discovered == s.discovered && s'.origins == s.origins && s'.objects == s.objects
    requires s'.committedBy == s.committedBy
    requires s'.issues == s.issues && s'.incomplete == s.incomplete
    requires s.taken <= s'.taken && |s.done| == s.taken && |s'.done| == s'.taken && s.done <= s'.done
    requires forall k :: s.taken <= k < s'.taken ==> s'.done[k] == 0
    ensures Provenance(full, s') && Committed(full, s') && Reported(full, s')
  {
    assert forall k, i :: Performed(full, s', k, i) <==> Performed(full, s, k, i);
    forall j | 0 < j < |s'.discovered| ensures CameFrom(full, s', j, s'.origins[j]) {
      assert CameFrom(full, s, j, s.origins[j]);
    }
    forall j | 0 <= j < |s'.objects| ensures CommitSeen(full, s', s'.committedBy[j], s'.objects[j]) {
      assert CommitSeen(full, s, s.committedBy[j], s.objects[j]);
    }
  }

  lemma {:induction false} UndisturbedRunIsCalm(vol: Volume, workerCount: nat, schedule: seq<Step>)
    requires IdentityDetermines(vol)
    ensures var s := After(vol, workerCount, schedule); !s.cancelled && !s.failed ==> Calm(vol, s)
    decreases |schedule|
  {
    if schedule != [] {
      UndisturbedRunIsCalm(vol, workerCount, schedule[..|schedule| - 1]);
      var before := After(vol, workerCount, schedule[..|schedule| - 1]);
      var step := schedule[|schedule| - 1];
      var s := After(vol, workerCount, schedule);
      if Enabled(before, step) && !s.cancelled && !s.failed { CalmStep(vol, before, step); }
    }
  }

  /** What `Run` demands before it returns an inventory: every worker gone, no failure, no cancellation. */
  predicate Finished(s: State) {
    && |s.workers| > 0 && !s.cancelled && !s.failed
    && forall w :: 0 <= w < |s.workers| ==> s.workers[w].Left?
  }

  lemma FinishedTasksAreDone(vol: Volume, workerCount: nat, schedule: seq<Step>)
    requires IdentityDetermines(vol) && Finished(After(vol, workerCount, schedule))
    ensures var s := After(vol, workerCount, schedule);
            Calm(vol, s) && AllDone(vol, s)
  {
    var s := After(vol, workerCount, schedule);
    UndisturbedRunIsCalm(vol, workerCount, schedule);
    ScheduleKeepsQueueInvariant(vol, workerCount, schedule);
    assert LeftRightly(s.workers[0], Exhausted(s), s.cancelled, s.failed);
    forall k | 0 <= k < |s.discovered| ensures s.done[k] == |ScriptsOf(vol)(s.discovered[k])| {
      assert forall w :: 0 <= w < |s.workers| ==> !Holds(s.workers[w], k);
    }
  }

  ghost predicate ReachedAt(vol: Volume, t: Task, depth: nat)
    decreases depth
  {
    if depth == 0 then t == ROOT
    else exists parent, e :: ReachedAt(vol, parent, depth - 1) && Opens(vol, parent, e) && t == Child(parent.path, e)
  }

  ghost predicate Opens(vol: Volume, parent: Task, e: Entry) {
    parent.kind == Directory && vol.open(parent.path).None? && Listed(vol, parent.path, e)
  }

  /** The namespace of a volume: what listing readable directories leads to from the root. */
  ghost predicate Reachable(vol: Volume, t: Task) { exists depth :: ReachedAt(vol, t, depth) }

  predicate HasIssue(vol: Volume, t: Task, x: InventoryIssue) {
    && x.path == t.path
    && match x.operation
       case OpenObject => vol.open(t.path) == Some(x.failure)
       case QueryStreams => vol.open(t.path).None? && vol.query(t.path) == StreamsFailed(x.failure)
       case QueryDirectory => vol.open(t.path).None? && t.kind == Directory &&
         vol.list(t.path).failure == Some(x.failure)
       case _ => false
  }

  predicate IsIncomplete(vol: Volume, t: Task) {
    t.kind == Directory && (vol.open(t.path).Some? || vol.list(t.path).failure.Some?)
  }

  lemma ScriptReports(vol: Volume, t: Task, x: InventoryIssue)
    ensures HasIssue(vol, t, x) <==>
            exists i :: 0 <= i < |Full(vol, t)| && Full(vol, t)[i].Issue? && Full(vol, t)[i].issue == x
    ensures IsIncomplete(vol, t) <==> exists i :: 0 <= i < |Full(vol, t)| && IncompleteMark(Full(vol, t)[i], t.path)
  {
    var full := Full(vol, t);
    if vol.open(t.path).Some? {
      assert full[0].Issue?;
    } else {
      var listing := vol.list(t.path);
      var c := CommitIndex(vol, t);
      if c == 1 { assert full[0].Issue?; }
      if t.kind == Directory && listing.failure.Some? {
        assert full[c + 1 + |listing.batches|] ==
          Issue(InventoryIssue(t.path, QueryDirectory, listing.failure.value), true);
      }
    }
  }

  /** Every queued task is reachable. */
  lemma {:induction false} QueuedIsReachable(vol: Volume, s: State, j: nat)
    requires Provenance(ScriptsOf(vol), s) && j < |s.discovered| && s.discovered[0] == ROOT
    ensures Reachable(vol, s.discovered[j])
    decreases j
  {
    if j == 0 {
      assert ReachedAt(vol, ROOT, 0);
    } else {
      var o := s.origins[j];
      assert CameFrom(ScriptsOf(vol), s, j, o);
      var parent := s.discovered[o.parent];
      var path, e := QueuedTaskIsListed(vol, s, j);
      QueuedIsReachable(vol, s, o.parent);
      var depth: nat :| ReachedAt(vol, parent, depth);
      assert Full(vol, parent)[o.effect].Queue?;
      assert Opens(vol, parent, e) && s.discovered[j] == Child(parent.path, e);
      assert ReachedAt(vol, s.discovered[j], depth + 1);
    }
  }

  lemma ListedIsQueued(vol: Volume, parent: Task, e: Entry) returns (i: nat)
    requires Opens(vol, parent, e)
    ensures i < |Full(vol, parent)| && Full(vol, parent)[i].Queue?
    ensures Child(parent.path, e) in Full(vol, parent)[i].tasks
  {
    var batches := vol.list(parent.path).batches;
    var b :| 0 <= b < |batches| && e in batches[b];
    i := CommitIndex(vol, parent) + 1 + b;
    ChildrenAreVisible(parent.path, batches[b], Child(parent.path, e));
    BatchIsQueued(vol, parent, b);
  }

  /** Every queued task was taken and ran its whole script. */
  ghost predicate AllDone(vol: Volume, s: State) {
    && s.taken == |s.discovered| == |s.done|
    && forall k :: 0 <= k < |s.discovered| ==> s.done[k] == |Full(vol, s.discovered[k])|
  }

  lemma DoneEffect(vol: Volume, s: State, t: Task, i: nat) returns (k: nat)
    requires AllDone(vol, s) && t in s.discovered && i < |Full(vol, t)|
    ensures Performed(ScriptsOf(vol), s, k, i) && EffectAt(ScriptsOf(vol), s, k, i) == Full(vol, t)[i]
  {
    k :| 0 <= k < |s.discovered| && s.discovered[k] == t;
    assert ScriptsOf(vol)(t) == Full(vol, t);
  }

  /** Every reachable task is queued once all scripts have run. */
  lemma {:induction false} ReachableIsQueued(vol: Volume, s: State, t: Task, depth: nat)
    requires AllDone(vol, s) && ROOT in s.discovered && ReachedAt(vol, t, depth)
    requires forall k, i :: Performed(ScriptsOf(vol), s, k, i) && EffectAt(ScriptsOf(vol), s, k, i).Queue? ==>
               forall t :: t in EffectAt(ScriptsOf(vol), s, k, i).tasks ==> t in s.discovered
    ensures t in s.discovered
    decreases depth
  {
    if depth > 0 {
      var parent, e :| ReachedAt(vol, parent, depth - 1) && Opens(vol, parent, e) && t == Child(parent.path, e);
      ReachableIsQueued(vol, s, parent, depth - 1);
      var i := ListedIsQueued(vol, parent, e);
      var k := DoneEffect(vol, s, parent, i);
    }
  }

  /** The inventory is exactly what the volume's namespace determines. */
  ghost predicate Describes(vol: Volume, s: State) {
    && (forall t :: t in s.discovered <==> Reachable(vol, t))
    && |s.committedBy| == |s.objects|
    && (forall j :: 0 <= j < |s.objects| ==>
          s.committedBy[j] < |s.discovered| && s.objects[j] == ObjectOf(vol, s.discovered[s.committedBy[j]]))
    && (forall a, b :: 0 <= a < b < |s.objects| ==> s.committedBy[a] != s.committedBy[b])
    && (forall k :: 0 <= k < |s.discovered| ==> k in s.committedBy)
    && (forall x :: x in s.issues <==> exists t :: t in s.discovered && HasIssue(vol, t, x))
    && (forall p :: p in s.incomplete <==> exists t :: t in s.discovered && IsIncomplete(vol, t) && t.path == p)
  }

  lemma ReportedIssueIsReal(vol: Volume, s: State, x: InventoryIssue)
    requires Reported(ScriptsOf(vol), s) && x in s.issues
    ensures exists t :: t in s.discovered && HasIssue(vol, t, x)
  {
    var k: nat, i: nat :| Performed(ScriptsOf(vol), s, k, i) && EffectAt(ScriptsOf(vol), s, k, i).Issue? &&
      EffectAt(ScriptsOf(vol), s, k, i).issue == x;
    ScriptReports(vol, s.discovered[k], x);
    assert s.discovered[k] in s.discovered && Full(vol, s.discovered[k])[i].issue == x;
  }

  lemma RealIssueIsReported(vol: Volume, s: State, t: Task, x: InventoryIssue)
    requires AllDone(vol, s) && Reported(ScriptsOf(vol), s) && t in s.discovered && HasIssue(vol, t, x)
    ensures x in s.issues
  {
    ScriptReports(vol, t, x);
    var i :| 0 <= i < |Full(vol, t)| && Full(vol, t)[i].Issue? && Full(vol, t)[i].issue == x;
    var k := DoneEffect(vol, s, t, i);
  }

  lemma ReportedGapIsReal(vol: Volume, s: State, p: string)
    requires Reported(ScriptsOf(vol), s) && p in s.incomplete
    ensures exists t :: t in s.discovered && IsIncomplete(vol, t) && t.path == p
  {
    var k: nat, i: nat :| Performed(ScriptsOf(vol), s, k, i) && IncompleteMark(EffectAt(ScriptsOf(vol), s, k, i), p);
    var t := s.discovered[k];
    ScriptReports(vol, t, EffectAt(ScriptsOf(vol), s, k, i).issue);
    assert t in s.discovered && IncompleteMark(Full(vol, t)[i], p) &&
      Full(vol, t)[i].issue == EffectAt(ScriptsOf(vol), s, k, i).issue;
  }

  lemma RealGapIsReported(vol: Volume, s: State, t: Task)
    requires AllDone(vol, s) && Reported(ScriptsOf(vol), s) && t in s.discovered && IsIncomplete(vol, t)
    ensures t.path in s.incomplete
  {
    ScriptReports(vol, t, InventoryIssue("", OpenObject, Failure(0, 0)));
    var i :| 0 <= i < |Full(vol, t)| && IncompleteMark(Full(vol, t)[i], t.path);
    var k := DoneEffect(vol, s, t, i);
  }

  lemma FinishedIssues(vol: Volume, s: State)
    requires AllDone(vol, s) && Reported(ScriptsOf(vol), s)
    ensures forall x :: x in s.issues <==> exists t :: t in s.discovered && HasIssue(vol, t, x)
    ensures forall p :: p in s.incomplete <==> exists t :: t in s.discovered && IsIncomplete(vol, t) && t.path == p
  {
    forall x | x in s.issues ensures exists t :: t in s.discovered && HasIssue(vol, t, x) {
      ReportedIssueIsReal(vol, s, x);
    }
    forall x, t | t in s.discovered && HasIssue(vol, t, x) ensures x in s.issues { RealIssueIsReported(vol, s, t, x); }
    forall p | p in s.incomplete ensures exists t :: t in s.discovered && IsIncomplete(vol, t) && t.path == p {
      ReportedGapIsReal(vol, s, p);
    }
    forall t | t in s.discovered && IsIncomplete(vol, t) ensures t.path in s.incomplete {
      RealGapIsReported(vol, s, t);
    }
  }

  /**
   Whatever the interleaving, a run that finishes undisturbed committed every
   reachable object exactly once, with the record and the failures the volume
   determines for it, and nothing else.
   */
  lemma FinishedRunDescribesVolume(vol: Volume, workerCount: nat, schedule: seq<Step>)
    requires IdentityDetermines(vol) && Finished(After(vol, workerCount, schedule))
    ensures Describes(vol, After(vol, workerCount, schedule))
  {
    var s := After(vol, workerCount, schedule);
    FinishedTasksAreDone(vol, workerCount, schedule);
    FinishedIssues(vol, s);
    forall t ensures t in s.discovered <==> Reachable(vol, t) {
      if t in s.discovered {
        var j :| 0 <= j < |s.discovered| && s.discovered[j] == t;
        QueuedIsReachable(vol, s, j);
      }
      if Reachable(vol, t) {
        var depth: nat :| ReachedAt(vol, t, depth);
        ReachableIsQueued(vol, s, t, depth);
      }
    }
    forall j | 0 <= j < |s.objects|
      ensures s.committedBy[j] < |s.discovered| && s.objects[j] == ObjectOf(vol, s.discovered[s.committedBy[j]])
    {
      CommittedIsDetermined(vol, s, j);
    }
    forall k | 0 <= k < |s.discovered| ensures k in s.committedBy {
      ScriptFacts(vol, s.discovered[k]);
      var i := CommitIndex(vol, s.discovered[k]);
      assert Performed(ScriptsOf(vol), s, k, i) && EffectAt(ScriptsOf(vol), s, k, i).Commit?;
    }
  }

  // ----- Every path is inventoried once -----

  /** No two entries of a directory share a name, wherever the batches divide them. */
  ghost predicate UniqueNames(batches: seq<seq<Entry>>) {
    forall b1, i1, b2, i2 ::
      (&& 0 <= b1 < |batches| && 0 <= i1 < |batches[b1]| && 0 <= b2 < |batches| && 0 <= i2 < |batches[b2]|
       && (b1 != b2 || i1 != i2) && !IsDot(batches[b1][i1].name)) ==> batches[b1][i1].name != batches[b2][i2].name
  }

  /** What a filesystem guarantees about names: not empty, no separator, unique in their directory. */
  ghost predicate NamesProper(vol: Volume) {
    && (forall path, e :: Listed(vol, path, e) ==> e.name != "" && '\\' !in e.name)
    && forall path :: UniqueNames(vol.list(path).batches)
  }

  lemma ChildrenDiffer(vol: Volume, path: string, b1: nat, m1: nat, b2: nat, m2: nat)
    requires NamesProper(vol) && b1 < |vol.list(path).batches| && b2 < |vol.list(path).batches|
    requires m1 < |Children(path, vol.list(path).batches[b1])| && m2 < |Children(path, vol.list(path).batches[b2])|
    requires b1 != b2 || m1 != m2
    ensures Children(path, vol.list(path).batches[b1])[m1].path != Children(path, vol.list(path).batches[b2])[m2].path
  {
    var batches := vol.list(path).batches;
    var j1, j2 := Visible(batches[b1], |batches[b1]|)[m1], Visible(batches[b2], |batches[b2]|)[m2];
    assert UniqueNames(batches) && (b1 != b2 || j1 != j2);
    assert Listed(vol, path, batches[b1][j1]) && Listed(vol, path, batches[b2][j2]);
    ChildPathsDiffer(path, batches[b1][j1].name, path, batches[b2][j2].name);
  }

  lemma BatchEntriesDiffer(vol: Volume, t: Task, i1: nat, m1: nat, i2: nat, m2: nat)
    requires NamesProper(vol) && i1 < |Full(vol, t)| && i2 < |Full(vol, t)|
    requires Full(vol, t)[i1].Queue? && m1 < |Full(vol, t)[i1].tasks|
    requires Full(vol, t)[i2].Queue? && m2 < |Full(vol, t)[i2].tasks| && (i1 != i2 || m1 != m2)
    ensures Full(vol, t)[i1].tasks[m1].path != Full(vol, t)[i2].tasks[m2].path
  {
    var b1 := BatchOf(vol, t, i1);
    var b2 := BatchOf(vol, t, i2);
    ChildrenDiffer(vol, t.path, b1, m1, b2, m2);
  }

  lemma BatchOf(vol: Volume, t: Task, i: nat) returns (b: nat)
    requires i < |Full(vol, t)| && Full(vol, t)[i].Queue?
    ensures i == b + CommitIndex(vol, t) + 1 && b < |vol.list(t.path).batches|
    ensures Full(vol, t)[i].tasks == Children(t.path, vol.list(t.path).batches[b])
  {
    QueueEffectIsBatch(vol, t, i);
    b := i - CommitIndex(vol, t) - 1;
  }

  lemma SiblingsDiffer(vol: Volume, s: State, a: nat, b: nat)
    requires NamesProper(vol) && Provenance(ScriptsOf(vol), s) && 0 < a < b < |s.discovered|
    requires s.origins[a].parent == s.origins[b].parent
    ensures s.discovered[a].path != s.discovered[b].path
  {
    var oA, oB := s.origins[a], s.origins[b];
    assert CameFrom(ScriptsOf(vol), s, a, oA) && CameFrom(ScriptsOf(vol), s, b, oB);
    BatchEntriesDiffer(vol, s.discovered[oA.parent], oA.effect, oA.entry, oB.effect, oB.entry);
  }

  lemma ListedPathsDiffer(vol: Volume, pathA: string, eA: Entry, pathB: string, eB: Entry)
    requires NamesProper(vol) && Listed(vol, pathA, eA) && Listed(vol, pathB, eB) && pathA != pathB
    ensures Child(pathA, eA).path != Child(pathB, eB).path
  {
    ChildPathsDiffer(pathA, eA.name, pathB, eB.name);
  }

  /** However the batches and the interleaving fell, no path is ever queued twice. */
  lemma {:induction false} QueuedPathsDiffer(vol: Volume, s: State, a: nat, b: nat)
    requires NamesProper(vol) && Provenance(ScriptsOf(vol), s) && a < b < |s.discovered| && s.discovered[0] == ROOT
    ensures s.discovered[a].path != s.discovered[b].path
    decreases b
  {
    if a == 0 { RootPathDiffers(vol, s, b); }
    else {
      assert CameFrom(ScriptsOf(vol), s, a, s.origins[a]) && CameFrom(ScriptsOf(vol), s, b, s.origins[b]);
      var parentA, parentB := s.origins[a].parent, s.origins[b].parent;
      if parentA == parentB {
        SiblingsDiffer(vol, s, a, b);
      } else {
        if parentA < parentB { QueuedPathsDiffer(vol, s, parentA, parentB); }
        else { QueuedPathsDiffer(vol, s, parentB, parentA); }
        CousinsDiffer(vol, s, a, b);
      }
    }
  }

  lemma RootPathDiffers(vol: Volume, s: State, b: nat)
    requires NamesProper(vol) && Provenance(ScriptsOf(vol), s) && 0 < b < |s.discovered| && s.discovered[0] == ROOT
    ensures s.discovered[0].path != s.discovered[b].path
  {
    var pathB, eB := QueuedTaskIsListed(vol, s, b);
  }

  lemma CousinsDiffer(vol: Volume, s: State, a: nat, b: nat)
    requires NamesProper(vol) && Provenance(ScriptsOf(vol), s) && 0 < a < b < |s.discovered|
    requires s.origins[a].parent < a && s.origins[b].parent < b
    requires s.discovered[s.origins[a].parent].path != s.discovered[s.origins[b].parent].path
    ensures s.discovered[a].path != s.discovered[b].path
  {
    var pathA, eA := QueuedTaskIsListed(vol, s, a);
    var pathB, eB := QueuedTaskIsListed(vol, s, b);
    ListedPathsDiffer(vol, pathA, eA, pathB, eB);
  }
}
