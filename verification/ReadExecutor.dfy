/**
 The asynchronous read executor: Samba's event loop submits operations, worker
 threads run them, and the event loop completes and replies. Operations live at
 addresses that are reused, and die when their last owner lets go.
 */
module ReadExecutor {
  import opened Common

  type Address = nat

  datatype Status = Ok | NotSupported | NoMemory | IoDeviceError

  datatype Result = Result(status: Status, transferred: nat)

  /** What `ReadOperation::Run` makes of a reader's return value. */
  function ResultOf(outcome: int): Result {
    if 0 <= outcome < 0x1_0000_0000 then Result(Ok, outcome) else Result(IoDeviceError, 0)
  }

  /** An operation object: the call it answers, and its result once a worker has stored one. */
  datatype Operation = Operation(call: nat, result: Option<Result>)

  /** The event-loop thread; the last three states own the operation. */
  datatype Loop = Free | Completing(at: Address) | Submitting(at: Address) | Owning(at: Address) | Dropping(at: Address)

  /** A worker owns its operation from taking it until it lets go of it after scheduling the completion. */
  datatype Worker = Idle | Stopped | Running(at: Address) | Computed(at: Address) | Releasing(at: Address)

  /** What has become of a call. */
  datatype Fate = Answered(status: Status) | Entering | Active(at: Address) | Taken | Replied(result: Result)

  /** `active`, `pending` and `scheduled` are the executor's and the event loop's; the last three are history. */
  datatype State = State(
    heap: map<Address, Operation>, active: map<Address, nat>, pending: seq<Address>, scheduled: seq<Address>,
    workers: seq<Worker>, loop: Loop, crashed: bool,
    fates: seq<Fate>, computed: seq<seq<Result>>, replies: seq<seq<Result>>)

  function Initial(workerCount: nat): State {
    State(map[], map[], [], [], seq(workerCount, _ => Idle), Free, false, [], [], [])
  }

  predicate Holds(w: Worker, a: Address) { !w.Idle? && !w.Stopped? && w.at == a }

  predicate LoopOwns(l: Loop, a: Address) { (l.Submitting? || l.Owning? || l.Dropping?) && l.at == a }

  predicate SomeWorkerHolds(workers: seq<Worker>, a: Address) { exists w :: 0 <= w < |workers| && Holds(workers[w], a) }

  predicate Owned(active: set<Address>, pending: seq<Address>, workers: seq<Worker>, loop: Loop, a: Address) {
    a in active || a in pending || LoopOwns(loop, a) || SomeWorkerHolds(workers, a)
  }

  /** Objects without an owner are destroyed. */
  function Collect(s: State): State {
    s.(heap := map a | a in s.heap && Owned(s.active.Keys, s.pending, s.workers, s.loop, a) :: s.heap[a])
  }

  datatype Step =
    | Call(mayAsync: bool, wanted: nat, bufferAllocated: bool, constructed: bool, at: Address)
    | Insert | InsertFails
    | TakeTask(w: nat) | Compute(w: nat, outcome: int) | Schedule(w: nat) | Release(w: nat) | Stop(w: nat)
    | Fire(k: nat) | TakeOwner | Reply | Drop

  predicate Enabled(s: State, step: Step) {
    match step
    case Call(_, _, _, _, at) => s.loop.Free? && at !in s.heap
    case Insert => s.loop.Submitting?
    case InsertFails => s.loop.Submitting?
    case TakeTask(w) => w < |s.workers| && s.workers[w].Idle? && s.pending != []
    case Compute(w, _) => w < |s.workers| && s.workers[w].Running?
    case Schedule(w) => w < |s.workers| && s.workers[w].Computed?
    case Release(w) => w < |s.workers| && s.workers[w].Releasing?
    case Stop(w) => w < |s.workers| && s.workers[w].Idle?
    case Fire(k) => s.loop.Free? && k < |s.scheduled|
    case TakeOwner => s.loop.Completing?
    case Reply => s.loop.Owning?
    case Drop => s.loop.Dropping?
  }

  function Crash(s: State): State { s.(crashed := true) }

  /** `dcesrv_Read` up to the construction of the operation. */
  function CallStep(
    s: State, mayAsync: bool, wanted: nat, bufferAllocated: bool, constructed: bool, at: Address): State
  {
    var call := |s.fates|;
    var noted := s.(computed := s.computed + [[]], replies := s.replies + [[]]);
    if !mayAsync then noted.(fates := s.fates + [Answered(NotSupported)])
    else if wanted != 0 && !bufferAllocated then noted.(fates := s.fates + [Answered(NoMemory)])
    else if wanted == 0 then noted.(fates := s.fates + [Answered(Ok)])
    else if !constructed then noted.(fates := s.fates + [Answered(NoMemory)])
    else noted.(heap := s.heap[at := Operation(call, None)], loop := Submitting(at), fates := s.fates + [Entering])
  }

  /** The rest of `Submit`: a key that is already active terminates the process. */
  function InsertStep(s: State): State
    requires s.loop.Submitting?
  {
    var a := s.loop.at;
    if a in s.active || a !in s.heap || s.heap[a].call >= |s.fates| then Crash(s)
    else
      var call := s.heap[a].call;
      s.(active := s.active[a := call], pending := s.pending + [a], loop := Free, fates := s.fates[call := Active(a)])
  }

  /** Queueing failed: the entry is erased again and the call answered at once. */
  function InsertFailsStep(s: State): State
    requires s.loop.Submitting?
  {
    var a := s.loop.at;
    if a in s.active || a !in s.heap || s.heap[a].call >= |s.fates| then Crash(s)
    else Collect(s.(loop := Free, fates := s.fates[s.heap[a].call := Answered(NoMemory)]))
  }

  function MoveWorker(s: State, w: nat, worker: Worker): State
    requires w < |s.workers|
  {
    s.(workers := s.workers[w := worker])
  }

  /** A worker stores its result in the operation it holds. */
  function ComputeStep(s: State, w: nat, outcome: int): State
    requires w < |s.workers| && s.workers[w].Running?
  {
    var a := s.workers[w].at;
    if a !in s.heap || s.heap[a].call >= |s.computed| then Crash(s)
    else
      var call := s.heap[a].call;
      var r := ResultOf(outcome);
      MoveWorker(s, w, Computed(a)).(
        heap := s.heap[a := Operation(call, Some(r))], computed := s.computed[call := s.computed[call] + [r]])
  }

  function Without(active: map<Address, nat>, a: Address): (rest: map<Address, nat>)
    ensures rest.Keys == active.Keys - {a} && forall b :: b in rest ==> rest[b] == active[b]
  {
    map b | b in active && b != a :: active[b]
  }

  /** `Complete` up to `Take`: a key that is not active terminates the process. */
  function TakeOwnerStep(s: State): State
    requires s.loop.Completing?
  {
    var a := s.loop.at;
    if a !in s.heap || a !in s.active || s.active[a] >= |s.fates| then Crash(s)
    else s.(active := Without(s.active, a), loop := Owning(a), fates := s.fates[s.active[a] := Taken])
  }

  function ReplyStep(s: State): State
    requires s.loop.Owning?
  {
    var a := s.loop.at;
    if a !in s.heap || s.heap[a].result.None? || s.heap[a].call >= |s.fates| ||
      s.heap[a].call >= |s.replies| then Crash(s)
    else
      var Operation(call, result) := s.heap[a];
      s.(loop := Dropping(a), fates := s.fates[call := Replied(result.value)],
         replies := s.replies[call := s.replies[call] + [result.value]])
  }

  function Apply(s: State, step: Step): State
    requires Enabled(s, step)
  {
    match step
    case Call(mayAsync, wanted, bufferAllocated, constructed, at) => CallStep(s, mayAsync, wanted, bufferAllocated,
      constructed, at)
    case Insert => InsertStep(s)
    case InsertFails => InsertFailsStep(s)
    case TakeTask(w) => MoveWorker(s, w, Running(s.pending[0])).(pending := s.pending[1..])
    case Compute(w, outcome) => ComputeStep(s, w, outcome)
    case Schedule(w) =>
      var a := s.workers[w].at;
      if a !in s.heap then Crash(s) else MoveWorker(s, w, Releasing(a)).(scheduled := s.scheduled + [a])
    case Release(w) => Collect(MoveWorker(s, w, Idle))
    case Stop(w) => MoveWorker(s, w, Stopped)
    case Fire(k) => s.(loop := Completing(s.scheduled[k]), scheduled := s.scheduled[..k] + s.scheduled[k + 1..])
    case TakeOwner => TakeOwnerStep(s)
    case Reply => ReplyStep(s)
    case Drop => Collect(s.(loop := Free))
  }

  function After(workerCount: nat, schedule: seq<Step>): State
    decreases |schedule|
  {
    if schedule == [] then Initial(workerCount)
    else
      var before := After(workerCount, schedule[..|schedule| - 1]);
      var step := schedule[|schedule| - 1];
      if Enabled(before, step) then Apply(before, step) else before
  }

  // ----- Where an active operation is -----

  predicate InStage(w: Worker, a: Address) { (w.Running? || w.Computed?) && w.at == a }

  /** How many workers are at work on the operation. */
  function WorkersAt(workers: seq<Worker>, a: Address): nat {
    if workers == [] then 0
    else WorkersAt(workers[..|workers| - 1], a) + if InStage(workers[|workers| - 1], a) then 1 else 0
  }

  function Times(s: seq<Address>, a: Address): nat { multiset(s)[a] }

  /** In how many places an operation waits: queued, running, scheduled, or being completed. */
  function Places(pending: seq<Address>, workers: seq<Worker>, scheduled: seq<Address>, loop: Loop, a: Address): nat {
    Times(pending, a) + WorkersAt(workers, a) + Times(scheduled, a) + if loop == Completing(a) then 1 else 0
  }

  lemma {:induction false} WorkersAtUpdate(workers: seq<Worker>, w: nat, worker: Worker, a: Address)
    requires w < |workers|
    ensures InStage(workers[w], a) ==> WorkersAt(workers, a) >= 1
    ensures WorkersAt(workers[w := worker], a)
            == WorkersAt(workers, a) - (if InStage(workers[w], a) then 1 else 0) + (if InStage(worker, a) then 1 else 0)
    decreases |workers|
  {
    var n := |workers| - 1;
    if w == n { assert workers[w := worker][..n] == workers[..n]; }
    else {
      WorkersAtUpdate(workers[..n], w, worker, a);
      assert workers[w := worker][..n] == workers[..n][w := worker];
    }
  }

  lemma {:induction false} TwoWorkersAt(workers: seq<Worker>, v: nat, w: nat, a: Address)
    requires v < w < |workers| && InStage(workers[v], a) && InStage(workers[w], a)
    ensures WorkersAt(workers, a) >= 2
    decreases |workers|
  {
    var n := |workers| - 1;
    if w < n { TwoWorkersAt(workers[..n], v, w, a); }
    else { WorkersAtUpdate(workers[..n], v, Idle, a); }
  }

  lemma {:induction false} IdleWorkersAtNothing(n: nat, a: Address)
    ensures WorkersAt(seq(n, _ => Idle), a) == 0
  {
    if n > 0 {
      IdleWorkersAtNothing(n - 1, a);
      assert seq(n, _ => Idle)[..n - 1] == seq(n - 1, _ => Idle);
    }
  }

  // ----- The invariant, part by part -----

  /** An object exists exactly while somebody owns it. */
  ghost predicate ObjectsAreOwned(
    heap: set<Address>, active: set<Address>, pending: seq<Address>, workers: seq<Worker>, loop: Loop)
  {
    forall a :: a in heap <==> Owned(active, pending, workers, loop, a)
  }

  /** Every active operation is in exactly one place, and every other in none. */
  ghost predicate PlacedOnce(
    active: set<Address>, pending: seq<Address>, workers: seq<Worker>, scheduled: seq<Address>, loop: Loop)
  {
    forall a :: Places(pending, workers, scheduled, loop, a) == if a in active then 1 else 0
  }

  predicate WorkerExpects(heap: map<Address, Operation>, w: Worker) {
    && (w.Running? && w.at in heap ==> heap[w.at].result.None?)
    && (w.Computed? && w.at in heap ==> heap[w.at].result.Some?)
  }

  predicate LoopExpects(heap: map<Address, Operation>, l: Loop) {
    && ((l.Completing? || l.Owning?) && l.at in heap ==> heap[l.at].result.Some?)
    && (l.Submitting? && l.at in heap ==> heap[l.at].result.None?)
  }

  /** A result is stored before the completion is scheduled, and not before the operation runs. */
  ghost predicate ResultsInPlace(
    heap: map<Address, Operation>, pending: seq<Address>, workers: seq<Worker>, scheduled: seq<Address>, loop: Loop)
  {
    && (forall a :: a in pending && a in heap ==> heap[a].result.None?)
    && (forall w :: 0 <= w < |workers| ==> WorkerExpects(heap, workers[w]))
    && (forall a :: a in scheduled && a in heap ==> heap[a].result.Some?)
    && LoopExpects(heap, loop)
  }

  function Optional(r: Option<Result>): seq<Result> { if r.Some? then [r.value] else [] }

  /** Each object belongs to one call, whose history of results agrees with it. */
  ghost predicate ObjectsBelong(heap: map<Address, Operation>, active: map<Address, nat>, computed: seq<seq<Result>>) {
    && (forall a :: a in heap ==> heap[a].call < |computed| && computed[heap[a].call] == Optional(heap[a].result))
    && (forall a, b :: a in heap && b in heap && heap[a].call == heap[b].call ==> a == b)
    && (forall a :: a in active ==> a in heap && active[a] == heap[a].call)
  }

  predicate FateIsTrue(
    heap: map<Address, Operation>, active: map<Address, nat>, loop: Loop, call: nat, fate: Fate, computed: seq<Result>,
    replies: seq<Result>)
  {
    match fate
    case Answered(_) => computed == [] && replies == []
    case Entering => loop.Submitting? && loop.at in heap && heap[loop.at].call == call && replies == []
    case Active(a) => a in active && active[a] == call && replies == []
    case Taken => loop.Owning? && loop.at in heap && heap[loop.at].call == call && replies == []
    case Replied(r) => computed == [r] && replies == [r]
  }

  ghost predicate FatesAreTrue(
    heap: map<Address, Operation>, active: map<Address, nat>, loop: Loop, fates: seq<Fate>, computed: seq<seq<Result>>,
    replies: seq<seq<Result>>)
  {
    && |fates| == |computed| == |replies|
    && (forall call: nat :: call < |fates| ==>
          FateIsTrue(heap, active, loop, call, fates[call], computed[call], replies[call]))
  }

  /** The objects' side of the same: what is active or in the loop's hands has that fate. */
  ghost predicate HandsAreTrue(heap: map<Address, Operation>, active: map<Address, nat>, loop: Loop, fates: seq<Fate>) {
    && (forall a :: a in active ==> active[a] < |fates| && fates[active[a]] == Active(a))
    && (loop.Submitting? && loop.at in heap ==>
          loop.at !in active && heap[loop.at].call < |fates| && fates[heap[loop.at].call] == Entering)
    && (loop.Owning? && loop.at in heap ==>
          loop.at !in active && heap[loop.at].call < |fates| && fates[heap[loop.at].call] == Taken)
  }

  ghost predicate Inv(s: State) {
    && !s.crashed
    && ObjectsAreOwned(s.heap.Keys, s.active.Keys, s.pending, s.workers, s.loop)
    && PlacedOnce(s.active.Keys, s.pending, s.workers, s.scheduled, s.loop)
    && ResultsInPlace(s.heap, s.pending, s.workers, s.scheduled, s.loop)
    && ObjectsBelong(s.heap, s.active, s.computed)
    && FatesAreTrue(s.heap, s.active, s.loop, s.fates, s.computed, s.replies)
    && HandsAreTrue(s.heap, s.active, s.loop, s.fates)
  }

  // ----- Workers -----

  lemma HoldsUpdate(workers: seq<Worker>, w: nat, worker: Worker, a: Address)
    requires w < |workers|
    ensures SomeWorkerHolds(workers[w := worker], a) ==> SomeWorkerHolds(workers, a) || Holds(worker, a)
    ensures SomeWorkerHolds(workers, a) ==> SomeWorkerHolds(workers[w := worker], a) || Holds(workers[w], a)
    ensures Holds(worker, a) ==> SomeWorkerHolds(workers[w := worker], a)
    ensures Holds(workers[w], a) ==> SomeWorkerHolds(workers, a)
  {
    var workers' := workers[w := worker];
    if v :| 0 <= v < |workers'| && Holds(workers'[v], a) { assert v != w ==> Holds(workers[v], a); }
    if v :| 0 <= v < |workers| && Holds(workers[v], a) { assert v != w ==> Holds(workers'[v], a); }
    if Holds(worker, a) { assert Holds(workers'[w], a); }
  }

  /** A worker that holds the same object as before, or none, changes no ownership. */
  lemma SameOwners(
    heap: set<Address>, active: set<Address>, pending: seq<Address>, workers: seq<Worker>, loop: Loop, w: nat,
    worker: Worker)
    requires w < |workers| && ObjectsAreOwned(heap, active, pending, workers, loop)
    requires forall a :: Holds(workers[w], a) <==> Holds(worker, a)
    ensures ObjectsAreOwned(heap, active, pending, workers[w := worker], loop)
  {
    forall a ensures SomeWorkerHolds(workers[w := worker], a) <==> SomeWorkerHolds(workers, a) {
      HoldsUpdate(workers, w, worker, a);
    }
  }

  /** A worker that stays at the same operation, or at none, changes no place. */
  lemma SameStagesKeepPlaces(
    active: set<Address>, pending: seq<Address>, workers: seq<Worker>, scheduled: seq<Address>, loop: Loop, w: nat,
    worker: Worker)
    requires w < |workers| && PlacedOnce(active, pending, workers, scheduled, loop)
    requires forall a :: InStage(workers[w], a) <==> InStage(worker, a)
    ensures PlacedOnce(active, pending, workers[w := worker], scheduled, loop)
  {
    forall a
      ensures Places(pending, workers[w := worker], scheduled, loop, a) == Places(pending, workers, scheduled, loop, a)
    {
      WorkersAtUpdate(workers, w, worker, a);
    }
  }

  lemma StopKeepsInv(s: State, w: nat)
    requires Inv(s) && Enabled(s, Stop(w))
    ensures Inv(Apply(s, Stop(w)))
  {
    SameOwners(s.heap.Keys, s.active.Keys, s.pending, s.workers, s.loop, w, Stopped);
    SameStagesKeepPlaces(s.active.Keys, s.pending, s.workers, s.scheduled, s.loop, w, Stopped);
  }

  lemma TimesAppend(s: seq<Address>, b: Address, a: Address)
    ensures Times(s + [b], a) == Times(s, a) + if a == b then 1 else 0
  {
  }

  lemma ScheduleKeepsPlaces(
    active: set<Address>, pending: seq<Address>, workers: seq<Worker>, scheduled: seq<Address>, loop: Loop, w: nat,
    b: Address)
    requires w < |workers| && workers[w] == Computed(b) && PlacedOnce(active, pending, workers, scheduled, loop)
    ensures PlacedOnce(active, pending, workers[w := Releasing(b)], scheduled + [b], loop)
  {
    forall a
      ensures Places(pending, workers[w := Releasing(b)], scheduled + [b], loop, a) ==
              Places(pending, workers, scheduled, loop, a)
    {
      WorkersAtUpdate(workers, w, Releasing(b), a);
      TimesAppend(scheduled, b, a);
    }
  }

  lemma ScheduleKeepsInv(s: State, w: nat)
    requires Inv(s) && Enabled(s, Schedule(w))
    ensures Inv(Apply(s, Schedule(w)))
  {
    var b := s.workers[w].at;
    HoldsUpdate(s.workers, w, Releasing(b), b);
    assert b in s.heap.Keys;
    SameOwners(s.heap.Keys, s.active.Keys, s.pending, s.workers, s.loop, w, Releasing(b));
    ScheduleKeepsPlaces(s.active.Keys, s.pending, s.workers, s.scheduled, s.loop, w, b);
    ScheduleKeepsResults(s.heap, s.pending, s.workers, s.scheduled, s.loop, w, b);
  }

  lemma ScheduleKeepsResults(
    heap: map<Address, Operation>, pending: seq<Address>, workers: seq<Worker>, scheduled: seq<Address>, loop: Loop,
    w: nat, b: Address)
    requires w < |workers| && workers[w] == Computed(b) && ResultsInPlace(heap, pending, workers, scheduled, loop)
    ensures ResultsInPlace(heap, pending, workers[w := Releasing(b)], scheduled + [b], loop)
  {
    assert WorkerExpects(heap, workers[w]);
  }

  lemma TakeTaskKeepsOwners(
    heap: set<Address>, active: set<Address>, pending: seq<Address>, workers: seq<Worker>, loop: Loop, w: nat)
    requires w < |workers| && workers[w].Idle? && pending != [] && ObjectsAreOwned(heap, active, pending, workers, loop)
    ensures ObjectsAreOwned(heap, active, pending[1..], workers[w := Running(pending[0])], loop)
  {
    var b := pending[0];
    assert pending == [b] + pending[1..];
    forall a
      ensures Owned(active, pending[1..], workers[w := Running(b)], loop, a) <==>
              Owned(active, pending, workers, loop, a)
    {
      HoldsUpdate(workers, w, Running(b), a);
    }
  }

  lemma TakeTaskKeepsPlaces(
    active: set<Address>, pending: seq<Address>, workers: seq<Worker>, scheduled: seq<Address>, loop: Loop, w: nat)
    requires w < |workers| && workers[w].Idle? && pending != [] && PlacedOnce(active, pending, workers, scheduled, loop)
    ensures PlacedOnce(active, pending[1..], workers[w := Running(pending[0])], scheduled, loop)
  {
    var b := pending[0];
    forall a
      ensures Places(pending[1..], workers[w := Running(b)], scheduled, loop, a) ==
              Places(pending, workers, scheduled, loop, a)
    {
      WorkersAtUpdate(workers, w, Running(b), a);
      assert pending == [b] + pending[1..];
    }
  }

  lemma TakeTaskKeepsInv(s: State, w: nat)
    requires Inv(s) && Enabled(s, TakeTask(w))
    ensures Inv(Apply(s, TakeTask(w)))
  {
    TakeTaskKeepsOwners(s.heap.Keys, s.active.Keys, s.pending, s.workers, s.loop, w);
    TakeTaskKeepsPlaces(s.active.Keys, s.pending, s.workers, s.scheduled, s.loop, w);
    assert s.pending[0] in s.pending;
  }

  /** The operation a worker is running is active, is nowhere else, and exists. */
  lemma RunningIsActive(s: State, w: nat)
    requires Inv(s) && w < |s.workers| && (s.workers[w].Running? || s.workers[w].Computed?)
    ensures var a := s.workers[w].at;
            && a in s.active && a in s.heap && a !in s.pending && a !in s.scheduled && s.loop != Completing(a)
            && forall v :: 0 <= v < |s.workers| && v != w ==> !InStage(s.workers[v], a)
  {
    var a := s.workers[w].at;
    WorkersAtUpdate(s.workers, w, Idle, a);
    assert Places(s.pending, s.workers, s.scheduled, s.loop, a) == 1;
    assert Owned(s.active.Keys, s.pending, s.workers, s.loop, a);
    assert a in s.heap.Keys;
    forall v | 0 <= v < |s.workers| && v != w ensures !InStage(s.workers[v], a) {
      if InStage(s.workers[v], a) {
        if v < w { TwoWorkersAt(s.workers, v, w, a); } else { TwoWorkersAt(s.workers, w, v, a); }
      }
    }
  }

  lemma ComputeKeepsResults(
    heap: map<Address, Operation>, pending: seq<Address>, workers: seq<Worker>, scheduled: seq<Address>, loop: Loop,
    w: nat, b: Address, op: Operation)
    requires w < |workers| && workers[w] == Running(b) && b in heap && op.result.Some?
    requires ResultsInPlace(heap, pending, workers, scheduled, loop)
    requires b !in pending && (forall v :: 0 <= v < |workers| && v != w ==> !InStage(workers[v], b))
    requires loop != Submitting(b)
    ensures ResultsInPlace(heap[b := op], pending, workers[w := Computed(b)], scheduled, loop)
  {
    var workers' := workers[w := Computed(b)];
    forall v | 0 <= v < |workers'| ensures WorkerExpects(heap[b := op], workers'[v]) {
      assert WorkerExpects(heap, workers[v]);
    }
  }

  lemma ComputeKeepsBelonging(
    heap: map<Address, Operation>, active: map<Address, nat>, computed: seq<seq<Result>>, b: Address, r: Result)
    requires ObjectsBelong(heap, active, computed) && b in heap && heap[b].result.None?
    ensures heap[b].call < |computed|
    ensures ObjectsBelong(heap[b := Operation(heap[b].call, Some(r))], active,
            computed[heap[b].call := computed[heap[b].call] + [r]])
  {
    var call := heap[b].call;
    var heap', computed' := heap[b := Operation(call, Some(r))], computed[call := computed[call] + [r]];
    forall a | a in heap' ensures heap'[a].call < |computed'| && computed'[heap'[a].call] == Optional(heap'[a].result) {
      if a != b { assert heap[a].call != call; }
    }
  }

  lemma ComputeKeepsFates(
    heap: map<Address, Operation>, active: map<Address, nat>, loop: Loop, fates: seq<Fate>, computed: seq<seq<Result>>,
    replies: seq<seq<Result>>,
    b: Address, op: Operation, results: seq<Result>)
    requires FatesAreTrue(heap, active, loop, fates, computed, replies) && b in active && b in heap
    requires op.call == heap[b].call == active[b] < |fates|
    requires fates[active[b]] == Active(b)
    ensures FatesAreTrue(heap[b := op], active, loop, fates, computed[op.call := results], replies)
  {
    forall call: nat | call < |fates|
      ensures FateIsTrue(heap[b := op], active, loop, call, fates[call], computed[op.call := results][call],
              replies[call])
    {
      assert FateIsTrue(heap, active, loop, call, fates[call], computed[call], replies[call]);
    }
  }

  lemma ComputeKeepsInv(s: State, w: nat, outcome: int)
    requires Inv(s) && Enabled(s, Compute(w, outcome))
    ensures Inv(Apply(s, Compute(w, outcome)))
  {
    var b := s.workers[w].at;
    RunningIsActive(s, w);
    assert WorkerExpects(s.heap, s.workers[w]);
    var op := Operation(s.heap[b].call, Some(ResultOf(outcome)));
    assert s.heap[b].call == s.active[b] && s.computed[op.call] == [];
    SameOwners(s.heap.Keys, s.active.Keys, s.pending, s.workers, s.loop, w, Computed(b));
    assert s.heap[b := op].Keys == s.heap.Keys;
    SameStagesKeepPlaces(s.active.Keys, s.pending, s.workers, s.scheduled, s.loop, w, Computed(b));
    ComputeKeepsResults(s.heap, s.pending, s.workers, s.scheduled, s.loop, w, b, op);
    ComputeKeepsBelonging(s.heap, s.active, s.computed, b, ResultOf(outcome));
    ComputeKeepsFates(s.heap, s.active, s.loop, s.fates, s.computed, s.replies, b, op, s.computed[op.call]
      + [ResultOf(outcome)]);
    ComputeKeepsHands(s.heap, s.active, s.loop, s.fates, b, op);
  }

  lemma ComputeKeepsHands(
    heap: map<Address, Operation>, active: map<Address, nat>, loop: Loop, fates: seq<Fate>, b: Address, op: Operation)
    requires HandsAreTrue(heap, active, loop, fates) && b in heap && op.call == heap[b].call
    ensures HandsAreTrue(heap[b := op], active, loop, fates)
  {
  }

  // ----- Letting go of objects -----

  ghost predicate Shrinks(heap: map<Address, Operation>, heap': map<Address, Operation>) {
    forall a :: a in heap' ==> a in heap && heap'[a] == heap[a]
  }

  lemma ResultsShrink(
    heap: map<Address, Operation>, heap': map<Address, Operation>, pending: seq<Address>, workers: seq<Worker>,
    scheduled: seq<Address>, loop: Loop)
    requires Shrinks(heap, heap') && ResultsInPlace(heap, pending, workers, scheduled, loop)
    ensures ResultsInPlace(heap', pending, workers, scheduled, loop)
  {
    forall w | 0 <= w < |workers| ensures WorkerExpects(heap', workers[w]) { assert WorkerExpects(heap, workers[w]); }
  }

  lemma FatesShrink(
    heap: map<Address, Operation>, heap': map<Address, Operation>, active: map<Address, nat>, loop: Loop,
    fates: seq<Fate>, computed: seq<seq<Result>>, replies: seq<seq<Result>>)
    requires Shrinks(heap, heap') && FatesAreTrue(heap, active, loop, fates, computed, replies)
    requires (loop.Submitting? || loop.Owning?) && loop.at in heap ==> loop.at in heap'
    ensures FatesAreTrue(heap', active, loop, fates, computed, replies)
  {
    forall call: nat | call < |fates|
      ensures FateIsTrue(heap', active, loop, call, fates[call], computed[call], replies[call])
    {
      assert FateIsTrue(heap, active, loop, call, fates[call], computed[call], replies[call]);
    }
  }

  /** Destroying what nobody owns any more keeps every part of the invariant. */
  lemma CollectKeepsInv(s: State)
    requires !s.crashed
    requires forall a :: Owned(s.active.Keys, s.pending, s.workers, s.loop, a) ==> a in s.heap.Keys
    requires PlacedOnce(s.active.Keys, s.pending, s.workers, s.scheduled, s.loop)
    requires ResultsInPlace(s.heap, s.pending, s.workers, s.scheduled, s.loop)
    requires ObjectsBelong(s.heap, s.active, s.computed)
    requires FatesAreTrue(s.heap, s.active, s.loop, s.fates, s.computed, s.replies)
    requires HandsAreTrue(s.heap, s.active, s.loop, s.fates)
    ensures Inv(Collect(s))
  {
    var heap' := Collect(s).heap;
    ResultsShrink(s.heap, heap', s.pending, s.workers, s.scheduled, s.loop);
    FatesShrink(s.heap, heap', s.active, s.loop, s.fates, s.computed, s.replies);
  }

  lemma ReleaseKeepsInv(s: State, w: nat)
    requires Inv(s) && Enabled(s, Release(w))
    ensures Inv(Apply(s, Release(w)))
  {
    var s' := MoveWorker(s, w, Idle);
    forall a | Owned(s'.active.Keys, s'.pending, s'.workers, s'.loop, a) ensures a in s.heap.Keys {
      HoldsUpdate(s.workers, w, Idle, a);
      assert Owned(s.active.Keys, s.pending, s.workers, s.loop, a);
    }
    SameStagesKeepPlaces(s.active.Keys, s.pending, s.workers, s.scheduled, s.loop, w, Idle);
    CollectKeepsInv(s');
  }

  lemma DropKeepsInv(s: State)
    requires Inv(s) && Enabled(s, Drop)
    ensures Inv(Apply(s, Drop))
  {
    var s' := s.(loop := Free);
    forall a | Owned(s'.active.Keys, s'.pending, s'.workers, s'.loop, a) ensures a in s.heap.Keys {
      assert Owned(s.active.Keys, s.pending, s.workers, s.loop, a);
    }
    FatesWithoutHands(s.heap, s.active, s.loop, Free, s.fates, s.computed, s.replies);
    CollectKeepsInv(s');
  }

  /** When the loop holds no entering or taken operation, its state does not matter to the fates. */
  lemma FatesWithoutHands(
    heap: map<Address, Operation>, active: map<Address, nat>, loop: Loop, loop': Loop, fates: seq<Fate>,
    computed: seq<seq<Result>>, replies: seq<seq<Result>>)
    requires FatesAreTrue(heap, active, loop, fates, computed, replies) && !loop.Submitting? && !loop.Owning?
    ensures FatesAreTrue(heap, active, loop', fates, computed, replies)
  {
    forall call: nat | call < |fates|
      ensures FateIsTrue(heap, active, loop', call, fates[call], computed[call], replies[call])
    {
      assert FateIsTrue(heap, active, loop, call, fates[call], computed[call], replies[call]);
    }
  }

  // ----- The event loop -----

  lemma FireKeepsPlaces(
    active: set<Address>, pending: seq<Address>, workers: seq<Worker>, scheduled: seq<Address>, k: nat)
    requires k < |scheduled| && PlacedOnce(active, pending, workers, scheduled, Free)
    ensures PlacedOnce(active, pending, workers, scheduled[..k] + scheduled[k + 1..], Completing(scheduled[k]))
  {
    var rest, b := scheduled[..k] + scheduled[k + 1..], scheduled[k];
    assert scheduled == scheduled[..k] + [b] + scheduled[k + 1..];
    forall a ensures Places(pending, workers, rest, Completing(b), a) == Places(pending, workers, scheduled, Free, a) {
      assert multiset(scheduled)[a] == multiset(rest)[a] + if a == b then 1 else 0;
    }
  }

  lemma FireKeepsInv(s: State, k: nat)
    requires Inv(s) && Enabled(s, Fire(k))
    ensures Inv(Apply(s, Fire(k)))
  {
    var b := s.scheduled[k];
    FireKeepsPlaces(s.active.Keys, s.pending, s.workers, s.scheduled, k);
    SameLoopOwner(s.heap.Keys, s.active.Keys, s.pending, s.workers, s.loop, Completing(b));
    FatesWithoutHands(s.heap, s.active, s.loop, Completing(b), s.fates, s.computed, s.replies);
    FireKeepsResults(s.heap, s.pending, s.workers, s.scheduled, k);
    HandsWithoutHands(s.heap, s.active, s.loop, Completing(b), s.fates);
  }

  lemma FireKeepsResults(
    heap: map<Address, Operation>, pending: seq<Address>, workers: seq<Worker>, scheduled: seq<Address>, k: nat)
    requires k < |scheduled| && ResultsInPlace(heap, pending, workers, scheduled, Free)
    ensures ResultsInPlace(heap, pending, workers, scheduled[..k] + scheduled[k + 1..], Completing(scheduled[k]))
  {
    assert scheduled[k] in scheduled;
    forall a | a in scheduled[..k] + scheduled[k + 1..] ensures a in scheduled { }
  }

  lemma HandsWithoutHands(
    heap: map<Address, Operation>, active: map<Address, nat>, loop: Loop, loop': Loop, fates: seq<Fate>)
    requires HandsAreTrue(heap, active, loop, fates) && !loop'.Submitting? && !loop'.Owning?
    ensures HandsAreTrue(heap, active, loop', fates)
  {
  }

  lemma SameLoopOwner(
    heap: set<Address>, active: set<Address>, pending: seq<Address>, workers: seq<Worker>, loop: Loop, loop': Loop)
    requires ObjectsAreOwned(heap, active, pending, workers, loop)
    requires forall a :: LoopOwns(loop, a) <==> LoopOwns(loop', a)
    ensures ObjectsAreOwned(heap, active, pending, workers, loop')
  {
    forall a ensures Owned(active, pending, workers, loop', a) <==> Owned(active, pending, workers, loop, a) { }
  }

  lemma CompletingIsActive(s: State)
    requires Inv(s) && s.loop.Completing?
    ensures s.loop.at in s.active && s.loop.at in s.heap
  {
    var a := s.loop.at;
    assert Places(s.pending, s.workers, s.scheduled, s.loop, a) > 0;
    assert Owned(s.active.Keys, s.pending, s.workers, s.loop, a);
  }

  lemma TakeOwnerKeepsFates(
    heap: map<Address, Operation>, active: map<Address, nat>, b: Address, active': map<Address, nat>, fates: seq<Fate>,
    computed: seq<seq<Result>>, replies: seq<seq<Result>>)
    requires FatesAreTrue(heap, active, Completing(b), fates, computed, replies)
    requires HandsAreTrue(heap, active, Completing(b), fates)
    requires b in active && b in heap && heap[b].call == active[b] && active' == Without(active, b)
    ensures active[b] < |fates| && FatesAreTrue(heap, active', Owning(b), fates[active[b] := Taken], computed, replies)
    ensures HandsAreTrue(heap, active', Owning(b), fates[active[b] := Taken])
  {
    var mine := active[b];
    forall call: nat | call < |fates|
      ensures FateIsTrue(heap, active', Owning(b), call, fates[mine := Taken][call], computed[call], replies[call])
    {
      assert FateIsTrue(heap, active, Completing(b), call, fates[call], computed[call], replies[call]);
    }
  }

  lemma TakeOwnerKeepsInv(s: State)
    requires Inv(s) && Enabled(s, TakeOwner)
    ensures Inv(Apply(s, TakeOwner))
  {
    var b := s.loop.at;
    CompletingIsActive(s);
    var active' := Without(s.active, b);
    TakeOwnerKeepsFates(s.heap, s.active, b, active', s.fates, s.computed, s.replies);
    TakeOwnerKeepsOwners(s.heap.Keys, s.active.Keys, s.pending, s.workers, b);
    TakeOwnerKeepsPlaces(s.active.Keys, s.pending, s.workers, s.scheduled, b);
    TakeOwnerKeepsResults(s.heap, s.pending, s.workers, s.scheduled, b);
    TakeOwnerKeepsBelonging(s.heap, s.active, active', s.computed);
  }

  lemma TakeOwnerKeepsResults(
    heap: map<Address, Operation>, pending: seq<Address>, workers: seq<Worker>, scheduled: seq<Address>, b: Address)
    requires ResultsInPlace(heap, pending, workers, scheduled, Completing(b))
    ensures ResultsInPlace(heap, pending, workers, scheduled, Owning(b))
  {
  }

  lemma TakeOwnerKeepsBelonging(
    heap: map<Address, Operation>, active: map<Address, nat>, active': map<Address, nat>, computed: seq<seq<Result>>)
    requires ObjectsBelong(heap, active, computed)
    requires forall a :: a in active' ==> a in active && active'[a] == active[a]
    ensures ObjectsBelong(heap, active', computed)
  {
  }

  lemma TakeOwnerKeepsOwners(
    heap: set<Address>, active: set<Address>, pending: seq<Address>, workers: seq<Worker>, b: Address)
    requires ObjectsAreOwned(heap, active, pending, workers, Completing(b)) && b in active
    ensures ObjectsAreOwned(heap, active - {b}, pending, workers, Owning(b))
  {
    forall a
      ensures Owned(active - {b}, pending, workers, Owning(b), a) <==> Owned(active, pending, workers, Completing(b), a)
    {
    }
  }

  lemma TakeOwnerKeepsPlaces(
    active: set<Address>, pending: seq<Address>, workers: seq<Worker>, scheduled: seq<Address>, b: Address)
    requires PlacedOnce(active, pending, workers, scheduled, Completing(b)) && b in active
    ensures PlacedOnce(active - {b}, pending, workers, scheduled, Owning(b))
  {
    forall a ensures Places(pending, workers, scheduled, Owning(b), a) == if a in active - {b} then 1 else 0 {
      assert Places(pending, workers, scheduled, Completing(b), a) == if a in active then 1 else 0;
    }
  }

  lemma ReplyKeepsFates(
    heap: map<Address, Operation>, active: map<Address, nat>, b: Address, fates: seq<Fate>, computed: seq<seq<Result>>,
    replies: seq<seq<Result>>)
    requires FatesAreTrue(heap, active, Owning(b), fates, computed, replies)
    requires HandsAreTrue(heap, active, Owning(b), fates)
    requires b in heap && heap[b].result.Some? && ObjectsBelong(heap, active, computed)
    ensures var call, r := heap[b].call, heap[b].result.value;
            && call < |fates|
            && FatesAreTrue(heap, active, Dropping(b), fates[call := Replied(r)], computed,
               replies[call := replies[call] + [r]])
            && HandsAreTrue(heap, active, Dropping(b), fates[call := Replied(r)])
  {
    var mine, r := heap[b].call, heap[b].result.value;
    assert FateIsTrue(heap, active, Owning(b), mine, fates[mine], computed[mine], replies[mine]);
    forall call: nat | call < |fates|
      ensures FateIsTrue(heap, active, Dropping(b), call, fates[mine := Replied(r)][call], computed[call],
              replies[mine := replies[mine] + [r]][call])
    {
      assert FateIsTrue(heap, active, Owning(b), call, fates[call], computed[call], replies[call]);
    }
    forall a | a in active ensures active[a] < |fates| && fates[mine := Replied(r)][active[a]] == Active(a) {
      assert a != b;
    }
  }

  lemma ReplyKeepsInv(s: State)
    requires Inv(s) && Enabled(s, Reply)
    ensures Inv(Apply(s, Reply))
  {
    var b := s.loop.at;
    assert Owned(s.active.Keys, s.pending, s.workers, s.loop, b);
    assert b in s.heap.Keys;
    ReplyKeepsFates(s.heap, s.active, b, s.fates, s.computed, s.replies);
    SameLoopOwner(s.heap.Keys, s.active.Keys, s.pending, s.workers, s.loop, Dropping(b));
    SameLoopPlace(s.active.Keys, s.pending, s.workers, s.scheduled, s.loop, Dropping(b));
  }

  lemma SameLoopPlace(
    active: set<Address>, pending: seq<Address>, workers: seq<Worker>, scheduled: seq<Address>, loop: Loop,
    loop': Loop)
    requires PlacedOnce(active, pending, workers, scheduled, loop) && !loop.Completing? && !loop'.Completing?
    ensures PlacedOnce(active, pending, workers, scheduled, loop')
  {
    forall a ensures Places(pending, workers, scheduled, loop', a) == Places(pending, workers, scheduled, loop, a) { }
  }

  // ----- Submission -----

  lemma AnsweredKeepsFates(
    heap: map<Address, Operation>, active: map<Address, nat>, loop: Loop, fates: seq<Fate>, computed: seq<seq<Result>>,
    replies: seq<seq<Result>>, status: Status)
    requires FatesAreTrue(heap, active, loop, fates, computed, replies) && HandsAreTrue(heap, active, loop, fates)
    requires ObjectsBelong(heap, active, computed)
    ensures FatesAreTrue(heap, active, loop, fates + [Answered(status)], computed + [[]], replies + [[]])
    ensures HandsAreTrue(heap, active, loop, fates + [Answered(status)]) && ObjectsBelong(heap, active, computed + [[]])
  {
    forall call: nat | call < |fates| + 1
      ensures FateIsTrue(heap, active, loop, call, (fates + [Answered(status)])[call], (computed + [[]])[call],
              (replies + [[]])[call])
    {
      if call < |fates| { assert FateIsTrue(heap, active, loop, call, fates[call], computed[call], replies[call]); }
    }
  }

  lemma EnteringKeepsFates(
    heap: map<Address, Operation>, active: map<Address, nat>, fates: seq<Fate>, computed: seq<seq<Result>>,
    replies: seq<seq<Result>>, at: Address)
    requires FatesAreTrue(heap, active, Free, fates, computed, replies) && HandsAreTrue(heap, active, Free, fates)
    requires ObjectsBelong(heap, active, computed)
    requires at !in heap
    ensures var heap' := heap[at := Operation(|fates|, None)];
            && FatesAreTrue(heap', active, Submitting(at), fates + [Entering], computed + [[]], replies + [[]])
            && HandsAreTrue(heap', active, Submitting(at), fates + [Entering])
            && ObjectsBelong(heap', active, computed + [[]])
  {
    var heap' := heap[at := Operation(|fates|, None)];
    forall call: nat | call < |fates| + 1
      ensures FateIsTrue(heap', active, Submitting(at), call, (fates + [Entering])[call], (computed + [[]])[call],
              (replies + [[]])[call])
    {
      if call < |fates| { assert FateIsTrue(heap, active, Free, call, fates[call], computed[call], replies[call]); }
    }
  }

  lemma EnteringKeepsResults(
    heap: map<Address, Operation>, pending: seq<Address>, workers: seq<Worker>, scheduled: seq<Address>, at: Address,
    op: Operation, active: set<Address>)
    requires ResultsInPlace(heap, pending, workers, scheduled, Free)
    requires PlacedOnce(active, pending, workers, scheduled, Free) && at !in active && op.result.None?
    ensures ResultsInPlace(heap[at := op], pending, workers, scheduled, Submitting(at))
  {
    assert Places(pending, workers, scheduled, Free, at) == 0;
    forall w | 0 <= w < |workers| ensures WorkerExpects(heap[at := op], workers[w]) {
      assert WorkerExpects(heap, workers[w]);
      WorkersAtUpdate(workers, w, Idle, at);
    }
  }

  lemma AnsweredKeepsInv(s: State, status: Status)
    requires Inv(s)
    ensures Inv(s.(fates := s.fates + [Answered(status)], computed := s.computed + [[]], replies := s.replies + [[]]))
  {
    AnsweredKeepsFates(s.heap, s.active, s.loop, s.fates, s.computed, s.replies, status);
  }

  lemma EnteringKeepsInv(s: State, at: Address)
    requires Inv(s) && s.loop.Free? && at !in s.heap
    ensures Inv(CallStep(s, true, 1, true, true, at))
  {
    EnteringKeepsFates(s.heap, s.active, s.fates, s.computed, s.replies, at);
    EnteringKeepsResults(s.heap, s.pending, s.workers, s.scheduled, at, Operation(|s.fates|, None), s.active.Keys);
    EnteringKeepsOwners(s.heap.Keys, s.active.Keys, s.pending, s.workers, at);
    assert s.heap[at := Operation(|s.fates|, None)].Keys == s.heap.Keys + {at};
    SameLoopPlace(s.active.Keys, s.pending, s.workers, s.scheduled, s.loop, Submitting(at));
  }

  lemma CallKeepsInv(s: State, step: Step)
    requires Inv(s) && step.Call? && Enabled(s, step)
    ensures Inv(Apply(s, step))
  {
    var s' := Apply(s, step);
    if s'.loop.Free? { AnsweredKeepsInv(s, s'.fates[|s.fates|].status); }
    else { EnteringKeepsInv(s, step.at); }
  }

  lemma EnteringKeepsOwners(
    heap: set<Address>, active: set<Address>, pending: seq<Address>, workers: seq<Worker>, at: Address)
    requires ObjectsAreOwned(heap, active, pending, workers, Free)
    ensures ObjectsAreOwned(heap + {at}, active, pending, workers, Submitting(at))
  {
    forall a
      ensures Owned(active, pending, workers, Submitting(at), a) <==>
              Owned(active, pending, workers, Free, a) || a == at
    {
    }
  }

  lemma InsertKeepsFates(
    heap: map<Address, Operation>, active: map<Address, nat>, b: Address, fates: seq<Fate>, computed: seq<seq<Result>>,
    replies: seq<seq<Result>>)
    requires FatesAreTrue(heap, active, Submitting(b), fates, computed, replies)
    requires HandsAreTrue(heap, active, Submitting(b), fates) && b in heap
    requires ObjectsBelong(heap, active, computed)
    ensures var call := heap[b].call;
            && call < |fates|
            && FatesAreTrue(heap, active[b := call], Free, fates[call := Active(b)], computed, replies)
            && HandsAreTrue(heap, active[b := call], Free, fates[call := Active(b)])
            && ObjectsBelong(heap, active[b := call], computed)
  {
    var mine := heap[b].call;
    assert FateIsTrue(heap, active, Submitting(b), mine, fates[mine], computed[mine], replies[mine]);
    forall call: nat | call < |fates|
      ensures FateIsTrue(heap, active[b := mine], Free, call, fates[mine := Active(b)][call], computed[call],
              replies[call])
    {
      assert FateIsTrue(heap, active, Submitting(b), call, fates[call], computed[call], replies[call]);
    }
    forall a | a in active ensures active[a] != mine { }
  }

  lemma InsertKeepsPlaces(
    active: set<Address>, pending: seq<Address>, workers: seq<Worker>, scheduled: seq<Address>, b: Address)
    requires PlacedOnce(active, pending, workers, scheduled, Submitting(b)) && b !in active
    ensures PlacedOnce(active + {b}, pending + [b], workers, scheduled, Free)
  {
    forall a ensures Places(pending + [b], workers, scheduled, Free, a) == if a in active + {b} then 1 else 0 {
      TimesAppend(pending, b, a);
      assert Places(pending, workers, scheduled, Submitting(b), a) == if a in active then 1 else 0;
    }
  }

  lemma SubmittingExists(s: State)
    requires Inv(s) && s.loop.Submitting?
    ensures s.loop.at in s.heap && s.loop.at !in s.active && s.heap[s.loop.at].call < |s.fates|
    ensures s.heap[s.loop.at].result.None?
  {
    assert Owned(s.active.Keys, s.pending, s.workers, s.loop, s.loop.at);
    assert s.loop.at in s.heap.Keys;
  }

  lemma InsertKeepsInv(s: State)
    requires Inv(s) && Enabled(s, Insert)
    ensures Inv(Apply(s, Insert))
  {
    var b := s.loop.at;
    SubmittingExists(s);
    InsertKeepsFates(s.heap, s.active, b, s.fates, s.computed, s.replies);
    InsertKeepsPlaces(s.active.Keys, s.pending, s.workers, s.scheduled, b);
    var active' := s.active[b := s.heap[b].call];
    assert active'.Keys == s.active.Keys + {b};
    forall a
      ensures Owned(active'.Keys, s.pending + [b], s.workers, Free, a) <==>
              Owned(s.active.Keys, s.pending, s.workers, s.loop, a)
    {
    }
  }

  lemma RefusedKeepsFates(
    heap: map<Address, Operation>, active: map<Address, nat>, b: Address, fates: seq<Fate>, computed: seq<seq<Result>>,
    replies: seq<seq<Result>>)
    requires FatesAreTrue(heap, active, Submitting(b), fates, computed, replies)
    requires HandsAreTrue(heap, active, Submitting(b), fates) && b in heap
    requires ObjectsBelong(heap, active, computed) && heap[b].result.None?
    ensures var call := heap[b].call;
            && call < |fates|
            && FatesAreTrue(heap, active, Free, fates[call := Answered(NoMemory)], computed, replies)
            && HandsAreTrue(heap, active, Free, fates[call := Answered(NoMemory)])
  {
    var mine := heap[b].call;
    assert FateIsTrue(heap, active, Submitting(b), mine, fates[mine], computed[mine], replies[mine]);
    forall call: nat | call < |fates|
      ensures FateIsTrue(heap, active, Free, call, fates[mine := Answered(NoMemory)][call], computed[call],
              replies[call])
    {
      assert FateIsTrue(heap, active, Submitting(b), call, fates[call], computed[call], replies[call]);
    }
  }

  lemma InsertFailsKeepsInv(s: State)
    requires Inv(s) && Enabled(s, InsertFails)
    ensures Inv(Apply(s, InsertFails))
  {
    var b := s.loop.at;
    SubmittingExists(s);
    RefusedKeepsFates(s.heap, s.active, b, s.fates, s.computed, s.replies);
    var s' := s.(loop := Free, fates := s.fates[s.heap[b].call := Answered(NoMemory)]);
    forall a | Owned(s'.active.Keys, s'.pending, s'.workers, s'.loop, a) ensures a in s.heap.Keys {
      assert Owned(s.active.Keys, s.pending, s.workers, s.loop, a);
    }
    SameLoopPlace(s.active.Keys, s.pending, s.workers, s.scheduled, s.loop, Free);
    CollectKeepsInv(s');
  }

  // ----- Every run -----

  lemma StepKeepsInv(s: State, step: Step)
    requires Inv(s) && Enabled(s, step)
    ensures Inv(Apply(s, step))
  {
    match step
    case Call(_, _, _, _, _) => CallKeepsInv(s, step);
    case Insert => InsertKeepsInv(s);
    case InsertFails => InsertFailsKeepsInv(s);
    case TakeTask(w) => TakeTaskKeepsInv(s, w);
    case Compute(w, outcome) => ComputeKeepsInv(s, w, outcome);
    case Schedule(w) => ScheduleKeepsInv(s, w);
    case Release(w) => ReleaseKeepsInv(s, w);
    case Stop(w) => StopKeepsInv(s, w);
    case Fire(k) => FireKeepsInv(s, k);
    case TakeOwner => TakeOwnerKeepsInv(s);
    case Reply => ReplyKeepsInv(s);
    case Drop => DropKeepsInv(s);
  }

  lemma {:induction false} EveryRunKeepsInv(workerCount: nat, schedule: seq<Step>)
    ensures Inv(After(workerCount, schedule))
    decreases |schedule|
  {
    if schedule == [] {
      forall a ensures WorkersAt(Initial(workerCount).workers, a) == 0 { IdleWorkersAtNothing(workerCount, a); }
    } else {
      EveryRunKeepsInv(workerCount, schedule[..|schedule| - 1]);
      var before := After(workerCount, schedule[..|schedule| - 1]);
      var step := schedule[|schedule| - 1];
      if Enabled(before, step) { StepKeepsInv(before, step); }
    }
  }

  /** An active operation is queued, running, scheduled or being completed, and only one of these. */
  ghost predicate InOnePlace(s: State, a: Address) {
    Places(s.pending, s.workers, s.scheduled, s.loop, a) == 1
  }

  /**
   In every run: no submission finds its key taken, no completion finds its key
   missing, and nobody touches an object that has been destroyed; each call is
   answered at once, or is active in exactly one place, or has been replied to,
   once, with the result its own worker computed.
   */
  lemma EveryCallIsAnsweredOnce(workerCount: nat, schedule: seq<Step>, call: nat)
    requires call < |After(workerCount, schedule).fates|
    ensures var s := After(workerCount, schedule);
            && !s.crashed && |s.fates| == |s.computed| == |s.replies|
            && |s.replies[call]| <= 1 && s.replies[call] <= s.computed[call] && |s.computed[call]| <= 1
            && match s.fates[call]
               case Active(a) => a in s.active && s.active[a] == call && InOnePlace(s, a) && s.replies[call] == []
               case Replied(r) =>
                 && s.replies[call] == [r] && s.computed[call] == [r]
                 && forall a :: a in s.active ==> s.active[a] != call
               case _ => s.replies[call] == [] && forall a :: a in s.active ==> s.active[a] != call
  {
    EveryRunKeepsInv(workerCount, schedule);
    var s := After(workerCount, schedule);
    assert FateIsTrue(s.heap, s.active, s.loop, call, s.fates[call], s.computed[call], s.replies[call]);
    if s.fates[call].Active? { assert Places(s.pending, s.workers, s.scheduled, s.loop, s.fates[call].at) == 1; }
  }

  /** No object is destroyed while a worker, the queue, the active map or the event loop can still reach it. */
  lemma NobodyHoldsADeadObject(workerCount: nat, schedule: seq<Step>, a: Address)
    ensures var s := After(workerCount, schedule);
            && (|| SomeWorkerHolds(s.workers, a) || a in s.pending || a in s.scheduled || a in s.active
                || (!s.loop.Free? && s.loop.at == a)
                ==> a in s.heap)
            && (a in s.heap ==> Owned(s.active.Keys, s.pending, s.workers, s.loop, a))
  {
    EveryRunKeepsInv(workerCount, schedule);
    var s := After(workerCount, schedule);
    assert Places(s.pending, s.workers, s.scheduled, s.loop, a) == if a in s.active.Keys then 1 else 0;
    assert a in s.heap.Keys <==> Owned(s.active.Keys, s.pending, s.workers, s.loop, a);
  }
}
