/**
 `RunComparisonWorkers`: workers race for the tasks of a plan through an atomic
 counter. Claims, ledger entries and completions are separate steps, and steps
 of different workers interleave freely.
 */
module Workers {
  import opened Common
  import opened Filesystem
  import opened Ledger
  import opened Plan

  /** The two sides of a comparison, with the inventories the plan indexes. */
  datatype Sides = Sides(syn: Inventory, rea: Inventory, synthetic: Volume, actual: Volume)

  ghost predicate TaskFits(c: Sides, t: ReadTask) {
    && t.syntheticObject < |c.syn.objects| && t.realObject < |c.rea.objects|
    && t.syntheticStream < |c.syn.objects[t.syntheticObject].streams|
    && t.realStream < |c.rea.objects[t.realObject].streams|
  }

  ghost predicate PlanFits(c: Sides, tasks: seq<ReadTask>) { forall n :: 0 <= n < |tasks| ==> TaskFits(c, tasks[n]) }

  /** The stream a task reads on each side. */
  datatype Key = Key(syntheticObject: nat, realObject: nat, syntheticStream: nat, realStream: nat)

  function KeyOf(t: ReadTask): Key { Key(t.syntheticObject, t.realObject, t.syntheticStream, t.realStream) }

  ghost function SyntheticPath(c: Sides, t: ReadTask): string requires TaskFits(c, t) {
    c.syn.objects[t.syntheticObject].path
  }
  ghost function RealPath(c: Sides, t: ReadTask): string requires TaskFits(c, t) { c.rea.objects[t.realObject].path }
  ghost function SyntheticName(c: Sides, t: ReadTask): string requires TaskFits(c, t) {
    c.syn.objects[t.syntheticObject].streams[t.syntheticStream].name
  }
  ghost function RealName(c: Sides, t: ReadTask): string requires TaskFits(c, t) {
    c.rea.objects[t.realObject].streams[t.realStream].name
  }

  ghost function OperationAction(
    c: Sides, t: ReadTask, operation: Operation, requested: nat, a: Option<Failure>, b: Option<Failure>): Action
    requires TaskFits(c, t)
  {
    RecordOperation(Comparison(
      IssueKey(SyntheticPath(c, t), SyntheticName(c, t), operation, if operation == OpenStream then 0 else t.offset),
        requested, a, b))
  }

  /**
   What tells operation records apart: one a stream for opening it, and one a chunk for seeking
   and for reading, with the failures of both sides.
   */
  lemma OperationRecordsTell(
    c: Sides, t: ReadTask, u: ReadTask, operation: Operation, requested: nat, a: Option<Failure>, b: Option<Failure>,
    other: Operation, amount: nat, a': Option<Failure>, b': Option<Failure>)
    requires TaskFits(c, t) && TaskFits(c, u)
    ensures OperationAction(c, t, operation, requested, a, b) == OperationAction(c, u, other, amount, a', b') <==>
            && SyntheticPath(c, t) == SyntheticPath(c, u) && SyntheticName(c, t) == SyntheticName(c, u)
            && operation == other && requested == amount && a == a' && b == b'
            && (operation.OpenStream? || t.offset == u.offset)
  {
  }

  /** Whether the current task counts as compared, or must not be counted. */
  datatype Verdict = Accept | Reject

  predicate Tolerates(excluded: bool, a: Option<Failure>, b: Option<Failure>) { FailuresMatch(a, b) || excluded }

  /** `OpenStream`: readable, or else what it records and whether the failure is accepted. */
  datatype Opening = Readable | Refused(action: Action, accepted: bool)

  ghost function OpenOutcome(c: Sides, t: ReadTask): Opening
    requires TaskFits(c, t)
  {
    var a := c.synthetic.openStream(SyntheticPath(c, t), SyntheticName(c, t));
    var b := c.actual.openStream(RealPath(c, t), RealName(c, t));
    if a.None? && b.None? then Readable
    else Refused(OperationAction(c, t, OpenStream, 0, a, b), Tolerates(IsVssExcluded(SyntheticPath(c, t)), a, b))
  }

  /** `TryReadStreamChunk`: no failure exactly when every wanted byte arrived. */
  function ReadFailure(result: ReadResult, wanted: nat): Option<Failure> {
    match result
    case ReadError(error) => Some(Failure(error, 0))
    case Transferred(bytes) => if |bytes| == wanted then None else Some(Failure(0, |bytes|))
  }

  function Bytes(result: ReadResult): seq<nat> { if result.Transferred? then result.bytes else [] }

  function FirstDifference(a: seq<nat>, b: seq<nat>): (n: nat)
    requires |a| == |b|
    ensures n <= |a| && a[..n] == b[..n] && (n < |a| ==> a[n] != b[n])
  {
    if a == [] || a[0] != b[0] then 0 else 1 + FirstDifference(a[1..], b[1..])
  }

  function CountDifferences(a: seq<nat>, b: seq<nat>): nat
    requires |a| == |b|
  {
    if a == [] then 0 else (if a[0] != b[0] then 1 else 0) + CountDifferences(a[1..], b[1..])
  }

  ghost function ContentActions(c: Sides, t: ReadTask, a: seq<nat>, b: seq<nat>): seq<Action>
    requires TaskFits(c, t) && |a| == |b|
  {
    var n := FirstDifference(a, b);
    if n == |a| then []
    else [RecordContent(SyntheticPath(c, t), SyntheticName(c, t), t.offset + n, a[n], b[n],
      CountDifferences(a[n..], b[n..]))]
  }

  ghost function DifferencesFrom(a: seq<nat>, b: seq<nat>, n: nat): set<nat>
    requires |a| == |b|
  {
    set i | n <= i < |a| && a[i] != b[i]
  }

  lemma {:induction false} CountIsDifferences(a: seq<nat>, b: seq<nat>, n: nat)
    requires n <= |a| == |b|
    ensures CountDifferences(a[n..], b[n..]) == |DifferencesFrom(a, b, n)|
    decreases |a| - n
  {
    if n == |a| { assert DifferencesFrom(a, b, n) == {}; }
    else {
      CountIsDifferences(a, b, n + 1);
      assert a[n..][1..] == a[n + 1..] && b[n..][1..] == b[n + 1..];
      if a[n] != b[n] { assert DifferencesFrom(a, b, n) == DifferencesFrom(a, b, n + 1) + {n}; }
      else { assert DifferencesFrom(a, b, n) == DifferencesFrom(a, b, n + 1); }
    }
  }

  /**
   What is recorded of a chunk's data: nothing when the bytes are equal, and otherwise the offset
   in the stream of the first byte that differs, both bytes there, and how many bytes differ.
   */
  lemma ContentActionsTell(c: Sides, t: ReadTask, a: seq<nat>, b: seq<nat>)
    requires TaskFits(c, t) && |a| == |b|
    ensures a == b ==> ContentActions(c, t, a, b) == []
    ensures a != b ==> exists n: nat ::
              && n < |a| && a[n] != b[n] && (forall i :: 0 <= i < n ==> a[i] == b[i])
              && ContentActions(c, t, a, b) ==
                 [RecordContent(SyntheticPath(c, t), SyntheticName(c, t), t.offset + n, a[n], b[n],
                                |set i | 0 <= i < |a| && a[i] != b[i]|)]
  {
    var n := FirstDifference(a, b);
    assert forall i :: 0 <= i < n ==> a[i] == a[..n][i] == b[..n][i] == b[i];
    if n < |a| {
      CountIsDifferences(a, b, n);
      assert DifferencesFrom(a, b, n) == set i | 0 <= i < |a| && a[i] != b[i];
    }
  }

  /** Everything `Compare` does once both streams are open: what it records, and its result. */
  ghost function ReadOutcome(c: Sides, t: ReadTask): (seq<Action>, Verdict)
    requires TaskFits(c, t)
  {
    var excluded := IsVssExcluded(SyntheticPath(c, t));
    var seekS := c.synthetic.seek(SyntheticPath(c, t), SyntheticName(c, t), t.offset);
    var seekR := c.actual.seek(RealPath(c, t), RealName(c, t), t.offset);
    if seekS.Some? || seekR.Some? then
      ([OperationAction(c, t, SeekStream, 0, seekS, seekR)], if Tolerates(excluded, seekS, seekR) then Accept
        else Reject)
    else
      var readS := c.synthetic.read(SyntheticPath(c, t), SyntheticName(c, t), t.offset, t.length);
      var readR := c.actual.read(RealPath(c, t), RealName(c, t), t.offset, t.length);
      var failS, failR := ReadFailure(readS, t.length), ReadFailure(readR, t.length);
      if failS.None? && failR.None? then (ContentActions(c, t, Bytes(readS), Bytes(readR)), Accept)
      else
        var noted := [OperationAction(c, t, ReadStream, t.length, failS, failR)];
        if !FailuresMatch(failS, failR) then (noted, if excluded then Accept else Reject)
        else if failS.value.error != 0 then (noted, Accept)
        else
          var a, b := Bytes(readS), Bytes(readR);
          (noted + if |a| == |b| then ContentActions(c, t, a, b) else [], Accept)
  }

  datatype Cache = Cache(key: Key, opening: Opening)

  datatype Phase =
    | Checking
    | Claiming
    | Opening_(index: nat)
    | Reading(index: nat)
    | Recording(index: nat, todo: seq<Action>, verdict: Verdict)
    | Exited

  datatype Worker = Worker(phase: Phase, cache: Option<Cache>)

  /** Shared state; `log` is every ledger action so far, and `accepted` remembers which tasks were counted. */
  datatype State = State(
    next: nat, completed: nat, workers: seq<Worker>, log: seq<Action>, accepted: set<nat>,
    cancelled: bool, failed: bool)

  function Initial(workerCount: nat, log: seq<Action>): State {
    State(0, 0, seq(workerCount, _ => Worker(Checking, None)), log, {}, false, false)
  }

  datatype Step = Check(w: nat) | Claim(w: nat) | Open(w: nat) | Read(w: nat) | Note(w: nat) | GiveUp(w: nat) |
    Throw(w: nat) | Cancel | Fail

  predicate Enabled(s: State, step: Step) {
    match step
    case Cancel => true
    case Fail => true
    case Check(w) => w < |s.workers| && s.workers[w].phase.Checking?
    case Claim(w) => w < |s.workers| && s.workers[w].phase.Claiming?
    case Open(w) => w < |s.workers| && s.workers[w].phase.Opening_?
    case Read(w) => w < |s.workers| && s.workers[w].phase.Reading?
    case Note(w) => w < |s.workers| && s.workers[w].phase.Recording?
    case GiveUp(w) => w < |s.workers| && s.cancelled && !s.workers[w].phase.Exited?
    case Throw(w) => w < |s.workers| && !s.workers[w].phase.Exited?
  }

  function Move(s: State, w: nat, phase: Phase): State
    requires w < |s.workers|
  {
    s.(workers := s.workers[w := s.workers[w].(phase := phase)])
  }

  ghost function Apply(c: Sides, tasks: seq<ReadTask>, s: State, step: Step): State
    requires PlanFits(c, tasks) && Enabled(s, step)
  {
    match step
    case Cancel => s.(cancelled := true)
    case Fail => s.(failed := true)
    case Check(w) => Move(s, w, if s.failed || s.cancelled then Exited else Claiming)
    case Claim(w) => Move(s.(next := s.next + 1), w, if s.next >= |tasks| then Exited else Opening_(s.next))
    case Open(w) => OpenStep(c, tasks, s, w)
    case Read(w) =>
      var index := s.workers[w].phase.index;
      if index >= |tasks| then s
      else
        var (todo, verdict) := ReadOutcome(c, tasks[index]);
        Move(s, w, Recording(index, todo, verdict))
    case Note(w) => NoteStep(s, w)
    // Compare returned false because the cancellation event was set; the half-made cache entry is not readable.
    case GiveUp(w) => Move(s, w, Checking)
    case Throw(w) => Move(s.(failed := true), w, Exited)
  }

  /** The stream stays open between tasks that read it; another stream is opened afresh. */
  ghost function OpenStep(c: Sides, tasks: seq<ReadTask>, s: State, w: nat): State
    requires PlanFits(c, tasks) && Enabled(s, Open(w))
  {
    var index := s.workers[w].phase.index;
    if index >= |tasks| then s
    else
      var t := tasks[index];
      var cache := s.workers[w].cache;
      if cache.Some? && cache.value.key == KeyOf(t) then
        (match cache.value.opening
         case Readable => Move(s, w, Reading(index))
         case Refused(_, accepted) => Move(s, w, Recording(index, [], if accepted then Accept else Reject)))
      else
        var s' := s.(workers := s.workers[w := s.workers[w].(cache := Some(Cache(KeyOf(t), OpenOutcome(c, t))))]);
        match OpenOutcome(c, t)
        case Readable => Move(s', w, Reading(index))
        case Refused(action, accepted) => Move(s', w, Recording(index, [action], if accepted then Accept else Reject))
  }

  /** Records one more action, or, with nothing left to record, counts an accepted task. */
  function NoteStep(s: State, w: nat): State
    requires Enabled(s, Note(w))
  {
    var Recording(index, todo, verdict) := s.workers[w].phase;
    if todo != [] then Move(s.(log := s.log + [todo[0]]), w, Recording(index, todo[1..], verdict))
    else if verdict == Accept then Move(s.(completed := s.completed + 1, accepted := s.accepted + {index}), w, Checking)
    else Move(s, w, Checking)
  }

  ghost function After(c: Sides, tasks: seq<ReadTask>, start: State, schedule: seq<Step>): State
    requires PlanFits(c, tasks)
    decreases |schedule|
  {
    if schedule == [] then start
    else
      var before := After(c, tasks, start, schedule[..|schedule| - 1]);
      var step := schedule[|schedule| - 1];
      if Enabled(before, step) then Apply(c, tasks, before, step) else before
  }

  // ----- What holds of every undisturbed run -----

  ghost predicate Logged(acts: seq<Action>, todo: seq<Action>, log: seq<Action>) {
    forall a :: a in acts ==> a in log || a in todo
  }

  /** The task was compared to its end: all it records is in the log, and it was acceptable. */
  ghost predicate Evidence(c: Sides, t: ReadTask, log: seq<Action>, todo: seq<Action>, verdict: Verdict)
    requires TaskFits(c, t)
  {
    match OpenOutcome(c, t)
    case Refused(action, accepted) => Logged([action], todo, log) && (accepted <==> verdict == Accept)
    case Readable => Logged(ReadOutcome(c, t).0, todo, log) && ReadOutcome(c, t).1 == verdict
  }

  predicate Claims(w: Worker, k: nat) {
    (w.phase.Opening_? || w.phase.Reading? || w.phase.Recording?) && w.phase.index == k
  }

  ghost predicate CacheTrue(c: Sides, tasks: seq<ReadTask>, w: Worker, log: seq<Action>)
    requires PlanFits(c, tasks)
  {
    w.cache.Some? ==>
      && (forall n :: 0 <= n < |tasks| && KeyOf(tasks[n]) == w.cache.value.key ==>
            OpenOutcome(c, tasks[n]) == w.cache.value.opening)
      && (w.cache.value.opening.Refused? ==>
            Logged([w.cache.value.opening.action], if w.phase.Recording? then w.phase.todo else [], log))
  }

  ghost predicate WorkerSound(c: Sides, tasks: seq<ReadTask>, s: State, w: Worker)
    requires PlanFits(c, tasks)
  {
    && CacheTrue(c, tasks, w, s.log)
    && (forall k: nat :: Claims(w, k) ==> k < s.next && k < |tasks| && k !in s.accepted)
    && (w.phase.Reading? ==> w.phase.index < |tasks| && OpenOutcome(c, tasks[w.phase.index]).Readable?)
    && (w.phase.Recording? ==>
          w.phase.index < |tasks| && Evidence(c, tasks[w.phase.index], s.log, w.phase.todo, w.phase.verdict))
  }

  ghost predicate Sound(c: Sides, tasks: seq<ReadTask>, s: State)
    requires PlanFits(c, tasks)
  {
    && s.completed == |s.accepted|
    && (forall k :: k in s.accepted ==> k < s.next && k < |tasks| && Evidence(c, tasks[k], s.log, [], Accept))
    && (forall w :: 0 <= w < |s.workers| ==> WorkerSound(c, tasks, s, s.workers[w]))
    && (forall v, w, k: nat ::
          0 <= v < |s.workers| && 0 <= w < |s.workers| && Claims(s.workers[v], k) && Claims(s.workers[w], k) ==> v == w)
  }

  /** The outcome of opening depends on the stream only, not on the chunk. */
  lemma OpeningIgnoresOffset(c: Sides, t: ReadTask, u: ReadTask)
    requires TaskFits(c, t) && TaskFits(c, u) && KeyOf(t) == KeyOf(u)
    ensures OpenOutcome(c, t) == OpenOutcome(c, u)
  {
  }

  /** A longer log keeps the evidence and every worker but the one that moved. */
  lemma SoundFrame(c: Sides, tasks: seq<ReadTask>, s: State, s': State, w: nat)
    requires PlanFits(c, tasks) && Sound(c, tasks, s) && w < |s.workers| == |s'.workers|
    requires s'.workers == s.workers[w := s'.workers[w]] && s.log <= s'.log && s.next <= s'.next
    requires s.accepted <= s'.accepted && s'.completed == |s'.accepted|
    requires forall k :: k in s'.accepted && k !in s.accepted ==>
             k < s'.next && k < |tasks| && Evidence(c, tasks[k], s'.log, [], Accept)
    requires forall k :: k in s'.accepted && k !in s.accepted ==> Claims(s.workers[w], k) && !Claims(s'.workers[w], k)
    requires WorkerSound(c, tasks, s', s'.workers[w])
    requires forall k: nat :: Claims(s'.workers[w], k) && !Claims(s.workers[w], k) ==> k >= s.next
    ensures Sound(c, tasks, s')
  {
    assert forall a :: a in s.log ==> a in s'.log;
    forall k | k in s'.accepted ensures k < s'.next && k < |tasks| && Evidence(c, tasks[k], s'.log, [], Accept) {
      if k in s.accepted { assert Evidence(c, tasks[k], s.log, [], Accept); }
    }
    forall v | 0 <= v < |s'.workers| ensures WorkerSound(c, tasks, s', s'.workers[v]) {
      if v != w {
        assert s'.workers[v] == s.workers[v] && WorkerSound(c, tasks, s, s.workers[v]);
        assert CacheTrue(c, tasks, s.workers[v], s'.log);
        forall k: nat | Claims(s'.workers[v], k) ensures k < s'.next && k < |tasks| && k !in s'.accepted {
          assert Claims(s.workers[v], k);
        }
      }
    }
    forall v, u, k: nat | 0 <= v < |s'.workers| && 0 <= u < |s'.workers| && Claims(s'.workers[v], k) &&
      Claims(s'.workers[u], k)
      ensures v == u
    {
      assert WorkerSound(c, tasks, s, s.workers[v]) && WorkerSound(c, tasks, s, s.workers[u]);
    }
  }

  lemma ClaimKeepsSound(c: Sides, tasks: seq<ReadTask>, s: State, w: nat)
    requires PlanFits(c, tasks) && Sound(c, tasks, s) && Enabled(s, Claim(w))
    ensures Sound(c, tasks, Apply(c, tasks, s, Claim(w)))
  {
    assert WorkerSound(c, tasks, s, s.workers[w]);
    SoundFrame(c, tasks, s, Apply(c, tasks, s, Claim(w)), w);
  }

  lemma OpenedWorkerSound(c: Sides, tasks: seq<ReadTask>, s: State, w: nat)
    requires PlanFits(c, tasks) && Enabled(s, Open(w)) && WorkerSound(c, tasks, s, s.workers[w])
    ensures var s' := OpenStep(c, tasks, s, w);
            s'.workers[w].phase.index == s.workers[w].phase.index && WorkerSound(c, tasks, s', s'.workers[w])
  {
    var k := s.workers[w].phase.index;
    assert Claims(s.workers[w], k);
    forall n | 0 <= n < |tasks| && KeyOf(tasks[n]) == KeyOf(tasks[k])
      ensures OpenOutcome(c, tasks[n]) == OpenOutcome(c, tasks[k])
    {
      OpeningIgnoresOffset(c, tasks[n], tasks[k]);
    }
  }

  lemma OpenMovesOneWorker(c: Sides, tasks: seq<ReadTask>, s: State, w: nat)
    requires PlanFits(c, tasks) && Enabled(s, Open(w))
    ensures var s' := OpenStep(c, tasks, s, w);
            && |s'.workers| == |s.workers| && s'.workers == s.workers[w := s'.workers[w]]
            && s'.log == s.log && s'.accepted == s.accepted && s'.next == s.next && s'.completed == s.completed
            && forall k: nat :: Claims(s'.workers[w], k) ==> Claims(s.workers[w], k)
  {
  }

  lemma OpenKeepsSound(c: Sides, tasks: seq<ReadTask>, s: State, w: nat)
    requires PlanFits(c, tasks) && Sound(c, tasks, s) && Enabled(s, Open(w))
    ensures Sound(c, tasks, OpenStep(c, tasks, s, w))
  {
    OpenedWorkerSound(c, tasks, s, w);
    OpenMovesOneWorker(c, tasks, s, w);
    SoundFrame(c, tasks, s, OpenStep(c, tasks, s, w), w);
  }

  lemma ReadKeepsSound(c: Sides, tasks: seq<ReadTask>, s: State, w: nat)
    requires PlanFits(c, tasks) && Sound(c, tasks, s) && Enabled(s, Read(w))
    ensures Sound(c, tasks, Apply(c, tasks, s, Read(w)))
  {
    assert WorkerSound(c, tasks, s, s.workers[w]);
    assert Claims(s.workers[w], s.workers[w].phase.index);
    SoundFrame(c, tasks, s, Apply(c, tasks, s, Read(w)), w);
  }

  lemma RecordingShrinks(c: Sides, t: ReadTask, log: seq<Action>, todo: seq<Action>, verdict: Verdict)
    requires TaskFits(c, t) && todo != [] && Evidence(c, t, log, todo, verdict)
    ensures Evidence(c, t, log + [todo[0]], todo[1..], verdict)
  {
  }

  lemma NotedWorkerSound(c: Sides, tasks: seq<ReadTask>, s: State, w: nat)
    requires PlanFits(c, tasks) && Enabled(s, Note(w)) && WorkerSound(c, tasks, s, s.workers[w])
    ensures var s' := NoteStep(s, w); WorkerSound(c, tasks, s', s'.workers[w])
  {
    var s' := NoteStep(s, w);
    var Recording(k, todo, verdict) := s.workers[w].phase;
    assert Claims(s.workers[w], k);
    if todo != [] {
      RecordingShrinks(c, tasks[k], s.log, todo, verdict);
      assert todo == [todo[0]] + todo[1..];
    }
    assert CacheTrue(c, tasks, s'.workers[w], s'.log);
  }

  lemma NoteMovesOneWorker(s: State, w: nat)
    requires Enabled(s, Note(w)) && s.completed == |s.accepted| && s.workers[w].phase.index !in s.accepted
    ensures var s', index := NoteStep(s, w), s.workers[w].phase.index;
            && |s'.workers| == |s.workers| && s'.workers == s.workers[w := s'.workers[w]]
            && s.log <= s'.log && s'.next == s.next && s'.completed == |s'.accepted| && s.accepted <= s'.accepted
            && (forall k :: k in s'.accepted && k !in s.accepted ==>
                  k == index && !Claims(s'.workers[w], k) && s.workers[w].phase == Recording(index, [], Accept))
            && (forall k: nat :: Claims(s'.workers[w], k) ==> Claims(s.workers[w], k))
            && (s'.accepted != s.accepted ==> s'.log == s.log)
  {
  }

  lemma NoteKeepsSound(c: Sides, tasks: seq<ReadTask>, s: State, w: nat)
    requires PlanFits(c, tasks) && Sound(c, tasks, s) && Enabled(s, Note(w))
    ensures Sound(c, tasks, NoteStep(s, w))
  {
    assert WorkerSound(c, tasks, s, s.workers[w]);
    assert Claims(s.workers[w], s.workers[w].phase.index);
    NotedWorkerSound(c, tasks, s, w);
    NoteMovesOneWorker(s, w);
    SoundFrame(c, tasks, s, NoteStep(s, w), w);
  }

  lemma UndisturbedStepKeepsSound(c: Sides, tasks: seq<ReadTask>, s: State, step: Step)
    requires PlanFits(c, tasks) && Sound(c, tasks, s) && Enabled(s, step) && !s.cancelled && !s.failed
    requires !Apply(c, tasks, s, step).cancelled && !Apply(c, tasks, s, step).failed
    ensures Sound(c, tasks, Apply(c, tasks, s, step))
  {
    match step
    case Check(w) =>
      assert WorkerSound(c, tasks, s, s.workers[w]);
      SoundFrame(c, tasks, s, Apply(c, tasks, s, step), w);
    case Claim(w) => ClaimKeepsSound(c, tasks, s, w);
    case Open(w) => OpenKeepsSound(c, tasks, s, w);
    case Read(w) => ReadKeepsSound(c, tasks, s, w);
    case Note(w) => NoteKeepsSound(c, tasks, s, w);
    case _ =>
  }

  lemma {:induction false} UndisturbedRunIsSound(
    c: Sides, tasks: seq<ReadTask>, workerCount: nat, log: seq<Action>, schedule: seq<Step>)
    requires PlanFits(c, tasks)
    ensures var s := After(c, tasks, Initial(workerCount, log), schedule);
            && log <= s.log && (!s.cancelled && !s.failed ==> Sound(c, tasks, s))
    decreases |schedule|
  {
    if schedule != [] {
      UndisturbedRunIsSound(c, tasks, workerCount, log, schedule[..|schedule| - 1]);
      var before := After(c, tasks, Initial(workerCount, log), schedule[..|schedule| - 1]);
      var step := schedule[|schedule| - 1];
      var s := After(c, tasks, Initial(workerCount, log), schedule);
      if Enabled(before, step) && !s.cancelled && !s.failed { UndisturbedStepKeepsSound(c, tasks, before, step); }
    }
  }

  /** The result of `RunComparisonWorkers`, read after every worker has been joined. */
  ghost predicate ReturnsTrue(tasks: seq<ReadTask>, s: State) {
    && (forall w :: 0 <= w < |s.workers| ==> s.workers[w].phase.Exited?)
    && !s.failed && !s.cancelled
    && (forall x :: x in RecordAll(s.log).comparisons ==> !IsContentOperationMismatch(x))
    && s.completed == |tasks|
  }

  lemma {:induction false} FullSubset(s: set<nat>, n: nat)
    requires (forall k :: k in s ==> k < n) && |s| == n
    ensures forall k: nat :: k < n ==> k in s
    decreases n
  {
    if n > 0 {
      if n - 1 in s {
        FullSubset(s - {n - 1}, n - 1);
        forall k: nat | k < n ensures k in s { if k < n - 1 { assert k in s - {n - 1}; } }
      } else {
        BoundedSize(s, n - 1);
      }
    }
  }

  lemma {:induction false} BoundedSize(s: set<nat>, n: nat)
    requires forall k :: k in s ==> k < n
    ensures |s| <= n
    decreases n
  {
    if n == 0 { assert s == {}; }
    else { BoundedSize(s - {n - 1}, n - 1); assert |s| <= |s - {n - 1}| + 1; }
  }

  /**
   However the workers raced, a true result means that every task of the plan
   was claimed by one worker, compared to its end and accepted, and that all
   its comparison recorded is in the ledger.
   */
  lemma TrueMeansEveryTaskAccepted(
    c: Sides, tasks: seq<ReadTask>, workerCount: nat, log: seq<Action>, schedule: seq<Step>)
    requires PlanFits(c, tasks) && ReturnsTrue(tasks, After(c, tasks, Initial(workerCount, log), schedule))
    ensures var s := After(c, tasks, Initial(workerCount, log), schedule);
            forall k :: 0 <= k < |tasks| ==> k in s.accepted && Evidence(c, tasks[k], s.log, [], Accept)
  {
    UndisturbedRunIsSound(c, tasks, workerCount, log, schedule);
    var s := After(c, tasks, Initial(workerCount, log), schedule);
    FullSubset(s.accepted, |tasks|);
  }
}
