/** A comparison in which no task has anything to object to can always be carried through to VERIFIED. */
module Completeness {
  import opened Common
  import opened Filesystem
  import opened Ledger
  import opened Plan
  import opened JoinEvidence
  import opened Verdict
  import opened Soundness
  import Workers

  /** The task is accepted, and nothing it records counts. */
  ghost predicate QuietTask(c: Workers.Sides, t: ReadTask) {
    && Workers.TaskFits(c, t)
    && match Workers.OpenOutcome(c, t)
       case Refused(action, accepted) => accepted && !Accuses(action)
       case Readable => Workers.ReadOutcome(c, t).1 == Workers.Accept && Quiet(Workers.ReadOutcome(c, t).0)
  }

  ghost predicate QuietPlan(c: Workers.Sides, tasks: seq<ReadTask>) {
    forall n :: 0 <= n < |tasks| ==> QuietTask(c, tasks[n])
  }

  lemma AfterOneMore(
    c: Workers.Sides, tasks: seq<ReadTask>, start: Workers.State, schedule: seq<Workers.Step>, step: Workers.Step)
    requires Workers.PlanFits(c, tasks) && Workers.Enabled(Workers.After(c, tasks, start, schedule), step)
    ensures Workers.After(c, tasks, start, schedule + [step]) ==
            Workers.Apply(c, tasks, Workers.After(c, tasks, start, schedule), step)
  {
    assert (schedule + [step])[..|schedule|] == schedule;
  }

  /** A single worker, undisturbed, with `k` tasks counted and `next` claimed. */
  ghost predicate Alone(s: Workers.State, phase: Workers.Phase, k: nat, next: nat) {
    && |s.workers| == 1 && s.workers[0].phase == phase && s.completed == k && s.next == next
    && !s.cancelled && !s.failed && Quiet(s.log)
  }

  lemma QuietAppend(log: seq<Action>, a: Action)
    requires Quiet(log) && !Accuses(a)
    ensures Quiet(log + [a])
  {
  }

  /** The worker records what is left to record, and counts the task. */
  lemma {:induction false} DrainNotes(
    c: Workers.Sides, tasks: seq<ReadTask>, start: Workers.State, schedule: seq<Workers.Step>, k: nat,
    todo: seq<Action>)
    returns (longer: seq<Workers.Step>)
    requires Workers.PlanFits(c, tasks) && Quiet(todo)
    requires Alone(Workers.After(c, tasks, start, schedule), Workers.Recording(k, todo, Workers.Accept), k, k + 1)
    ensures Alone(Workers.After(c, tasks, start, longer), Workers.Checking, k + 1, k + 1)
    decreases |todo|
  {
    var s := Workers.After(c, tasks, start, schedule);
    AfterOneMore(c, tasks, start, schedule, Workers.Note(0));
    longer := schedule + [Workers.Note(0)];
    if todo != [] {
      assert todo[0] in todo;
      QuietAppend(s.log, todo[0]);
      assert Quiet(todo[1..]) by { forall a | a in todo[1..] ensures !Accuses(a) { assert a in todo; } }
      longer := DrainNotes(c, tasks, start, longer, k, todo[1..]);
    }
  }

  lemma ClaimTask(c: Workers.Sides, tasks: seq<ReadTask>, start: Workers.State, schedule: seq<Workers.Step>, k: nat)
    returns (longer: seq<Workers.Step>)
    requires Workers.PlanFits(c, tasks) && k < |tasks|
    requires Alone(Workers.After(c, tasks, start, schedule), Workers.Checking, k, k)
    ensures Alone(Workers.After(c, tasks, start, longer), Workers.Opening_(k), k, k + 1)
  {
    AfterOneMore(c, tasks, start, schedule, Workers.Check(0));
    AfterOneMore(c, tasks, start, schedule + [Workers.Check(0)], Workers.Claim(0));
    longer := schedule + [Workers.Check(0)] + [Workers.Claim(0)];
  }

  /** Whether the stream was open already or not, opening it leads on to reading or to recording the refusal. */
  lemma OpenTask(c: Workers.Sides, tasks: seq<ReadTask>, log: seq<Action>, schedule: seq<Workers.Step>, k: nat)
    returns (longer: seq<Workers.Step>, todo: seq<Action>)
    requires Workers.PlanFits(c, tasks) && QuietPlan(c, tasks) && k < |tasks|
    requires Alone(Workers.After(c, tasks, Workers.Initial(1, log), schedule), Workers.Opening_(k), k, k + 1)
    ensures Quiet(todo)
    ensures Alone(Workers.After(c, tasks, Workers.Initial(1, log), longer), Workers.Recording(k, todo, Workers.Accept),
            k, k + 1)
  {
    var start := Workers.Initial(1, log);
    var s := Workers.After(c, tasks, start, schedule);
    Workers.UndisturbedRunIsSound(c, tasks, 1, log, schedule);
    assert Workers.WorkerSound(c, tasks, s, s.workers[0]);
    assert QuietTask(c, tasks[k]);
    AfterOneMore(c, tasks, start, schedule, Workers.Open(0));
    longer := schedule + [Workers.Open(0)];
    var s' := Workers.After(c, tasks, start, longer);
    match Workers.OpenOutcome(c, tasks[k])
    case Refused(action, accepted) =>
      todo := s'.workers[0].phase.todo;
    case Readable =>
      AfterOneMore(c, tasks, start, longer, Workers.Read(0));
      longer := longer + [Workers.Read(0)];
      todo := Workers.ReadOutcome(c, tasks[k]).0;
  }

  lemma RunTask(c: Workers.Sides, tasks: seq<ReadTask>, log: seq<Action>, schedule: seq<Workers.Step>, k: nat)
    returns (longer: seq<Workers.Step>)
    requires Workers.PlanFits(c, tasks) && QuietPlan(c, tasks) && k < |tasks|
    requires Alone(Workers.After(c, tasks, Workers.Initial(1, log), schedule), Workers.Checking, k, k)
    ensures Alone(Workers.After(c, tasks, Workers.Initial(1, log), longer), Workers.Checking, k + 1, k + 1)
  {
    longer := ClaimTask(c, tasks, Workers.Initial(1, log), schedule, k);
    var todo;
    longer, todo := OpenTask(c, tasks, log, longer, k);
    longer := DrainNotes(c, tasks, Workers.Initial(1, log), longer, k, todo);
  }

  lemma {:induction false} RunTasks(
    c: Workers.Sides, tasks: seq<ReadTask>, log: seq<Action>, k: nat) returns (schedule: seq<Workers.Step>)
    requires Workers.PlanFits(c, tasks) && QuietPlan(c, tasks) && k <= |tasks| && Quiet(log)
    ensures Alone(Workers.After(c, tasks, Workers.Initial(1, log), schedule), Workers.Checking, k, k)
  {
    if k == 0 { schedule := []; }
    else {
      schedule := RunTasks(c, tasks, log, k - 1);
      schedule := RunTask(c, tasks, log, schedule, k - 1);
    }
  }

  lemma RunToTheEnd(c: Workers.Sides, tasks: seq<ReadTask>, log: seq<Action>) returns (schedule: seq<Workers.Step>)
    requires Workers.PlanFits(c, tasks) && QuietPlan(c, tasks) && Quiet(log)
    ensures Alone(Workers.After(c, tasks, Workers.Initial(1, log), schedule), Workers.Exited, |tasks|, |tasks| + 1)
  {
    schedule := RunTasks(c, tasks, log, |tasks|);
    var start := Workers.Initial(1, log);
    AfterOneMore(c, tasks, start, schedule, Workers.Check(0));
    AfterOneMore(c, tasks, start, schedule + [Workers.Check(0)], Workers.Claim(0));
    schedule := schedule + [Workers.Check(0)] + [Workers.Claim(0)];
  }

  lemma QuietRunReturnsTrue(tasks: seq<ReadTask>, s: Workers.State)
    requires Alone(s, Workers.Exited, |tasks|, |tasks| + 1)
    ensures Workers.ReturnsTrue(tasks, s) && RecordAll(s.log).mismatchCount == 0
  {
    ZeroMismatchesMeansNoneReported(s.log);
  }

  function FullPlan(candidates: seq<ReadTask>): ComparisonPlan {
    ComparisonPlan(TotalLength(candidates) % WORD, TotalLength(candidates) % WORD, candidates)
  }

  /** The partner of `VerifiedIsClean`: nothing to object to, and some run of a full comparison is VERIFIED. */
  lemma QuietComparisonEndsVerified(c: Workers.Sides) returns (schedule: seq<Workers.Step>)
    requires AllInRange(c.syn, c.rea, ObjectJoin(c.syn, c.rea)) && SurfacesComplete(c)
    requires Quiet(ActionsOf(c.syn, c.rea, ObjectJoin(c.syn, c.rea))) && QuietPlan(c, Candidates(c))
    ensures EndsVerified(c, true, FullPlan(Candidates(c)), 1, schedule)
  {
    var actions := ActionsOf(c.syn, c.rea, ObjectJoin(c.syn, c.rea));
    PlannedTasksFit(c);
    schedule := RunToTheEnd(c, Candidates(c), actions);
    QuietRunReturnsTrue(Candidates(c), Workers.After(c, Candidates(c), Workers.Initial(1, actions), schedule));
  }

  /** Evidence without an accusation is a quiet task. */
  lemma CleanTaskIsQuiet(c: Workers.Sides, log: seq<Action>, t: ReadTask)
    requires Workers.TaskFits(c, t) && Workers.Evidence(c, t, log, [], Workers.Accept) && Quiet(log)
    ensures QuietTask(c, t)
  {
    match Workers.OpenOutcome(c, t)
    case Refused(action, accepted) => assert action in [action];
    case Readable => forall a | a in Workers.ReadOutcome(c, t).0 ensures !Accuses(a) { assert a in log; }
  }
}
