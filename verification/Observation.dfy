/**
 `VerificationState::Observe` against concurrent writers: a progress report is
 copied member by member, in declaration order, and the copy of one member
 releases the mutex half way through.
 */
module Observation {
  import opened Common

  datatype Plan = Plan(availableBytes: nat, selectedBytes: nat)

  /** The members of the observation, in the order in which they are copied. */
  datatype Report = Report(
    planReady: bool, comparisonComplete: bool, mismatchCount: nat, exclusionCount: nat, matchedErrorCount: nat,
    failed: bool, failure: Option<nat>, availableBytes: nat, selectedBytes: nat, comparedBytes: nat)

  const BLANK := Report(false, false, 0, 0, 0, false, None, 0, 0, 0)

  datatype Holder = Nobody | Writer(w: nat) | Observer(r: nat)

  /** The counter of one more comparison record. */
  datatype Tally = Mismatch | Exclusion | MatchedError

  /** What a writer does under the mutex. */
  datatype Job = Count(tally: Tally) | Fail(error: nat)

  /** A thread that has gone is one that another thread may have joined. */
  datatype WriterState = Resting | Entered(job: Job) | Stored | Leaving | Gone

  /** The thread that runs `CompareFilesystems`; the others are those it starts. */
  const MAIN: nat := 0

  /** How far an observer has come: it copies one member, or does one part of the release, at a time. */
  datatype Stage =
    | Waiting | AtPlanReady | AtComplete | AtMismatches | AtExclusions | AtMatchedErrors | AtFailed | AtFailure
    | AtUnlock | Releasing | AtAvailable | AtSelected | AtCompared | Done

  datatype ObserverState = ObserverState(stage: Stage, copy: Report, releases: nat)

  /** `pending` is the lock that copying will release; `planned` counts the stores of `SetPlan`. */
  datatype State = State(
    shared: Report, mutex: Holder, pending: Option<nat>, planned: nat,
    writers: seq<WriterState>, observers: seq<ObserverState>)

  function Initial(workers: nat, observers: nat): State {
    State(BLANK, Nobody, None, 0, seq(workers + 1, _ => Resting), seq(observers, _ => ObserverState(Waiting, BLANK, 0)))
  }

  datatype Step =
    | StorePlan | RecordCompared(w: nat, bytes: nat) | CompleteComparison
    | Enter(w: nat, job: Job) | Work(w: nat) | Leave(w: nat) | Exit(w: nat)
    | Observe(r: nat)

  predicate IsResting(s: State, w: nat) { w < |s.writers| && s.writers[w].Resting? }

  /**
   The main thread records while it builds the plan, stores the plan, starts
   workers, joins them, and only then may declare the comparison complete.
   Workers record after the plan was stored. Any thread may fail.
   */
  predicate Enabled(s: State, step: Step) {
    match step
    case StorePlan => IsResting(s, MAIN) && s.planned < 3
    case RecordCompared(w, _) => w != MAIN && IsResting(s, w) && s.planned == 3
    case CompleteComparison =>
      IsResting(s, MAIN) && s.planned == 3 && forall w :: 0 < w < |s.writers| ==> s.writers[w].Gone?
    case Enter(w, job) =>
      && IsResting(s, w) && s.mutex.Nobody?
      && (job.Count? ==> if w == MAIN then s.planned == 0 else s.planned == 3)
    case Work(w) => w < |s.writers| && (s.writers[w].Entered? || s.writers[w].Stored?)
    case Leave(w) => w < |s.writers| && s.writers[w].Leaving?
    case Exit(w) => w != MAIN && IsResting(s, w)
    case Observe(r) =>
      r < |s.observers| && !s.observers[r].stage.Done? && (s.observers[r].stage.Waiting? ==> s.mutex.Nobody?)
  }

  /** The three stores of `SetPlan`: the sizes, then the flag. */
  function StorePlanStep(plan: Plan, s: State): State {
    var shared := if s.planned == 0 then s.shared.(availableBytes := plan.availableBytes)
                  else if s.planned == 1 then s.shared.(selectedBytes := plan.selectedBytes)
                  else s.shared.(planReady := true);
    s.(shared := shared, planned := s.planned + 1)
  }

  function OneMore(shared: Report, tally: Tally): Report {
    match tally
    case Mismatch => shared.(mismatchCount := shared.mismatchCount + 1)
    case Exclusion => shared.(exclusionCount := shared.exclusionCount + 1)
    case MatchedError => shared.(matchedErrorCount := shared.matchedErrorCount + 1)
  }

  function WorkStep(s: State, w: nat): State
    requires Enabled(s, Work(w))
  {
    match s.writers[w]
    case Entered(Count(tally)) => s.(shared := OneMore(s.shared, tally), writers := s.writers[w := Leaving])
    case Entered(Fail(error)) =>
      if s.shared.failed then s.(writers := s.writers[w := Leaving])
      else s.(shared := s.shared.(failure := Some(error)), writers := s.writers[w := Stored])
    case Stored => s.(shared := s.shared.(failed := true), writers := s.writers[w := Leaving])
  }

  /** The member copied in a stage, and the stage after it. */
  function CopyMember(stage: Stage, copy: Report, shared: Report): Report {
    match stage
    case AtPlanReady => copy.(planReady := shared.planReady)
    case AtComplete => copy.(comparisonComplete := shared.comparisonComplete)
    case AtMismatches => copy.(mismatchCount := shared.mismatchCount)
    case AtExclusions => copy.(exclusionCount := shared.exclusionCount)
    case AtMatchedErrors => copy.(matchedErrorCount := shared.matchedErrorCount)
    case AtFailed => copy.(failed := shared.failed)
    case AtFailure => copy.(failure := shared.failure)
    case AtAvailable => copy.(availableBytes := shared.availableBytes)
    case AtSelected => copy.(selectedBytes := shared.selectedBytes)
    case AtCompared => copy.(comparedBytes := shared.comparedBytes)
    case _ => copy
  }

  function NextStage(stage: Stage): Stage {
    match stage
    case Waiting => AtPlanReady
    case AtPlanReady => AtComplete
    case AtComplete => AtMismatches
    case AtMismatches => AtExclusions
    case AtExclusions => AtMatchedErrors
    case AtMatchedErrors => AtFailed
    case AtFailed => AtFailure
    case AtFailure => AtUnlock
    case AtUnlock => Releasing
    case Releasing => AtAvailable
    case AtAvailable => AtSelected
    case AtSelected => AtCompared
    case AtCompared => Done
    case Done => Done
  }

  function ObserveStep(s: State, r: nat): State
    requires Enabled(s, Observe(r))
  {
    var ObserverState(stage, copy, releases) := s.observers[r];
    match stage
    case Waiting =>
      s.(mutex := Observer(r), pending := Some(r),
         observers := s.observers[r := ObserverState(AtPlanReady, BLANK, 0)])
    // The pointer to the lock is cleared before the lock is released; without one nothing is released.
    case AtUnlock => Copied(s.(pending := None), r, if s.pending == Some(r) then Releasing else AtAvailable, copy)
    case Releasing => s.(mutex := Nobody, observers := s.observers[r := ObserverState(AtAvailable, copy, releases + 1)])
    case _ => Copied(s, r, NextStage(stage), CopyMember(stage, copy, s.shared))
  }

  function Copied(s: State, r: nat, stage: Stage, copy: Report): State
    requires r < |s.observers|
  {
    s.(observers := s.observers[r := ObserverState(stage, copy, s.observers[r].releases)])
  }

  function Apply(plan: Plan, s: State, step: Step): State
    requires Enabled(s, step)
  {
    match step
    case StorePlan => StorePlanStep(plan, s)
    case RecordCompared(_, bytes) => s.(shared := s.shared.(comparedBytes := s.shared.comparedBytes + bytes))
    case CompleteComparison => s.(shared := s.shared.(comparisonComplete := true))
    case Enter(w, job) => s.(mutex := Writer(w), writers := s.writers[w := Entered(job)])
    case Work(w) => WorkStep(s, w)
    case Leave(w) => s.(mutex := Nobody, writers := s.writers[w := Resting])
    case Exit(w) => s.(writers := s.writers[w := Gone])
    case Observe(r) => ObserveStep(s, r)
  }

  function After(plan: Plan, workers: nat, observers: nat, schedule: seq<Step>): State
    decreases |schedule|
  {
    if schedule == [] then Initial(workers, observers)
    else
      var before := After(plan, workers, observers, schedule[..|schedule| - 1]);
      var step := schedule[|schedule| - 1];
      if Enabled(before, step) then Apply(plan, before, step) else before
  }

  // ----- The invariant -----

  function Rank(stage: Stage): nat {
    match stage
    case Waiting => 0 case AtPlanReady => 1 case AtComplete => 2
    case AtMismatches => 3 case AtExclusions => 4 case AtMatchedErrors => 5
    case AtFailed => 6 case AtFailure => 7 case AtUnlock => 8 case Releasing => 9
    case AtAvailable => 10 case AtSelected => 11 case AtCompared => 12 case Done => 13
  }

  /** From taking the mutex to releasing it. */
  predicate InLock(stage: Stage) { 1 <= Rank(stage) <= 9 }

  /** The plan's sizes are final before the flag is set. */
  predicate PlanIsFinal(plan: Plan, shared: Report, planned: nat) {
    && (planned >= 1 ==> shared.availableBytes == plan.availableBytes)
    && (planned >= 2 ==> shared.selectedBytes == plan.selectedBytes)
    && (shared.planReady <==> planned >= 3) && planned <= 3
  }

  predicate IsInside(writer: WriterState) { !writer.Resting? && !writer.Gone? }

  /** The mutex has one holder, and only a holder is between lock and unlock. */
  ghost predicate MutexIsExclusive(mutex: Holder, writers: seq<WriterState>, observers: seq<ObserverState>) {
    && (forall w :: 0 <= w < |writers| ==> (IsInside(writers[w]) <==> mutex == Writer(w)))
    && (forall r :: 0 <= r < |observers| ==> (InLock(observers[r].stage) <==> mutex == Observer(r)))
    && (mutex.Writer? ==> mutex.w < |writers|) && (mutex.Observer? ==> mutex.r < |observers|)
  }

  /** The exception is stored before the failure flag. */
  ghost predicate FailureIsStored(shared: Report, mutex: Holder, writers: seq<WriterState>) {
    && (shared.failed ==> shared.failure.Some?)
    && (shared.failure.Some? && !shared.failed ==> mutex.Writer? && mutex.w < |writers| && writers[mutex.w].Stored?)
    && (mutex.Writer? && mutex.w < |writers| && writers[mutex.w].Stored? ==> shared.failure.Some?)
  }

  predicate IsCounting(writer: WriterState) { writer.Entered? && writer.job.Count? }

  /** The main thread counts only before it stores the plan, and when it completes no other thread is left. */
  ghost predicate CountsAreFinal(shared: Report, planned: nat, writers: seq<WriterState>) {
    && |writers| > 0
    && (planned > 0 ==> !IsCounting(writers[MAIN]))
    && (shared.comparisonComplete ==> planned == 3 && forall w :: 0 < w < |writers| ==> writers[w].Gone?)
  }

  /** What a copy says of itself is true of the shared state, now and later. */
  predicate CopyIsTrue(plan: Plan, shared: Report, o: ObserverState) {
    && (o.copy.planReady ==> shared.planReady)
    && (o.copy.comparisonComplete ==> shared.comparisonComplete)
    && (o.copy.comparisonComplete && Rank(o.stage) >= 4 ==> o.copy.mismatchCount == shared.mismatchCount)
    && (o.copy.comparisonComplete && Rank(o.stage) >= 5 ==> o.copy.exclusionCount == shared.exclusionCount)
    && (o.copy.comparisonComplete && Rank(o.stage) >= 6 ==> o.copy.matchedErrorCount == shared.matchedErrorCount)
    && (o.copy.failed ==> shared.failed)
    && (7 == Rank(o.stage) ==> o.copy.failed == shared.failed)
    && (Rank(o.stage) >= 8 ==>
          (o.copy.failed <==> o.copy.failure.Some?) && (o.copy.failed ==> o.copy.failure == shared.failure))
    && (o.copy.planReady && Rank(o.stage) >= 11 ==> o.copy.availableBytes == plan.availableBytes)
    && (o.copy.planReady && Rank(o.stage) >= 12 ==> o.copy.selectedBytes == plan.selectedBytes)
    && (o.copy.comparisonComplete && Rank(o.stage) >= 13 ==> o.copy.comparedBytes == shared.comparedBytes)
    && (Rank(o.stage) <= 1 ==> !o.copy.planReady) && (Rank(o.stage) <= 2 ==> !o.copy.comparisonComplete)
    && (Rank(o.stage) <= 6 ==> !o.copy.failed)
    && o.releases == (if Rank(o.stage) >= 10 then 1 else 0)
  }

  ghost predicate CopiesAreTrue(plan: Plan, shared: Report, observers: seq<ObserverState>) {
    forall r :: 0 <= r < |observers| ==> CopyIsTrue(plan, shared, observers[r])
  }

  /** The lock to be released is the holder's, until the holder has cleared it. */
  ghost predicate PendingIsHolder(mutex: Holder, pending: Option<nat>, observers: seq<ObserverState>) {
    && (pending.Some? ==>
          mutex == Observer(pending.value) && pending.value < |observers| && Rank(observers[pending.value].stage) <= 8)
    && (mutex.Observer? && mutex.r < |observers| && Rank(observers[mutex.r].stage) <= 8 ==> pending == Some(mutex.r))
  }

  ghost predicate Inv(plan: Plan, s: State) {
    && PlanIsFinal(plan, s.shared, s.planned)
    && MutexIsExclusive(s.mutex, s.writers, s.observers)
    && FailureIsStored(s.shared, s.mutex, s.writers)
    && CountsAreFinal(s.shared, s.planned, s.writers)
    && CopiesAreTrue(plan, s.shared, s.observers)
    && PendingIsHolder(s.mutex, s.pending, s.observers)
  }

  // ----- Every step keeps it -----

  predicate SameCounts(before: Report, after: Report) {
    && after.mismatchCount == before.mismatchCount && after.exclusionCount == before.exclusionCount
    && after.matchedErrorCount == before.matchedErrorCount && after.comparedBytes == before.comparedBytes
  }

  /** How the shared members may change without touching a copy already made. */
  predicate Grows(before: Report, after: Report) {
    && (before.planReady ==> after.planReady)
    && (before.comparisonComplete ==> after.comparisonComplete && SameCounts(before, after))
    && (before.failed ==> after.failed && after.failure == before.failure)
  }

  lemma CopiesSurvive(plan: Plan, before: Report, after: Report, observers: seq<ObserverState>)
    requires CopiesAreTrue(plan, before, observers) && Grows(before, after)
    requires before.failed == after.failed || forall r :: 0 <= r < |observers| ==> !InLock(observers[r].stage)
    ensures CopiesAreTrue(plan, after, observers)
  {
    forall r | 0 <= r < |observers| ensures CopyIsTrue(plan, after, observers[r]) {
      assert CopyIsTrue(plan, before, observers[r]);
    }
  }

  lemma PlanKeepsInv(plan: Plan, s: State)
    requires Inv(plan, s) && Enabled(s, StorePlan)
    ensures Inv(plan, Apply(plan, s, StorePlan))
  {
    var s' := Apply(plan, s, StorePlan);
    CopiesSurvive(plan, s.shared, s'.shared, s.observers);
  }

  lemma SharedStepKeepsInv(plan: Plan, s: State, step: Step)
    requires Inv(plan, s) && Enabled(s, step) && (step.RecordCompared? || step.CompleteComparison?)
    ensures Inv(plan, Apply(plan, s, step))
  {
    assert step.RecordCompared? ==> !s.shared.comparisonComplete;
    CopiesSurvive(plan, s.shared, Apply(plan, s, step).shared, s.observers);
  }

  lemma EnterKeepsInv(plan: Plan, s: State, w: nat, job: Job)
    requires Inv(plan, s) && Enabled(s, Enter(w, job))
    ensures Inv(plan, Apply(plan, s, Enter(w, job)))
  {
  }

  lemma ExitKeepsInv(plan: Plan, s: State, w: nat)
    requires Inv(plan, s) && Enabled(s, Exit(w))
    ensures Inv(plan, Apply(plan, s, Exit(w)))
  {
  }

  lemma LeaveKeepsInv(plan: Plan, s: State, w: nat)
    requires Inv(plan, s) && Enabled(s, Leave(w))
    ensures Inv(plan, Apply(plan, s, Leave(w)))
  {
  }

  lemma WorkKeepsInv(plan: Plan, s: State, w: nat)
    requires Inv(plan, s) && Enabled(s, Work(w))
    ensures Inv(plan, Apply(plan, s, Work(w)))
  {
    var s' := Apply(plan, s, Work(w));
    assert IsInside(s.writers[w]) && s.mutex == Writer(w);
    assert IsCounting(s.writers[w]) ==> !s.shared.comparisonComplete;
    CopiesSurvive(plan, s.shared, s'.shared, s.observers);
  }

  /** What an observer in its stage may rely on, apart from the other threads. */
  ghost predicate Stands(plan: Plan, s: State, r: nat)
    requires r < |s.observers|
  {
    && PlanIsFinal(plan, s.shared, s.planned) && CopyIsTrue(plan, s.shared, s.observers[r])
    && (s.shared.failed ==> s.shared.failure.Some?)
    && (InLock(s.observers[r].stage) ==> (s.shared.failed <==> s.shared.failure.Some?))
    && (1 <= Rank(s.observers[r].stage) <= 8 ==> s.pending == Some(r))
  }

  lemma InvStands(plan: Plan, s: State, r: nat)
    requires Inv(plan, s) && r < |s.observers|
    ensures Stands(plan, s, r)
  {
    assert InLock(s.observers[r].stage) <==> s.mutex == Observer(r);
    assert CopyIsTrue(plan, s.shared, s.observers[r]);
  }

  function WithMember(shared: Report, o: ObserverState): ObserverState {
    ObserverState(NextStage(o.stage), CopyMember(o.stage, o.copy, shared), o.releases)
  }

  lemma LockedMemberIsTrue(plan: Plan, shared: Report, o: ObserverState)
    requires CopyIsTrue(plan, shared, o) && 1 <= Rank(o.stage) <= 7 && (shared.failed <==> shared.failure.Some?)
    ensures CopyIsTrue(plan, shared, WithMember(shared, o))
  {
  }

  lemma UnlockedMemberIsTrue(plan: Plan, shared: Report, planned: nat, o: ObserverState)
    requires CopyIsTrue(plan, shared, o) && 10 <= Rank(o.stage) <= 12 && PlanIsFinal(plan, shared, planned)
    ensures CopyIsTrue(plan, shared, WithMember(shared, o))
  {
  }

  lemma ObservedCopyIsTrue(plan: Plan, s: State, r: nat)
    requires Enabled(s, Observe(r)) && Stands(plan, s, r)
    ensures var s' := ObserveStep(s, r);
            s'.shared == s.shared && |s'.observers| == |s.observers| && CopyIsTrue(plan, s.shared, s'.observers[r])
  {
    var o := s.observers[r];
    if 1 <= Rank(o.stage) <= 7 { LockedMemberIsTrue(plan, s.shared, o); }
    else if Rank(o.stage) >= 10 { UnlockedMemberIsTrue(plan, s.shared, s.planned, o); }
  }

  /** A step that neither takes nor gives up the lock or the pointer to it. */
  lemma OtherStageKeepsMutex(
    mutex: Holder, pending: Option<nat>, writers: seq<WriterState>, observers: seq<ObserverState>, r: nat,
    o: ObserverState)
    requires r < |observers| && MutexIsExclusive(mutex, writers, observers)
    requires PendingIsHolder(mutex, pending, observers)
    requires InLock(o.stage) == InLock(observers[r].stage) && (Rank(o.stage) <= 8 <==> Rank(observers[r].stage) <= 8)
    ensures MutexIsExclusive(mutex, writers, observers[r := o]) && PendingIsHolder(mutex, pending, observers[r := o])
  {
  }

  lemma TakingKeepsMutex(
    pending: Option<nat>, writers: seq<WriterState>, observers: seq<ObserverState>, r: nat, o: ObserverState)
    requires r < |observers| && MutexIsExclusive(Nobody, writers, observers) && o.stage.AtPlanReady?
    ensures MutexIsExclusive(Observer(r), writers, observers[r := o])
    ensures PendingIsHolder(Observer(r), Some(r), observers[r := o])
  {
  }

  lemma ClearingKeepsMutex(
    mutex: Holder, writers: seq<WriterState>, observers: seq<ObserverState>, r: nat, o: ObserverState)
    requires r < |observers| && MutexIsExclusive(mutex, writers, observers) && observers[r].stage.AtUnlock?
    requires o.stage.Releasing?
    ensures MutexIsExclusive(mutex, writers, observers[r := o]) && PendingIsHolder(mutex, None, observers[r := o])
  {
    assert InLock(observers[r].stage);
  }

  lemma ReleasingKeepsMutex(
    mutex: Holder, pending: Option<nat>, writers: seq<WriterState>, observers: seq<ObserverState>, r: nat,
    o: ObserverState)
    requires r < |observers| && MutexIsExclusive(mutex, writers, observers)
    requires PendingIsHolder(mutex, pending, observers)
    requires observers[r].stage.Releasing? && o.stage.AtAvailable?
    ensures mutex == Observer(r) && pending.None?
    ensures MutexIsExclusive(Nobody, writers, observers[r := o]) && PendingIsHolder(Nobody, pending, observers[r := o])
  {
    assert InLock(observers[r].stage);
  }

  ghost predicate MutexKept(s: State) {
    MutexIsExclusive(s.mutex, s.writers, s.observers) && PendingIsHolder(s.mutex, s.pending, s.observers)
  }

  lemma CopyingKeepsMutex(s: State, r: nat)
    requires MutexKept(s) && Enabled(s, Observe(r))
    requires var stage := s.observers[r].stage; !stage.Waiting? && !stage.AtUnlock? && !stage.Releasing?
    ensures MutexKept(ObserveStep(s, r)) && ObserveStep(s, r).mutex == s.mutex
  {
    var stage := s.observers[r].stage;
    assert Rank(NextStage(stage)) == Rank(stage) + 1;
    OtherStageKeepsMutex(s.mutex, s.pending, s.writers, s.observers, r, ObserveStep(s, r).observers[r]);
  }

  lemma ObserveKeepsMutex(s: State, r: nat)
    requires MutexKept(s) && Enabled(s, Observe(r)) && (s.observers[r].stage.AtUnlock? ==> s.pending == Some(r))
    ensures MutexKept(ObserveStep(s, r))
    ensures ObserveStep(s, r).mutex != s.mutex ==> s.mutex.Nobody? || s.mutex == Observer(r)
  {
    var stage := s.observers[r].stage;
    if stage.Waiting? { TakingKeepsMutex(s.pending, s.writers, s.observers, r, ObserverState(AtPlanReady, BLANK, 0)); }
    else if stage.AtUnlock? { ClearingKeepsMutex(s.mutex, s.writers, s.observers, r, ObserveStep(s, r).observers[r]); }
    else if stage.Releasing? {
      ReleasingKeepsMutex(s.mutex, s.pending, s.writers, s.observers, r, ObserveStep(s, r).observers[r]);
    }
    else { CopyingKeepsMutex(s, r); }
  }

  lemma ObserveKeepsInv(plan: Plan, s: State, r: nat)
    requires Inv(plan, s) && Enabled(s, Observe(r))
    ensures Inv(plan, Apply(plan, s, Observe(r)))
  {
    InvStands(plan, s, r);
    ObservedCopyIsTrue(plan, s, r);
    ObserveKeepsMutex(s, r);
    var s' := ObserveStep(s, r);
    forall q | 0 <= q < |s'.observers| ensures CopyIsTrue(plan, s'.shared, s'.observers[q]) {
      if q != r { assert s'.observers[q] == s.observers[q] && CopyIsTrue(plan, s.shared, s.observers[q]); }
    }
  }

  lemma {:induction false} EveryRunKeepsInv(plan: Plan, workers: nat, observers: nat, schedule: seq<Step>)
    ensures Inv(plan, After(plan, workers, observers, schedule))
    decreases |schedule|
  {
    if schedule != [] {
      EveryRunKeepsInv(plan, workers, observers, schedule[..|schedule| - 1]);
      var before := After(plan, workers, observers, schedule[..|schedule| - 1]);
      var step := schedule[|schedule| - 1];
      if Enabled(before, step) {
        match step
        case StorePlan => PlanKeepsInv(plan, before);
        case RecordCompared(_, _) => SharedStepKeepsInv(plan, before, step);
        case CompleteComparison => SharedStepKeepsInv(plan, before, step);
        case Enter(w, job) => EnterKeepsInv(plan, before, w, job);
        case Work(w) => WorkKeepsInv(plan, before, w);
        case Leave(w) => LeaveKeepsInv(plan, before, w);
        case Exit(w) => ExitKeepsInv(plan, before, w);
        case Observe(r) => ObserveKeepsInv(plan, before, r);
      }
    }
  }

  /**
   Whatever the interleaving, a finished copy with `plan_ready` holds the final
   plan sizes, one with `comparison_complete` holds the final counts (no later
   step changes them), one with `failed` holds its exception, and the observer
   released the mutex exactly once.
   */
  lemma ReportIsConsistent(plan: Plan, workers: nat, observers: nat, schedule: seq<Step>, r: nat)
    requires r < |After(plan, workers, observers, schedule).observers|
    requires After(plan, workers, observers, schedule).observers[r].stage.Done?
    ensures var s := After(plan, workers, observers, schedule);
            var copy := s.observers[r].copy;
            && (copy.planReady ==>
                  copy.availableBytes == plan.availableBytes && copy.selectedBytes == plan.selectedBytes)
            && (copy.comparisonComplete ==> SameCounts(copy, s.shared))
            && (copy.failed <==> copy.failure.Some?) && (copy.failed ==> copy.failure == s.shared.failure)
            && s.observers[r].releases == 1
  {
    EveryRunKeepsInv(plan, workers, observers, schedule);
    var s := After(plan, workers, observers, schedule);
    assert CopyIsTrue(plan, s.shared, s.observers[r]);
  }

  predicate CountsStay(before: Report, after: Report) { after.comparisonComplete && SameCounts(before, after) }

  /** After every worker has been joined and the comparison declared complete, no continuation changes a count. */
  lemma CompletedCountsAreFinal(plan: Plan, workers: nat, observers: nat, schedule: seq<Step>, more: seq<Step>)
    requires After(plan, workers, observers, schedule).shared.comparisonComplete
    ensures CountsStay(After(plan, workers, observers, schedule).shared,
                       After(plan, workers, observers, schedule + more).shared)
  {
    FinalCountsStay(plan, workers, observers, schedule, more, After(plan, workers, observers, schedule).shared);
  }

  lemma {:induction false} FinalCountsStay(
    plan: Plan, workers: nat, observers: nat, schedule: seq<Step>, more: seq<Step>, final: Report)
    requires CountsStay(final, After(plan, workers, observers, schedule).shared)
    ensures CountsStay(final, After(plan, workers, observers, schedule + more).shared)
    decreases |more|
  {
    if more == [] { assert schedule + more == schedule; }
    else {
      CompletedStaysComplete(plan, workers, observers, schedule, more[0]);
      FinalCountsStay(plan, workers, observers, schedule + [more[0]], more[1..], final);
      assert schedule + more == schedule + [more[0]] + more[1..];
    }
  }

  lemma CompletedStaysComplete(plan: Plan, workers: nat, observers: nat, schedule: seq<Step>, step: Step)
    requires After(plan, workers, observers, schedule).shared.comparisonComplete
    ensures CountsStay(After(plan, workers, observers, schedule).shared,
                       After(plan, workers, observers, schedule + [step]).shared)
  {
    EveryRunKeepsInv(plan, workers, observers, schedule);
    var s := After(plan, workers, observers, schedule);
    assert (schedule + [step])[..|schedule|] == schedule;
    if Enabled(s, step) { CompletedStepKeepsCounts(plan, s, step); }
  }

  lemma CompletedStepKeepsCounts(plan: Plan, s: State, step: Step)
    requires Inv(plan, s) && Enabled(s, step) && s.shared.comparisonComplete
    ensures CountsStay(s.shared, Apply(plan, s, step).shared)
  {
  }

  // ----- Saturating addition by compare-exchange -----

  const MAX: nat := 0xFFFF_FFFF_FFFF_FFFF

  function SaturatingSum(left: nat, right: nat): nat
    requires left <= MAX
  {
    if right > MAX - left then MAX else left + right
  }

  function Saturated(total: nat): nat { if total > MAX then MAX else total }

  datatype Adder = NotLoaded | Loaded(current: nat) | Finished

  datatype Counter = Counter(value: nat, adders: seq<Adder>)

  /** An adder loads the value; or tries to exchange it, which may also fail for no reason and then loads again. */
  datatype AddStep = Load(a: nat) | Exchange(a: nat, spurious: bool)

  predicate CanAdd(c: Counter, step: AddStep) {
    step.a < |c.adders| && (if step.Load? then c.adders[step.a].NotLoaded? else c.adders[step.a].Loaded?)
  }

  function Add(addends: seq<nat>, c: Counter, step: AddStep): Counter
    requires CanAdd(c, step) && |addends| == |c.adders|
  {
    var a := step.a;
    if step.Load? then c.(adders := c.adders[a := if addends[a] == 0 then Finished else Loaded(c.value)])
    else
      var current := c.adders[a].current;
      if current >= MAX then c.(adders := c.adders[a := Finished])
      else if c.value == current && !step.spurious then
        Counter(SaturatingSum(current, addends[a]), c.adders[a := Finished])
      else c.(adders := c.adders[a := Loaded(c.value)])
  }

  function AfterAdds(addends: seq<nat>, start: nat, schedule: seq<AddStep>): (c: Counter)
    ensures |c.adders| == |addends|
    decreases |schedule|
  {
    if schedule == [] then Counter(start, seq(|addends|, _ => NotLoaded))
    else
      var before := AfterAdds(addends, start, schedule[..|schedule| - 1]);
      var step := schedule[|schedule| - 1];
      if CanAdd(before, step) then Add(addends, before, step) else before
  }

  function FinishedSum(addends: seq<nat>, adders: seq<Adder>): nat
    requires |addends| == |adders|
  {
    if addends == [] then 0
    else
      var n := |addends| - 1;
      FinishedSum(addends[..n], adders[..n]) + if adders[n].Finished? then addends[n] else 0
  }

  lemma {:induction false} FinishedSumUpdate(addends: seq<nat>, adders: seq<Adder>, a: nat, adder: Adder)
    requires a < |addends| == |adders| && !adders[a].Finished?
    ensures FinishedSum(addends, adders[a := adder]) == FinishedSum(addends, adders) + if adder.Finished?
            then addends[a] else 0
  {
    var n := |addends| - 1;
    if a == n { assert adders[a := adder][..n] == adders[..n]; }
    else {
      assert adders[a := adder][..n] == adders[..n][a := adder];
      FinishedSumUpdate(addends[..n], adders[..n], a, adder);
    }
  }

  lemma {:induction false} NothingFinished(addends: seq<nat>)
    ensures FinishedSum(addends, seq(|addends|, _ => NotLoaded)) == 0
  {
    if addends != [] {
      var n := |addends| - 1;
      assert seq(|addends|, _ => NotLoaded)[..n] == seq(n, _ => NotLoaded);
      NothingFinished(addends[..n]);
    }
  }

  ghost predicate Sums(addends: seq<nat>, start: nat, c: Counter)
    requires |addends| == |c.adders|
  {
    && c.value == Saturated(start + FinishedSum(addends, c.adders))
    && forall a :: 0 <= a < |c.adders| && c.adders[a].Loaded? ==> c.adders[a].current <= c.value
  }

  lemma AddKeepsSum(addends: seq<nat>, start: nat, c: Counter, step: AddStep)
    requires |addends| == |c.adders| && Sums(addends, start, c) && CanAdd(c, step)
    ensures Sums(addends, start, Add(addends, c, step))
  {
    FinishedSumUpdate(addends, c.adders, step.a, Add(addends, c, step).adders[step.a]);
  }

  /** After any interleaving the value is the saturated sum of the addends of those who have finished. */
  lemma {:induction false} ExchangesAddUp(addends: seq<nat>, start: nat, schedule: seq<AddStep>)
    requires start <= MAX
    ensures Sums(addends, start, AfterAdds(addends, start, schedule))
    decreases |schedule|
  {
    if schedule == [] { NothingFinished(addends); }
    else {
      ExchangesAddUp(addends, start, schedule[..|schedule| - 1]);
      var before := AfterAdds(addends, start, schedule[..|schedule| - 1]);
      var step := schedule[|schedule| - 1];
      if CanAdd(before, step) { AddKeepsSum(addends, start, before, step); }
    }
  }

  function Sum(addends: seq<nat>): nat {
    if addends == [] then 0 else Sum(addends[..|addends| - 1]) + addends[|addends| - 1]
  }

  lemma {:induction false} AllFinished(addends: seq<nat>, adders: seq<Adder>)
    requires |addends| == |adders| && forall a :: 0 <= a < |adders| ==> adders[a].Finished?
    ensures FinishedSum(addends, adders) == Sum(addends)
  {
    if addends != [] { AllFinished(addends[..|addends| - 1], adders[..|adders| - 1]); }
  }

  lemma CompareExchangeYieldsSaturatedSum(addends: seq<nat>, start: nat, schedule: seq<AddStep>)
    requires start <= MAX && forall a :: 0 <= a < |addends| ==> AfterAdds(addends, start, schedule).adders[a].Finished?
    ensures AfterAdds(addends, start, schedule).value == Saturated(start + Sum(addends))
  {
    ExchangesAddUp(addends, start, schedule);
    AllFinished(addends, AfterAdds(addends, start, schedule).adders);
  }
}
