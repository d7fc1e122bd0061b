/**
 What callers of the read service are told, in terms of what they asked for and of what the
 reader returned. The history is kept beside the protocol, from the steps alone.
 */
module ReadReplies {
  import opened Common
  import opened ReadExecutor

  /** What a call came with, and whether memory could be had for it. */
  datatype Request = Request(mayAsync: bool, wanted: nat, bufferAllocated: bool, constructed: bool)

  /** Every call's request, the values its reader returned, and the calls that could not be queued. */
  datatype History = History(requests: seq<Request>, outcomes: seq<seq<int>>, unqueued: set<nat>)

  function Note(h: History, s: State, step: Step): History
    requires Enabled(s, step)
  {
    match step
    case Call(mayAsync, wanted, bufferAllocated, constructed, _) =>
      h.(requests := h.requests + [Request(mayAsync, wanted, bufferAllocated, constructed)],
         outcomes := h.outcomes + [[]])
    case Compute(w, outcome) =>
      var a := s.workers[w].at;
      if a in s.heap && s.heap[a].call < |h.outcomes| then
        var call := s.heap[a].call;
        h.(outcomes := h.outcomes[call := h.outcomes[call] + [outcome]])
      else h
    case InsertFails => if s.loop.at in s.heap then h.(unqueued := h.unqueued + {s.heap[s.loop.at].call}) else h
    case _ => h
  }

  function Recall(workerCount: nat, schedule: seq<Step>): History
    decreases |schedule|
  {
    if schedule == [] then History([], [], {})
    else
      var earlier, step := schedule[..|schedule| - 1], schedule[|schedule| - 1];
      var h, s := Recall(workerCount, earlier), After(workerCount, earlier);
      if Enabled(s, step) then Note(h, s, step) else h
  }

  /** The read is handed to a worker. */
  predicate IsSubmitted(r: Request, unqueued: bool) {
    r.mayAsync && r.wanted > 0 && r.bufferAllocated && r.constructed && !unqueued
  }

  /** What becomes of a call that is not: a synchronous caller is refused before anything else is looked at. */
  function Refusal(r: Request): Status { if !r.mayAsync then NotSupported else if r.wanted == 0 then Ok else NoMemory }

  predicate FateFits(r: Request, unqueued: bool, fate: Fate) {
    if IsSubmitted(r, unqueued) then !fate.Answered? else fate == Answered(Refusal(r))
  }

  /** A reader's count of bytes is passed on; a negative or oversized one is a device error without bytes. */
  predicate Conveys(outcome: int, result: Result) {
    if 0 <= outcome <= 0xFFFF_FFFF then result == Result(Ok, outcome) else result == Result(IoDeviceError, 0)
  }

  ghost predicate AllConveyed(outcomes: seq<int>, computed: seq<Result>) {
    |outcomes| == |computed| && forall i :: 0 <= i < |computed| ==> Conveys(outcomes[i], computed[i])
  }

  ghost predicate Fits(h: History, fates: seq<Fate>, computed: seq<seq<Result>>) {
    && |h.requests| == |h.outcomes| == |fates| == |computed|
    && (forall call :: 0 <= call < |fates| ==> FateFits(h.requests[call], call in h.unqueued, fates[call]))
    && (forall call :: 0 <= call < |fates| ==> AllConveyed(h.outcomes[call], computed[call]))
    && (forall call :: call in h.unqueued ==> call < |fates|)
  }

  // ----- Every step keeps it -----

  lemma CallKeepsFits(h: History, s: State, step: Step)
    requires Inv(s) && Enabled(s, step) && step.Call? && Fits(h, s.fates, s.computed)
    ensures var s' := Apply(s, step); Fits(Note(h, s, step), s'.fates, s'.computed)
  {
  }

  /** A call that goes on with its operation stays submitted. */
  lemma GoingOnKeepsFits(h: History, fates: seq<Fate>, computed: seq<seq<Result>>, call: nat, fate: Fate)
    requires Fits(h, fates, computed) && call < |fates| && !fates[call].Answered? && !fate.Answered?
    ensures Fits(h, fates[call := fate], computed)
  {
    assert FateFits(h.requests[call], call in h.unqueued, fates[call]);
  }

  lemma UnqueuedKeepsFits(h: History, fates: seq<Fate>, computed: seq<seq<Result>>, call: nat)
    requires Fits(h, fates, computed) && call < |fates| && !fates[call].Answered?
    ensures Fits(h.(unqueued := h.unqueued + {call}), fates[call := Answered(NoMemory)], computed)
  {
    assert FateFits(h.requests[call], call in h.unqueued, fates[call]);
  }

  lemma ComputeKeepsFits(h: History, s: State, w: nat, outcome: int)
    requires Inv(s) && Enabled(s, Compute(w, outcome)) && Fits(h, s.fates, s.computed)
    ensures var s' := Apply(s, Compute(w, outcome)); Fits(Note(h, s, Compute(w, outcome)), s'.fates, s'.computed)
  {
    assert !ComputeStep(s, w, outcome).crashed by { ComputeKeepsInv(s, w, outcome); }
    var call := s.heap[s.workers[w].at].call;
    ConveyedOneMore(h.outcomes[call], s.computed[call], outcome);
  }

  lemma ConveyedOneMore(outcomes: seq<int>, computed: seq<Result>, outcome: int)
    requires AllConveyed(outcomes, computed)
    ensures AllConveyed(outcomes + [outcome], computed + [ResultOf(outcome)])
  {
  }

  lemma StepKeepsFits(h: History, s: State, step: Step)
    requires Inv(s) && Enabled(s, step) && Fits(h, s.fates, s.computed)
    ensures var s' := Apply(s, step); Fits(Note(h, s, step), s'.fates, s'.computed)
  {
    StepKeepsInv(s, step);
    match step
    case Call(_, _, _, _, _) => CallKeepsFits(h, s, step);
    case Compute(w, outcome) => ComputeKeepsFits(h, s, w, outcome);
    case Insert =>
      var call := s.heap[s.loop.at].call;
      GoingOnKeepsFits(h, s.fates, s.computed, call, Active(s.loop.at));
    case InsertFails => UnqueuedKeepsFits(h, s.fates, s.computed, s.heap[s.loop.at].call);
    case TakeOwner => GoingOnKeepsFits(h, s.fates, s.computed, s.active[s.loop.at], Taken);
    case Reply =>
      var Operation(call, result) := s.heap[s.loop.at];
      GoingOnKeepsFits(h, s.fates, s.computed, call, Replied(result.value));
    case _ =>
  }

  lemma {:induction false} EveryRunFits(workerCount: nat, schedule: seq<Step>)
    ensures var s := After(workerCount, schedule); Fits(Recall(workerCount, schedule), s.fates, s.computed)
    decreases |schedule|
  {
    if schedule != [] {
      var earlier, step := schedule[..|schedule| - 1], schedule[|schedule| - 1];
      EveryRunFits(workerCount, earlier);
      EveryRunKeepsInv(workerCount, earlier);
      var s := After(workerCount, earlier);
      if Enabled(s, step) { StepKeepsFits(Recall(workerCount, earlier), s, step); }
    }
  }

  /**
   In every run, by call: a synchronous caller is answered with NotSupported; a read of nothing
   with Ok; one for which no buffer, no operation or no place in the queue could be had with
   NoMemory; and no other call is answered without its read. Such a call is replied to with what
   its own reader returned: Ok and that count when it fits 32 bits, else a device error and no
   bytes.
   */
  lemma EveryReplyIsTheReadersAnswer(workerCount: nat, schedule: seq<Step>, call: nat)
    requires call < |After(workerCount, schedule).fates|
    ensures var s, h := After(workerCount, schedule), Recall(workerCount, schedule);
            && |h.requests| == |h.outcomes| == |s.fates| == |s.replies|
            && var r := h.requests[call];
               && (s.fates[call] == Answered(NotSupported) <==> !r.mayAsync)
               && (s.fates[call] == Answered(Ok) <==> r.mayAsync && r.wanted == 0)
               && (s.fates[call] == Answered(NoMemory) <==>
                     && r.mayAsync && r.wanted != 0
                     && (!r.bufferAllocated || !r.constructed || call in h.unqueued))
               && s.fates[call] != Answered(IoDeviceError)
               && (s.fates[call].Replied? ==>
                     && |h.outcomes[call]| == 1
                     && var n := h.outcomes[call][0];
                        s.replies[call] == [if 0 <= n < 0x1_0000_0000 then Result(Ok, n) else Result(IoDeviceError, 0)])
               && (!s.fates[call].Replied? ==> s.replies[call] == [])
  {
    EveryRunFits(workerCount, schedule);
    EveryCallIsAnsweredOnce(workerCount, schedule, call);
    var s, h := After(workerCount, schedule), Recall(workerCount, schedule);
    assert FateFits(h.requests[call], call in h.unqueued, s.fates[call]);
    assert AllConveyed(h.outcomes[call], s.computed[call]);
  }
}
