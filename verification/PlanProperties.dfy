/** What a comparison plan is worth: every difference reported once, every byte tiled, and when a sample is complete. */
module PlanProperties {
  import opened Common
  import opened Filesystem
  import opened MergeJoin
  import opened Ledger
  import opened Plan

  // ----- Chunks tile their stream -----

  predicate Covers(task: ReadTask, position: int) { task.offset <= position < task.offset + task.length }

  function CoverCount(tasks: seq<ReadTask>, position: int): nat {
    if tasks == [] then 0 else (if Covers(tasks[0], position) then 1 else 0) + CoverCount(tasks[1..], position)
  }

  /** Every byte of the stream lies in exactly one chunk, every other position in none. */
  lemma {:induction false} ChunksTile(task: ReadTask, length: int, offset: int, position: int)
    ensures CoverCount(Chunks(task, length, offset), position) == if offset <= position < length then 1 else 0
    ensures forall n :: 0 <= n < |Chunks(task, length, offset)| ==>
              var c := Chunks(task, length, offset)[n];
              0 < c.length <= CHUNK && offset <= c.offset && c.offset + c.length <= length
              && c == task.(offset := c.offset, length := c.length)
    decreases length - offset
  {
    if offset < length {
      var size := if length - offset < CHUNK then length - offset else CHUNK;
      ChunksTile(task, length, offset + size, position);
      assert Chunks(task, length, offset)[1..] == Chunks(task, length, offset + size);
    }
  }

  // ----- When the selected bytes equal the available bytes -----

  lemma {:induction false} PickedAndUnpicked(candidates: seq<ReadTask>, picks: seq<bool>)
    requires |picks| == |candidates|
    ensures TotalLength(candidates) == TotalLength(Picked(candidates, picks)) + TotalLength(Unpicked(candidates, picks))
  {
    if candidates != [] {
      var n := |candidates| - 1;
      PickedAndUnpicked(candidates[..n], picks[..n]);
      var picked, unpicked := Picked(candidates[..n], picks[..n]), Unpicked(candidates[..n], picks[..n]);
      TotalLengthOneMore(picked, candidates[n]);
      TotalLengthOneMore(unpicked, candidates[n]);
      assert picked + [] == picked && unpicked + [] == unpicked;
    }
  }

  ghost predicate AllPositive(tasks: seq<ReadTask>) { forall n :: 0 <= n < |tasks| ==> tasks[n].length > 0 }

  lemma {:induction false} UnpickedOneMore(candidates: seq<ReadTask>, picks: seq<bool>, task: ReadTask, pick: bool)
    requires |picks| == |candidates|
    ensures TotalLength(Unpicked(candidates + [task], picks + [pick])) ==
            TotalLength(Unpicked(candidates, picks)) + if pick then 0 else task.length
    ensures pick ==> Picked(candidates + [task], picks + [pick]) == Picked(candidates, picks) + [task]
  {
    assert (candidates + [task])[..|candidates|] == candidates && (picks + [pick])[..|picks|] == picks;
    if pick { assert Unpicked(candidates, picks) + [] == Unpicked(candidates, picks); }
    else { TotalLengthOneMore(Unpicked(candidates, picks), task); }
  }

  /** Nothing is left out exactly when everything was picked. */
  ghost predicate AllOrSome(candidates: seq<ReadTask>, picks: seq<bool>)
    requires |picks| == |candidates|
  {
    && (TotalLength(Unpicked(candidates, picks)) == 0 <==> false !in picks)
    && (false !in picks ==> Picked(candidates, picks) == candidates)
  }

  lemma {:induction false} AllOrSomeOneMore(candidates: seq<ReadTask>, picks: seq<bool>, task: ReadTask, pick: bool)
    requires |picks| == |candidates| && task.length > 0 && AllOrSome(candidates, picks)
    ensures AllOrSome(candidates + [task], picks + [pick])
  {
    UnpickedOneMore(candidates, picks, task, pick);
    if false in picks {
      var n :| 0 <= n < |picks| && !picks[n];
      assert !(picks + [pick])[n];
    }
    if !pick { assert !(picks + [pick])[|picks|]; }
  }

  lemma {:induction false} NothingUnpicked(candidates: seq<ReadTask>, picks: seq<bool>)
    requires |picks| == |candidates| && AllPositive(candidates)
    ensures AllOrSome(candidates, picks)
    decreases |candidates|
  {
    if candidates != [] {
      var n := |candidates| - 1;
      var earlier, task, others, pick := candidates[..n], candidates[n], picks[..n], picks[n];
      assert candidates == earlier + [task] && picks == others + [pick];
      NothingUnpicked(earlier, others);
      AllOrSomeOneMore(earlier, others, task, pick);
    }
  }

  lemma Remainder(q: nat, r: nat)
    requires r < WORD
    ensures (q * WORD + r) % WORD == r
  {
  }

  lemma WrapHides(total: nat, p: nat, u: nat)
    requires total == p + u
    ensures p % WORD == total % WORD <==> u % WORD == 0
  {
    var r := p % WORD + u % WORD;
    var q := p / WORD + u / WORD;
    assert total == q * WORD + r;
    if r < WORD { Remainder(q, r); }
    else { Remainder(q + 1, r - WORD); }
  }

  /** Exactly when a sample's wrapped totals agree: the lengths left out add up to a multiple of 2^64. */
  lemma TotalsAgreeModulo(candidates: seq<ReadTask>, picks: seq<bool>)
    requires |picks| == |candidates|
    ensures TotalLength(Picked(candidates, picks)) % WORD == TotalLength(candidates) % WORD
            <==> TotalLength(Unpicked(candidates, picks)) % WORD == 0
  {
    PickedAndUnpicked(candidates, picks);
    WrapHides(TotalLength(candidates), TotalLength(Picked(candidates, picks)),
      TotalLength(Unpicked(candidates, picks)));
  }

  /** While the candidates hold fewer than 2^64 bytes, equal totals mean every task was selected. */
  lemma EqualTotalsMeanEverythingSelected(candidates: seq<ReadTask>, full: bool, plan: ComparisonPlan)
    requires IsPlan(candidates, full, plan) && AllPositive(candidates) && TotalLength(candidates) < WORD
    ensures plan.selectedBytes == plan.availableBytes <==> plan.tasks == candidates
  {
    if !full {
      var picks: seq<bool> :| |picks| == |candidates| && plan.tasks == Picked(candidates, picks);
      PickedAndUnpicked(candidates, picks);
      NothingUnpicked(candidates, picks);
      Remainder(0, TotalLength(Picked(candidates, picks)));
      Remainder(0, TotalLength(candidates));
    }
  }

  lemma {:induction false} NonePicked(candidates: seq<ReadTask>, n: nat)
    requires n == |candidates|
    ensures Unpicked(candidates, seq(n, _ => false)) == candidates && Picked(candidates, seq(n, _ => false)) == []
  {
    if n > 0 {
      NonePicked(candidates[..n - 1], n - 1);
      assert seq(n, _ => false)[..n - 1] == seq(n - 1, _ => false);
      assert candidates == candidates[..n - 1] + [candidates[n - 1]];
    }
  }

  // ----- Beyond that bound the code is fooled -----

  lemma {:induction false} TotalLengthSplits(a: seq<ReadTask>, b: seq<ReadTask>)
    ensures TotalLength(a + b) == TotalLength(a) + TotalLength(b)
    decreases |b|
  {
    if b == [] { assert a + b == a; }
    else {
      var n := |b| - 1;
      TotalLengthSplits(a, b[..n]);
      assert (a + b)[..|a + b| - 1] == a + b[..n];
    }
  }

  /** The chunks of a stream hold its bytes. */
  lemma {:induction false} ChunksTotal(task: ReadTask, length: int, offset: int)
    requires offset <= length
    ensures TotalLength(Chunks(task, length, offset)) == length - offset
    decreases length - offset
  {
    if offset < length {
      var size := if length - offset < CHUNK then length - offset else CHUNK;
      var first := task.(offset := offset, length := size);
      ChunksTotal(task, length, offset + size);
      TotalLengthSplits([first], Chunks(task, length, offset + size));
      TotalLengthOneMore([], first);
      assert [] + [first] == [first];
    }
  }

  const QUARTER: int := 0x4000_0000_0000_0000

  /** Four streams of 2^62 bytes and one of a single chunk. */
  const BIG := ObjectRecord("F", File, 9, [
      StreamRecord("a", QUARTER), StreamRecord("b", QUARTER), StreamRecord("c", QUARTER), StreamRecord("d", QUARTER),
      StreamRecord("e", CHUNK)], true)

  const BIG_INVENTORY := Inventory([BIG], [], [])

  function SumLengths(streams: seq<StreamRecord>): int {
    if streams == [] then 0 else SumLengths(streams[..|streams| - 1]) + streams[|streams| - 1].length
  }

  lemma {:induction false} SelfTasksTotal(i: nat, j: nat, o: ObjectRecord, visits: seq<Visit>)
    requires VisitsFit(|o.streams|, |o.streams|, visits) && |visits| <= |o.streams|
    requires forall n :: 0 <= n < |visits| ==> visits[n] == Both(n, n)
    requires forall n :: 0 <= n < |o.streams| ==> o.streams[n].length >= 0
    ensures TotalLength(StreamTasks(i, j, o, o, visits)) == SumLengths(o.streams[..|visits|])
    decreases |visits|
  {
    if visits != [] {
      var n := |visits| - 1;
      SelfTasksTotal(i, j, o, visits[..n]);
      ChunksTotal(ReadTask(i, j, n, n, 0, 0), o.streams[n].length, 0);
      TotalLengthSplits(StreamTasks(i, j, o, o, visits[..n]), StreamVisitTasks(i, j, o, o, visits[n]));
      assert o.streams[..n + 1][..n] == o.streams[..n];
    }
  }

  lemma FourQuarters()
    ensures SumLengths(BIG.streams[..4]) == WORD
  {
    var s := BIG.streams;
    assert s[..4][..3] == s[..3] && s[..3][..2] == s[..2] && s[..2][..1] == s[..1] && s[..1][..0] == [];
    assert SumLengths(s[..1]) == QUARTER;
    assert SumLengths(s[..2]) == SumLengths(s[..1]) + QUARTER;
    assert SumLengths(s[..3]) == SumLengths(s[..2]) + QUARTER;
    assert SumLengths(s[..4]) == SumLengths(s[..3]) + QUARTER;
  }

  lemma BigStreamJoin()
    ensures |StreamJoin(BIG, BIG)| == 5 && VisitsFit(5, 5, StreamJoin(BIG, BIG))
    ensures forall n :: 0 <= n < 5 ==> StreamJoin(BIG, BIG)[n] == Both(n, n)
  {
    JoinFits(StreamNames(BIG.streams), StreamNames(BIG.streams));
    SelfJoinPairs(StreamNames(BIG.streams), 0, 0);
    forall n: nat | n < 5 ensures StreamJoin(BIG, BIG)[n] == Both(n, n) {
      SelfJoinPairs(StreamNames(BIG.streams), 0, n);
    }
  }

  /** The stream tasks of the object: 2^64 bytes, and one chunk more. */
  lemma BigTasks() returns (left: seq<ReadTask>, last: ReadTask)
    ensures VisitsFit(5, 5, StreamJoin(BIG, BIG)) && StreamTasks(0, 0, BIG, BIG, StreamJoin(BIG, BIG)) == left + [last]
    ensures TotalLength(left) == WORD && last.length == CHUNK
  {
    BigStreamJoin();
    FourQuarters();
    var visits := StreamJoin(BIG, BIG);
    left, last := StreamTasks(0, 0, BIG, BIG, visits[..4]), ReadTask(0, 0, 4, 4, 0, CHUNK);
    SelfTasksTotal(0, 0, BIG, visits[..4]);
    var task := ReadTask(0, 0, 4, 4, 0, 0);
    assert Chunks(task, CHUNK, CHUNK) == [];
    assert Chunks(task, CHUNK, 0) == [last] + Chunks(task, CHUNK, CHUNK);
    assert StreamVisitTasks(0, 0, BIG, BIG, visits[4]) == [last];
  }

  lemma BigJoin()
    ensures ObjectJoin(BIG_INVENTORY, BIG_INVENTORY) == [Both(0, 0)]
    ensures AllInRange(BIG_INVENTORY, BIG_INVENTORY, [Both(0, 0)])
  {
    SelfJoinPairs(ObjectPaths(BIG_INVENTORY.objects), 0, 0);
    assert |ObjectJoin(BIG_INVENTORY, BIG_INVENTORY)| == 1;
  }

  lemma BigCandidates()
    requires AllInRange(BIG_INVENTORY, BIG_INVENTORY, [Both(0, 0)]) && VisitsFit(5, 5, StreamJoin(BIG, BIG))
    ensures TasksOf(BIG_INVENTORY, BIG_INVENTORY, [Both(0, 0)]) == StreamTasks(0, 0, BIG, BIG, StreamJoin(BIG, BIG))
  {
    assert [Both(0, 0)][..0] == [];
    assert ComparesContents(BIG_INVENTORY, BIG_INVENTORY, [], Both(0, 0));
  }

  /** A sample that takes the last candidate only. */
  lemma LastAloneIsPlan(left: seq<ReadTask>, last: ReadTask)
    requires TotalLength(left) == WORD && last.length == CHUNK
    ensures IsPlan(left + [last], false, ComparisonPlan(CHUNK, CHUNK, [last]))
  {
    var picks := seq(|left|, _ => false);
    NonePicked(left, |left|);
    PickedOneMore(left, picks, last, true);
    TotalLengthOneMore(left, last);
    TotalLengthOneMore([], last);
    assert [] + [last] == [last];
    assert (picks + [true])[|left|];
    Remainder(1, CHUNK);
  }

  /** Of a file with 2^64 bytes and one chunk more, a sample may take the chunk alone, and the totals agree. */
  lemma WrappedTotalsHideLeftOutTasks() returns (plan: ComparisonPlan)
    ensures AllInRange(BIG_INVENTORY, BIG_INVENTORY, ObjectJoin(BIG_INVENTORY, BIG_INVENTORY))
    ensures WellFormed(BIG_INVENTORY)
    ensures var candidates := TasksOf(BIG_INVENTORY, BIG_INVENTORY, ObjectJoin(BIG_INVENTORY, BIG_INVENTORY));
            && IsPlan(candidates, false, plan) && plan.selectedBytes == plan.availableBytes
            && |plan.tasks| == 1 && TotalLength(candidates) == TotalLength(plan.tasks) + WORD
  {
    BigJoin();
    var left, last := BigTasks();
    BigCandidates();
    LastAloneIsPlan(left, last);
    plan := ComparisonPlan(CHUNK, CHUNK, [last]);
    TotalLengthOneMore(left, last);
    TotalLengthOneMore([], last);
    assert [] + [last] == [last];
  }

  // ----- Each one-sided object is reported exactly once -----

  function VisitCount(visits: seq<Visit>, v: Visit): nat {
    if visits == [] then 0 else VisitCount(visits[..|visits| - 1], v) + (if visits[|visits| - 1] == v then 1 else 0)
  }

  lemma {:induction false} VisitCountSplits(first: seq<Visit>, second: seq<Visit>, v: Visit)
    ensures VisitCount(first + second, v) == VisitCount(first, v) + VisitCount(second, v)
    decreases |second|
  {
    if second == [] { assert first + second == first; }
    else {
      assert (first + second)[..|first + second| - 1] == first + second[..|second| - 1];
      VisitCountSplits(first, second[..|second| - 1], v);
    }
  }

  /** A visit that the join makes, it makes once. */
  lemma {:induction false} JoinVisitsEachOnce(left: seq<string>, right: seq<string>, i: nat, j: nat, v: Visit)
    requires i <= |left| && j <= |right|
    ensures VisitCount(Join(left, right, i, j), v) == if v in Join(left, right, i, j) then 1 else 0
    decreases |left| - i + |right| - j
  {
    var visits := Join(left, right, i, j);
    if visits != [] {
      var first := visits[0];
      var i', j' := i + (if first.OnlyRight? then 0 else 1), j + (if first.OnlyLeft? then 0 else 1);
      JoinVisitsEachOnce(left, right, i', j', v);
      assert visits == [first] + Join(left, right, i', j');
      VisitCountSplits([first], Join(left, right, i', j'), v);
      assert [first][..0] == [] && VisitCount([first], v) == if first == v then 1 else 0;
      if first == v && v in Join(left, right, i', j') { JoinPairsEqualKeys(left, right, i', j', v); }
    }
  }

  predicate Missing(a: Action) {
    a.RecordMismatch? && (a.mismatch.kind == ObjectMissingFromReal || a.mismatch.kind == ObjectMissingFromSynthetic)
  }

  lemma {:induction false} StreamActionsNameNoObject(s: ObjectRecord, r: ObjectRecord, visits: seq<Visit>, a: Action)
    requires VisitsFit(|s.streams|, |r.streams|, visits) && a in StreamActions(s, r, visits)
    ensures !Missing(a)
    decreases |visits|
  {
    if a !in StreamVisitActions(s, r, visits[|visits| - 1]) {
      StreamActionsNameNoObject(s, r, visits[..|visits| - 1], a);
    }
  }

  lemma PairReportsNothingMissing(syn: Inventory, rea: Inventory, v: Visit, a: Action)
    requires InRange(syn, rea, v) && v.Both? && Missing(a)
    ensures a !in VisitActions(syn, rea, v)
  {
    var s, r := syn.objects[v.i], rea.objects[v.j];
    JoinFits(StreamNames(s.streams), StreamNames(r.streams));
    if a in StreamActions(s, r, StreamJoin(s, r)) { StreamActionsNameNoObject(s, r, StreamJoin(s, r), a); }
  }

  /** How often `a` is recorded is how often the visit that causes it is made. */
  lemma {:induction false} MissingCountIsVisitCount(
    syn: Inventory, rea: Inventory, visits: seq<Visit>, v: Visit, a: Action)
    requires AllInRange(syn, rea, visits) && InRange(syn, rea, v) && Missing(a) && VisitActions(syn, rea, v) == [a]
    requires forall u :: u in visits && u != v && !u.Both? ==> InRange(syn, rea, u) && a !in VisitActions(syn, rea, u)
    ensures multiset(ActionsOf(syn, rea, visits))[a] == VisitCount(visits, v)
    decreases |visits|
  {
    if visits != [] {
      var last := visits[|visits| - 1];
      MissingCountIsVisitCount(syn, rea, visits[..|visits| - 1], v, a);
      if last != v {
        if last.Both? { PairReportsNothingMissing(syn, rea, last, a); }
        assert a !in VisitActions(syn, rea, last);
        assert multiset(VisitActions(syn, rea, last))[a] == 0;
      }
    }
  }

  /**
   A synthetic object the real side lacks is reported exactly once, or not at
   all when it lies below a directory the real side could not read; an object
   both sides have is never reported missing.
   */
  lemma MissingFromRealReportedOnce(syn: Inventory, rea: Inventory, i: nat)
    requires WellFormed(syn) && WellFormed(rea) && i < |syn.objects|
    ensures AllInRange(syn, rea, ObjectJoin(syn, rea))
    ensures var path := syn.objects[i].path;
            multiset(ActionsOf(syn, rea, ObjectJoin(syn, rea)))[RecordMismatch(Plain(ObjectMissingFromReal, path, ""))]
            == if path in ObjectPaths(rea.objects) ||
              IsBelowIncompleteDirectory(rea.incompleteDirectories, path) then 0 else 1
  {
    ObjectJoinInRange(syn, rea);
    var left, right := ObjectPaths(syn.objects), ObjectPaths(rea.objects);
    var path := left[i];
    var a := RecordMismatch(Plain(ObjectMissingFromReal, path, ""));
    var visits := ObjectJoin(syn, rea);
    JoinIsExact(left, right);
    JoinVisitsEachOnce(left, right, 0, 0, OnlyLeft(i));
    forall u | u in visits && u != OnlyLeft(i) && !u.Both?
      ensures InRange(syn, rea, u) && a !in VisitActions(syn, rea, u)
    {
      if u.OnlyLeft? {
        if u.i < i { LessTrichotomy(left[u.i], left[i]); } else { LessTrichotomy(left[i], left[u.i]); }
      }
    }
    if IsBelowIncompleteDirectory(rea.incompleteDirectories, path) {
      NeverRecorded(syn, rea, visits, a);
    } else {
      MissingCountIsVisitCount(syn, rea, visits, OnlyLeft(i), a);
    }
  }

  /** The same for a real object the synthetic side lacks. */
  lemma MissingFromSyntheticReportedOnce(syn: Inventory, rea: Inventory, j: nat)
    requires WellFormed(syn) && WellFormed(rea) && j < |rea.objects|
    ensures AllInRange(syn, rea, ObjectJoin(syn, rea))
    ensures var path := rea.objects[j].path;
            multiset(ActionsOf(syn, rea,
              ObjectJoin(syn, rea)))[RecordMismatch(Plain(ObjectMissingFromSynthetic, path, ""))]
            == if path in ObjectPaths(syn.objects) ||
              IsBelowIncompleteDirectory(syn.incompleteDirectories, path) then 0 else 1
  {
    ObjectJoinInRange(syn, rea);
    var left, right := ObjectPaths(syn.objects), ObjectPaths(rea.objects);
    var path := right[j];
    var a := RecordMismatch(Plain(ObjectMissingFromSynthetic, path, ""));
    var visits := ObjectJoin(syn, rea);
    JoinIsExact(left, right);
    JoinVisitsEachOnce(left, right, 0, 0, OnlyRight(j));
    forall u | u in visits && u != OnlyRight(j) && !u.Both?
      ensures InRange(syn, rea, u) && a !in VisitActions(syn, rea, u)
    {
      if u.OnlyRight? {
        if u.j < j { LessTrichotomy(right[u.j], right[j]); } else { LessTrichotomy(right[j], right[u.j]); }
      }
    }
    if IsBelowIncompleteDirectory(syn.incompleteDirectories, path) {
      NeverRecorded(syn, rea, visits, a);
    } else {
      MissingCountIsVisitCount(syn, rea, visits, OnlyRight(j), a);
    }
  }

  lemma {:induction false} NeverRecorded(syn: Inventory, rea: Inventory, visits: seq<Visit>, a: Action)
    requires AllInRange(syn, rea, visits) && Missing(a)
    requires forall u :: u in visits && !u.Both? ==> InRange(syn, rea, u) && a !in VisitActions(syn, rea, u)
    ensures a !in ActionsOf(syn, rea, visits)
    decreases |visits|
  {
    if visits != [] {
      var last := visits[|visits| - 1];
      NeverRecorded(syn, rea, visits[..|visits| - 1], a);
      if last.Both? { PairReportsNothingMissing(syn, rea, last, a); }
      assert last in visits;
    }
  }
}
