/**
 `VerificationState`'s records of a comparison. Every recorder holds the mutex
 while it writes, so a concurrent run records some sequence of actions, in any
 order; the properties below hold of every such sequence.
 */
module Ledger {
  import opened Common
  import opened Filesystem

  datatype MismatchKind =
    | ObjectMissingFromSynthetic | ObjectMissingFromReal | ObjectType
    | StreamMissingFromSynthetic | StreamMissingFromReal | StreamLength | StreamContents

  datatype Mismatch = Mismatch(
    kind: MismatchKind, path: string, stream: string,
    syntheticKind: ObjectKind, realKind: ObjectKind, syntheticLength: int, realLength: int,
    firstOffset: int, syntheticByte: nat, realByte: nat, differingBytes: nat, differingChunks: nat)

  datatype IssueKey = IssueKey(path: string, stream: string, operation: Operation, offset: int)

  datatype Comparison = Comparison(key: IssueKey, requested: nat, synthetic: Option<Failure>, actual: Option<Failure>)

  predicate IsMatchedError(c: Comparison) { FailuresMatch(c.synthetic, c.actual) }

  predicate IsOperationMismatch(c: Comparison) { !IsVssExcluded(c.key.path) && !IsMatchedError(c) }

  predicate IsContentOperationMismatch(c: Comparison) {
    IsOperationMismatch(c) &&
      (c.key.operation.OpenStream? || c.key.operation.SeekStream? || c.key.operation.ReadStream?)
  }

  datatype Ledger = Ledger(
    mismatches: seq<Mismatch>, contents: map<(string, string), nat>, comparisons: seq<Comparison>,
    mismatchCount: nat, exclusionCount: nat, matchedErrorCount: nat)

  const EMPTY := Ledger([], map[], [], 0, 0, 0)

  datatype Action =
    | RecordMismatch(mismatch: Mismatch)
    | RecordOperation(comparison: Comparison)
    | RecordContent(path: string, stream: string, offset: int, syntheticByte: nat, realByte: nat, count: nat)

  function Plain(kind: MismatchKind, path: string, stream: string): Mismatch {
    Mismatch(kind, path, stream, File, File, 0, 0, 0, 0, 0, 0, 0)
  }

  function AppendMismatch(l: Ledger, m: Mismatch): Ledger {
    if IsVssExcluded(m.path)
    then l.(mismatches := l.mismatches + [m], exclusionCount := l.exclusionCount + 1)
    else l.(mismatches := l.mismatches + [m], mismatchCount := l.mismatchCount + 1)
  }

  function AppendComparison(l: Ledger, c: Comparison): Ledger {
    if c in l.comparisons then l
    else
      var l' := l.(comparisons := l.comparisons + [c]);
      if IsMatchedError(c) then l'.(matchedErrorCount := l.matchedErrorCount + 1)
      else if IsVssExcluded(c.key.path) then l'.(exclusionCount := l.exclusionCount + 1)
      else l'.(mismatchCount := l.mismatchCount + 1)
  }

  /** A repeated stream lowers the first offset it shows and adds to its totals. */
  function Accumulate(m: Mismatch, offset: int, syntheticByte: nat, realByte: nat, count: nat): Mismatch {
    var lowered := if offset < m.firstOffset
                   then m.(firstOffset := offset, syntheticByte := syntheticByte, realByte := realByte) else m;
    lowered.(differingBytes := m.differingBytes + count, differingChunks := m.differingChunks + 1)
  }

  function OpenContent(
    l: Ledger, path: string, stream: string, offset: int, syntheticByte: nat, realByte: nat): (l': Ledger)
    ensures (path, stream) in l'.contents
  {
    if (path, stream) in l.contents then l
    else AppendMismatch(l,
      Plain(StreamContents, path, stream).(firstOffset := offset, syntheticByte := syntheticByte, realByte := realByte))
         .(contents := l.contents[(path, stream) := |l.mismatches|])
  }

  function AddContent(
    l: Ledger, key: (string, string), offset: int, syntheticByte: nat, realByte: nat, count: nat): Ledger
    requires key in l.contents
  {
    var index := l.contents[key];
    if index < |l.mismatches|
    then
      var m := Accumulate(l.mismatches[index], offset, syntheticByte, realByte, count);
      l.(mismatches := l.mismatches[index := m])
    else l
  }

  function Record(l: Ledger, a: Action): Ledger {
    match a
    case RecordMismatch(m) => AppendMismatch(l, m)
    case RecordOperation(c) => AppendComparison(l, c)
    case RecordContent(path, stream, offset, syntheticByte, realByte, count) =>
      AddContent(OpenContent(l, path, stream, offset, syntheticByte, realByte), (path, stream), offset, syntheticByte,
        realByte, count)
  }

  function RecordAll(actions: seq<Action>): Ledger
    decreases |actions|
  {
    if actions == [] then EMPTY
    else Record(RecordAll(actions[..|actions| - 1]), actions[|actions| - 1])
  }

  // ----- The counters classify the records -----

  function CountMismatches(s: seq<Mismatch>, excluded: bool): nat {
    if s == [] then 0
    else (if IsVssExcluded(s[|s| - 1].path) == excluded then 1 else 0) + CountMismatches(s[..|s| - 1], excluded)
  }

  datatype Class = Matched | Excluded | Differing

  function Classify(c: Comparison): Class {
    if IsMatchedError(c) then Matched else if IsVssExcluded(c.key.path) then Excluded else Differing
  }

  function CountComparisons(s: seq<Comparison>, class_: Class): nat {
    if s == [] then 0
    else (if Classify(s[|s| - 1]) == class_ then 1 else 0) + CountComparisons(s[..|s| - 1], class_)
  }

  lemma {:induction false} UpdateKeepsCount(s: seq<Mismatch>, i: nat, m: Mismatch, excluded: bool)
    requires i < |s| && m.path == s[i].path
    ensures CountMismatches(s[i := m], excluded) == CountMismatches(s, excluded)
  {
    if i == |s| - 1 {
      assert s[i := m][..|s| - 1] == s[..|s| - 1];
    } else {
      assert s[i := m][..|s| - 1] == s[..|s| - 1][i := m];
      UpdateKeepsCount(s[..|s| - 1], i, m, excluded);
    }
  }

  ghost predicate Consistent(l: Ledger) {
    && l.mismatchCount == CountMismatches(l.mismatches, false) + CountComparisons(l.comparisons, Differing)
    && l.exclusionCount == CountMismatches(l.mismatches, true) + CountComparisons(l.comparisons, Excluded)
    && l.matchedErrorCount == CountComparisons(l.comparisons, Matched)
    && (forall i, j :: 0 <= i < j < |l.comparisons| ==> l.comparisons[i] != l.comparisons[j])
    && (forall key :: key in l.contents ==>
          && l.contents[key] < |l.mismatches|
          && var m := l.mismatches[l.contents[key]]; m.kind == StreamContents && (m.path, m.stream) == key)
  }

  lemma AppendMismatchConsistent(l: Ledger, m: Mismatch)
    requires Consistent(l)
    ensures Consistent(AppendMismatch(l, m))
  {
    MismatchesOneMore(l.mismatches, m, true);
    MismatchesOneMore(l.mismatches, m, false);
  }

  lemma MismatchesOneMore(s: seq<Mismatch>, m: Mismatch, excluded: bool)
    ensures CountMismatches(s + [m], excluded) == CountMismatches(s, excluded) + if IsVssExcluded(m.path) == excluded
            then 1 else 0
  {
    assert (s + [m])[..|s|] == s;
  }

  lemma ComparisonsOneMore(s: seq<Comparison>, c: Comparison, class_: Class)
    ensures CountComparisons(s + [c], class_) == CountComparisons(s, class_) + if Classify(c) == class_ then 1 else 0
  {
    assert (s + [c])[..|s|] == s;
  }

  lemma AppendComparisonConsistent(l: Ledger, c: Comparison)
    requires Consistent(l)
    ensures Consistent(AppendComparison(l, c))
  {
    ComparisonsOneMore(l.comparisons, c, Matched);
    ComparisonsOneMore(l.comparisons, c, Excluded);
    ComparisonsOneMore(l.comparisons, c, Differing);
  }

  lemma ContentAddedConsistent(l: Ledger, key: (string, string), index: nat)
    requires Consistent(l) && index < |l.mismatches|
    requires var m := l.mismatches[index]; m.kind == StreamContents && (m.path, m.stream) == key
    ensures Consistent(l.(contents := l.contents[key := index]))
  {
  }

  lemma {:induction false} OpenContentConsistent(
    l: Ledger, path: string, stream: string, offset: int, syntheticByte: nat, realByte: nat)
    requires Consistent(l)
    ensures Consistent(OpenContent(l, path, stream, offset, syntheticByte, realByte))
  {
    if (path, stream) !in l.contents {
      var m := Plain(StreamContents, path, stream)
               .(firstOffset := offset, syntheticByte := syntheticByte, realByte := realByte);
      AppendMismatchConsistent(l, m);
      ContentAddedConsistent(AppendMismatch(l, m), (path, stream), |l.mismatches|);
    }
  }

  lemma AddContentConsistent(
    l: Ledger, key: (string, string), offset: int, syntheticByte: nat, realByte: nat, count: nat)
    requires Consistent(l) && key in l.contents
    ensures Consistent(AddContent(l, key, offset, syntheticByte, realByte, count))
  {
    var index := l.contents[key];
    var updated := Accumulate(l.mismatches[index], offset, syntheticByte, realByte, count);
    UpdateKeepsCount(l.mismatches, index, updated, true);
    UpdateKeepsCount(l.mismatches, index, updated, false);
  }

  /** Every run of recorders: counts equal the stored records by class, and no operation record repeats. */
  lemma {:induction false} CountersClassifyRecords(actions: seq<Action>)
    ensures Consistent(RecordAll(actions))
    decreases |actions|
  {
    if actions != [] {
      var a := actions[|actions| - 1];
      var l := RecordAll(actions[..|actions| - 1]);
      CountersClassifyRecords(actions[..|actions| - 1]);
      match a
      case RecordMismatch(m) => AppendMismatchConsistent(l, m);
      case RecordOperation(c) => AppendComparisonConsistent(l, c);
      case RecordContent(path, stream, offset, syntheticByte, realByte, count) =>
        OpenContentConsistent(l, path, stream, offset, syntheticByte, realByte);
        AddContentConsistent(OpenContent(l, path, stream, offset, syntheticByte, realByte), (path, stream), offset,
          syntheticByte, realByte, count);
    }
  }

  // ----- Zero mismatches means no action reported one -----

  predicate Accuses(a: Action) {
    match a
    case RecordMismatch(m) => !IsVssExcluded(m.path)
    case RecordOperation(c) => IsOperationMismatch(c)
    case RecordContent(path, _, _, _, _, _) => !IsVssExcluded(path)
  }

  ghost predicate Innocent(l: Ledger) {
    && (forall c :: c in l.comparisons ==> !IsOperationMismatch(c))
    && (forall key :: key in l.contents ==> IsVssExcluded(key.0))
  }

  lemma OneActionCounts(l: Ledger, a: Action)
    ensures Record(l, a).mismatchCount >= l.mismatchCount
    ensures !Accuses(a) ==> Record(l, a).mismatchCount == l.mismatchCount
    ensures Accuses(a) && Innocent(l) ==> Record(l, a).mismatchCount > l.mismatchCount
    ensures !Accuses(a) && Innocent(l) ==> Innocent(Record(l, a))
    ensures forall c :: c in l.comparisons ==> c in Record(l, a).comparisons
    ensures a.RecordOperation? ==> a.comparison in Record(l, a).comparisons
  {
  }

  /** The mismatch counter stays at zero exactly when no action, in whatever order, reported a difference. */
  lemma {:induction false} ZeroMismatchesMeansNoneReported(actions: seq<Action>)
    ensures RecordAll(actions).mismatchCount == 0 <==> forall a :: a in actions ==> !Accuses(a)
    ensures RecordAll(actions).mismatchCount == 0 ==> Innocent(RecordAll(actions))
    ensures forall a :: a in actions && a.RecordOperation? ==> a.comparison in RecordAll(actions).comparisons
    decreases |actions|
  {
    if actions != [] {
      var earlier, last := actions[..|actions| - 1], actions[|actions| - 1];
      ZeroMismatchesMeansNoneReported(earlier);
      OneActionCounts(RecordAll(earlier), last);
      assert actions == earlier + [last];
    }
  }

  // ----- A content record keeps the least offset and exact totals -----

  predicate IsContentFor(a: Action, path: string, stream: string) {
    a.RecordContent? && a.path == path && a.stream == stream
  }

  function TotalBytes(actions: seq<Action>, path: string, stream: string): nat {
    if actions == [] then 0
    else TotalBytes(actions[..|actions| - 1], path, stream)
         + (if IsContentFor(actions[|actions| - 1], path, stream) then actions[|actions| - 1].count else 0)
  }

  function TotalChunks(actions: seq<Action>, path: string, stream: string): nat {
    if actions == [] then 0
    else
      TotalChunks(actions[..|actions| - 1], path, stream)
      + (if IsContentFor(actions[|actions| - 1], path, stream) then 1 else 0)
  }

  /** The record of a stream against the calls that named it. */
  ghost predicate Summarizes(m: Mismatch, actions: seq<Action>, path: string, stream: string) {
    && m.differingBytes == TotalBytes(actions, path, stream)
    && m.differingChunks == TotalChunks(actions, path, stream)
    && (forall a :: a in actions && IsContentFor(a, path, stream) ==> m.firstOffset <= a.offset)
    && (exists a :: a in actions && IsContentFor(a, path, stream)
                    && a.offset == m.firstOffset && a.syntheticByte == m.syntheticByte && a.realByte == m.realByte)
  }

  lemma {:induction false} NoCallsNoTotals(actions: seq<Action>, path: string, stream: string)
    requires forall a :: a in actions ==> !IsContentFor(a, path, stream)
    ensures TotalBytes(actions, path, stream) == 0 && TotalChunks(actions, path, stream) == 0
    decreases |actions|
  {
    if actions != [] { NoCallsNoTotals(actions[..|actions| - 1], path, stream); }
  }

  /** Actions about anything else leave a stream's content record alone. */
  lemma OtherActionsKeepRecord(l: Ledger, a: Action, path: string, stream: string)
    requires Consistent(l) && !IsContentFor(a, path, stream)
    ensures (path, stream) in Record(l, a).contents <==> (path, stream) in l.contents
    ensures (path, stream) in l.contents ==>
              var i := l.contents[(path, stream)];
              i < |l.mismatches| <= |Record(l, a).mismatches| && Record(l, a).contents[(path, stream)] == i &&
                Record(l, a).mismatches[i] == l.mismatches[i]
  {
  }

  lemma SummaryIgnoresOthers(m: Mismatch, earlier: seq<Action>, last: Action, path: string, stream: string)
    requires Summarizes(m, earlier, path, stream) && !IsContentFor(last, path, stream)
    ensures Summarizes(m, earlier + [last], path, stream)
  {
    assert (earlier + [last])[..|earlier|] == earlier;
    var a :| a in earlier && IsContentFor(a, path, stream)
             && a.offset == m.firstOffset && a.syntheticByte == m.syntheticByte && a.realByte == m.realByte;
    assert a in earlier + [last];
  }

  lemma SummaryAccumulates(m: Mismatch, earlier: seq<Action>, last: Action, path: string, stream: string)
    requires IsContentFor(last, path, stream)
    requires Summarizes(m, earlier, path, stream)
             || (m.firstOffset == last.offset && m.syntheticByte == last.syntheticByte && m.realByte == last.realByte
                 && m.differingBytes == 0 && m.differingChunks == 0
                 && forall a :: a in earlier ==> !IsContentFor(a, path, stream))
    ensures Summarizes(Accumulate(m, last.offset, last.syntheticByte, last.realByte, last.count), earlier + [last],
            path, stream)
  {
    assert (earlier + [last])[..|earlier|] == earlier;
    assert last in earlier + [last];
    if !Summarizes(m, earlier, path, stream) { NoCallsNoTotals(earlier, path, stream); }
    else {
      var a :| a in earlier && IsContentFor(a, path, stream)
               && a.offset == m.firstOffset && a.syntheticByte == m.syntheticByte && a.realByte == m.realByte;
      assert a in earlier + [last];
    }
  }

  /**
   After any sequence of actions a stream has a content record exactly when it
   was reported, and the record shows the least offset reported with that
   call's own two bytes, the sum of the byte counts and the number of calls.
   */
  lemma {:induction false} ContentRecordSummarizes(actions: seq<Action>, path: string, stream: string)
    ensures IsSummary(RecordAll(actions), actions, path, stream)
    decreases |actions|
  {
    if actions != [] {
      var earlier, last := actions[..|actions| - 1], actions[|actions| - 1];
      var l := RecordAll(earlier);
      ContentRecordSummarizes(earlier, path, stream);
      CountersClassifyRecords(earlier);
      assert actions == earlier + [last];
      if IsContentFor(last, path, stream) { ContentActionSummarized(l, earlier, last, path, stream); }
      else { OtherActionSummarized(l, earlier, last, path, stream); }
    }
  }

  ghost predicate IsSummary(l: Ledger, actions: seq<Action>, path: string, stream: string) {
    && ((path, stream) in l.contents <==> exists a :: a in actions && IsContentFor(a, path, stream))
    && ((path, stream) in l.contents ==>
          l.contents[(path, stream)] < |l.mismatches|
          && Summarizes(l.mismatches[l.contents[(path, stream)]], actions, path, stream))
  }

  lemma ContentActionSummarized(l: Ledger, earlier: seq<Action>, last: Action, path: string, stream: string)
    requires Consistent(l) && IsSummary(l, earlier, path, stream) && IsContentFor(last, path, stream)
    ensures IsSummary(Record(l, last), earlier + [last], path, stream)
  {
    assert last in earlier + [last];
    var started := OpenContent(l, path, stream, last.offset, last.syntheticByte, last.realByte);
    SummaryAccumulates(started.mismatches[started.contents[(path, stream)]], earlier, last, path, stream);
  }

  lemma OtherActionSummarized(l: Ledger, earlier: seq<Action>, last: Action, path: string, stream: string)
    requires Consistent(l) && IsSummary(l, earlier, path, stream) && !IsContentFor(last, path, stream)
    ensures IsSummary(Record(l, last), earlier + [last], path, stream)
  {
    OtherActionsKeepRecord(l, last, path, stream);
    if (path, stream) in l.contents {
      SummaryIgnoresOthers(l.mismatches[l.contents[(path, stream)]], earlier, last, path, stream);
    }
    if a :| a in earlier && IsContentFor(a, path, stream) { assert a in earlier + [last]; }
  }

  // ----- The object the recorders share -----

  class VerificationState {
    var mismatches: seq<Mismatch>
    var contents: map<(string, string), nat>
    var comparisonSet: set<Comparison>
    var comparisons: seq<Comparison>
    var mismatchCount: nat
    var exclusionCount: nat
    var matchedErrorCount: nat

    ghost predicate Valid()
      reads this
    {
      && (forall c :: c in comparisonSet <==> c in comparisons)
      && (forall key :: key in contents ==> contents[key] < |mismatches|)
    }

    ghost function View(): Ledger
      reads this
    {
      Ledger(mismatches, contents, comparisons, mismatchCount, exclusionCount, matchedErrorCount)
    }

    constructor ()
      ensures Valid() && View() == EMPTY
    {
      mismatches, contents, comparisonSet, comparisons := [], map[], {}, [];
      mismatchCount, exclusionCount, matchedErrorCount := 0, 0, 0;
    }

    method Append(m: Mismatch) returns (index: nat)
      requires Valid()
      modifies this
      ensures Valid() && View() == AppendMismatch(old(View()), m) && index == |old(mismatches)|
    {
      index := |mismatches|;
      mismatches := mismatches + [m];
      if IsVssExcluded(m.path) {
        exclusionCount := exclusionCount + 1;
      } else {
        mismatchCount := mismatchCount + 1;
      }
    }

    method RecordOperationComparison(c: Comparison)
      requires Valid()
      modifies this
      ensures Valid() && View() == Record(old(View()), RecordOperation(c))
    {
      if c in comparisonSet { return; }
      comparisonSet := comparisonSet + {c};
      comparisons := comparisons + [c];
      if IsMatchedError(c) {
        matchedErrorCount := matchedErrorCount + 1;
      } else if IsVssExcluded(c.key.path) {
        exclusionCount := exclusionCount + 1;
      } else {
        mismatchCount := mismatchCount + 1;
      }
    }

    method RecordContentMismatch(
      path: string, stream: string, offset: int, syntheticByte: nat, realByte: nat, count: nat)
      requires Valid()
      modifies this
      ensures Valid()
      ensures View() == Record(old(View()), RecordContent(path, stream, offset, syntheticByte, realByte, count))
    {
      var key := (path, stream);
      if key !in contents {
        var m := Plain(StreamContents, path, stream)
                 .(firstOffset := offset, syntheticByte := syntheticByte, realByte := realByte);
        var index := Append(m);
        contents := contents[key := index];
      }
      var found := contents[key];
      var m := mismatches[found];
      if offset < m.firstOffset {
        m := m.(firstOffset := offset, syntheticByte := syntheticByte, realByte := realByte);
      }
      m := m.(differingBytes := m.differingBytes + count);
      m := m.(differingChunks := m.differingChunks + 1);
      mismatches := mismatches[found := m];
    }
  }
}
