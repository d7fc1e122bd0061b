/**
 The two-cursor merge join that pairs sorted inventories, used once for the
 objects of two filesystems and once for the streams of two objects.
 */
module MergeJoin {

  /** Lexicographic order by code unit, as `std::wstring` compares. */
  predicate Less(a: string, b: string) {
    if a == [] then b != []
    else if b == [] then false
    else a[0] < b[0] || (a[0] == b[0] && Less(a[1..], b[1..]))
  }

  lemma {:induction false} LessTrichotomy(a: string, b: string)
    ensures Less(a, b) || Less(b, a) || a == b
    ensures !(Less(a, b) && Less(b, a))
    ensures a == b ==> !Less(a, b)
    decreases |a|
  {
    if a != [] && b != [] && a[0] == b[0] {
      LessTrichotomy(a[1..], b[1..]);
      assert a == [a[0]] + a[1..] && b == [b[0]] + b[1..];
    }
  }

  lemma {:induction false} LessTransitive(a: string, b: string, c: string)
    requires Less(a, b) && Less(b, c)
    ensures Less(a, c)
    decreases |a|
  {
    if a != [] && a[0] == b[0] == c[0] {
      LessTransitive(a[1..], b[1..], c[1..]);
    }
  }

  ghost predicate StrictlySorted(keys: seq<string>) {
    forall i, j :: 0 <= i < j < |keys| ==> Less(keys[i], keys[j])
  }

  /** One step of the join: an entry of one side only, or a matched pair. */
  datatype Visit = OnlyLeft(i: nat) | OnlyRight(j: nat) | Both(i: nat, j: nat)

  /** What the join visits from cursors `i` and `j` on, in order. */
  function Join(left: seq<string>, right: seq<string>, i: nat, j: nat): (visits: seq<Visit>)
    requires i <= |left| && j <= |right|
    decreases |left| - i + |right| - j
  {
    if i == |left| && j == |right| then []
    else if i == |left| then [OnlyRight(j)] + Join(left, right, i, j + 1)
    else if j == |right| then [OnlyLeft(i)] + Join(left, right, i + 1, j)
    else if Less(left[i], right[j]) then [OnlyLeft(i)] + Join(left, right, i + 1, j)
    else if Less(right[j], left[i]) then [OnlyRight(j)] + Join(left, right, i, j + 1)
    else [Both(i, j)] + Join(left, right, i + 1, j + 1)
  }

  predicate TouchesLeft(v: Visit, i: nat) {
    (v.OnlyLeft? || v.Both?) && v.i == i
  }

  predicate TouchesRight(v: Visit, j: nat) {
    (v.OnlyRight? || v.Both?) && v.j == j
  }

  function LeftTouches(visits: seq<Visit>, i: nat): nat {
    if visits == [] then 0
    else (if TouchesLeft(visits[0], i) then 1 else 0) + LeftTouches(visits[1..], i)
  }

  function RightTouches(visits: seq<Visit>, j: nat): nat {
    if visits == [] then 0
    else (if TouchesRight(visits[0], j) then 1 else 0) + RightTouches(visits[1..], j)
  }

  /** Sorted or not, the join visits every entry of either side exactly once. */
  lemma {:induction false} JoinVisitsOnce(left: seq<string>, right: seq<string>, i: nat, j: nat, a: nat, b: nat)
    requires i <= |left| && j <= |right|
    ensures LeftTouches(Join(left, right, i, j), a) == if i <= a < |left| then 1 else 0
    ensures RightTouches(Join(left, right, i, j), b) == if j <= b < |right| then 1 else 0
    decreases |left| - i + |right| - j
  {
    var visits := Join(left, right, i, j);
    if visits != [] {
      var i', j' := i + (if visits[0].OnlyRight? then 0 else 1), j + (if visits[0].OnlyLeft? then 0 else 1);
      JoinVisitsOnce(left, right, i', j', a, b);
      assert visits[1..] == Join(left, right, i', j');
    }
  }

  /** A pair is only ever matched on equal keys, and indices stay in range. */
  lemma {:induction false} JoinPairsEqualKeys(left: seq<string>, right: seq<string>, i: nat, j: nat, v: Visit)
    requires i <= |left| && j <= |right| && v in Join(left, right, i, j)
    ensures !v.OnlyRight? ==> i <= v.i < |left|
    ensures !v.OnlyLeft? ==> j <= v.j < |right|
    ensures v.Both? ==> left[v.i] == right[v.j]
    decreases |left| - i + |right| - j
  {
    var visits := Join(left, right, i, j);
    if v == visits[0] {
      if v.Both? { LessTrichotomy(left[i], right[j]); }
    } else {
      var i', j' := i + (if visits[0].OnlyRight? then 0 else 1), j + (if visits[0].OnlyLeft? then 0 else 1);
      assert visits[1..] == Join(left, right, i', j');
      JoinPairsEqualKeys(left, right, i', j', v);
    }
  }

  /** Membership of a touched index, from its count. */
  lemma {:induction false} TouchedLeftIsVisited(visits: seq<Visit>, i: nat) returns (k: nat)
    requires LeftTouches(visits, i) > 0
    ensures k < |visits| && TouchesLeft(visits[k], i)
  {
    if TouchesLeft(visits[0], i) { k := 0; }
    else { k := TouchedLeftIsVisited(visits[1..], i); k := k + 1; }
  }

  lemma {:induction false} TouchedRightIsVisited(visits: seq<Visit>, j: nat) returns (k: nat)
    requires RightTouches(visits, j) > 0
    ensures k < |visits| && TouchesRight(visits[k], j)
  {
    if TouchesRight(visits[0], j) { k := 0; }
    else { k := TouchedRightIsVisited(visits[1..], j); k := k + 1; }
  }

  /** Both cursors separate the keys already consumed from those to come. */
  ghost predicate CursorsSeparate(left: seq<string>, right: seq<string>, i: nat, j: nat)
    requires i <= |left| && j <= |right|
  {
    && (forall a, b :: 0 <= a < i && j <= b < |right| ==> Less(left[a], right[b]))
    && (forall a, b :: i <= a < |left| && 0 <= b < j ==> Less(right[b], left[a]))
  }

  lemma AdvanceKeepsSeparation(left: seq<string>, right: seq<string>, i: nat, j: nat)
    requires i <= |left| && j <= |right| && Join(left, right, i, j) != []
    requires StrictlySorted(left) && StrictlySorted(right) && CursorsSeparate(left, right, i, j)
    ensures var v := Join(left, right, i, j)[0];
            && (v.OnlyLeft? ==> v.i == i < |left| && CursorsSeparate(left, right, i + 1, j) && left[i] !in right)
            && (v.OnlyRight? ==> v.j == j < |right| && CursorsSeparate(left, right, i, j + 1) && right[j] !in left)
            && (v.Both? ==> v == Both(i, j) && i < |left| && j < |right| && CursorsSeparate(left, right, i + 1, j + 1))
  {
    if i < |left| && j < |right| {
      LessTrichotomy(left[i], right[j]);
      forall b | j < b < |right| && Less(left[i], right[j]) ensures Less(left[i], right[b]) {
        LessTransitive(left[i], right[j], right[b]);
      }
      forall a | i < a < |left| && Less(right[j], left[i]) ensures Less(right[j], left[a]) {
        LessTransitive(right[j], left[i], left[a]);
      }
    }
    forall b | i < |left| && 0 <= b < |right| ensures Less(left[i], right[b]) ==> left[i] != right[b] {
      LessTrichotomy(left[i], right[b]);
    }
    forall b | i < |left| && 0 <= b < |right| ensures Less(right[b], left[i]) ==> left[i] != right[b] {
      LessTrichotomy(left[i], right[b]);
    }
    forall a | j < |right| && 0 <= a < |left| ensures Less(left[a], right[j]) ==> left[a] != right[j] {
      LessTrichotomy(left[a], right[j]);
    }
    forall a | j < |right| && 0 <= a < |left| ensures Less(right[j], left[a]) ==> left[a] != right[j] {
      LessTrichotomy(left[a], right[j]);
    }
  }

  lemma JoinTail(left: seq<string>, right: seq<string>, i: nat, j: nat, i': nat, j': nat)
    requires i <= |left| && j <= |right| && Join(left, right, i, j) != []
    requires i' == i + (if Join(left, right, i, j)[0].OnlyRight? then 0 else 1)
    requires j' == j + (if Join(left, right, i, j)[0].OnlyLeft? then 0 else 1)
    ensures i' <= |left| && j' <= |right|
    ensures Join(left, right, i, j) == [Join(left, right, i, j)[0]] + Join(left, right, i', j')
  {
  }

  /** On strictly sorted keys a one-sided visit names a key the other side lacks. */
  lemma {:induction false} OneSidedVisitsAreMissing(left: seq<string>, right: seq<string>, i: nat, j: nat, v: Visit)
    requires i <= |left| && j <= |right| && v in Join(left, right, i, j)
    requires StrictlySorted(left) && StrictlySorted(right) && CursorsSeparate(left, right, i, j)
    ensures v.OnlyLeft? ==> v.i < |left| && left[v.i] !in right
    ensures v.OnlyRight? ==> v.j < |right| && right[v.j] !in left
    decreases |left| - i + |right| - j
  {
    var first := Join(left, right, i, j)[0];
    AdvanceKeepsSeparation(left, right, i, j);
    if v != first {
      var i', j' := i + (if first.OnlyRight? then 0 else 1), j + (if first.OnlyLeft? then 0 else 1);
      JoinTail(left, right, i, j, i', j');
      OneSidedVisitsAreMissing(left, right, i', j', v);
    }
  }

  /**
   The join of strictly sorted keys is the naive comparison of two sets: an
   entry is reported one-sided exactly when the other side lacks its key, and
   a pair is matched exactly when the keys are equal.
   */
  lemma JoinIsExact(left: seq<string>, right: seq<string>)
    requires StrictlySorted(left) && StrictlySorted(right)
    ensures forall i: nat :: OnlyLeft(i) in Join(left, right, 0, 0) <==> i < |left| && left[i] !in right
    ensures forall j: nat :: OnlyRight(j) in Join(left, right, 0, 0) <==> j < |right| && right[j] !in left
    ensures forall i: nat, j: nat :: Both(i, j) in Join(left, right, 0, 0) <==>
            i < |left| && j < |right| && left[i] == right[j]
  {
    var visits := Join(left, right, 0, 0);
    forall v | v in visits
      ensures v.OnlyLeft? ==> v.i < |left| && left[v.i] !in right
      ensures v.OnlyRight? ==> v.j < |right| && right[v.j] !in left
      ensures v.Both? ==> v.i < |left| && v.j < |right| && left[v.i] == right[v.j]
    {
      OneSidedVisitsAreMissing(left, right, 0, 0, v);
      JoinPairsEqualKeys(left, right, 0, 0, v);
    }
    forall i: nat | i < |left|
      ensures left[i] !in right ==> OnlyLeft(i) in visits
      ensures forall j: nat :: j < |right| && left[i] == right[j] ==> Both(i, j) in visits
    {
      JoinVisitsOnce(left, right, 0, 0, i, 0);
      var k := TouchedLeftIsVisited(visits, i);
      forall j: nat | j < |right| && left[i] == right[j] ensures visits[k] == Both(i, j) {
        assert visits[k] in visits;
        assert left[i] in right;
        if visits[k].j < j { LessTrichotomy(right[visits[k].j], right[j]); }
        if j < visits[k].j { LessTrichotomy(right[j], right[visits[k].j]); }
      }
      assert visits[k] in visits;
    }
    forall j: nat | j < |right| && right[j] !in left ensures OnlyRight(j) in visits {
      JoinVisitsOnce(left, right, 0, 0, 0, j);
      var k := TouchedRightIsVisited(visits, j);
      assert visits[k] in visits;
    }
  }

  /** When nothing is one-sided, the two key sequences are the same sequence, paired index by index. */
  lemma {:induction false} AllPairedMeansEqual(left: seq<string>, right: seq<string>, i: nat, j: nat, k: nat)
    requires i <= |left| && j <= |right|
    requires forall v :: v in Join(left, right, i, j) ==> v.Both?
    ensures left[i..] == right[j..]
    ensures i <= k < |left| ==> Both(k, j + k - i) in Join(left, right, i, j)
    decreases |left| - i
  {
    var visits := Join(left, right, i, j);
    if visits != [] {
      assert visits[0] in visits;
      LessTrichotomy(left[i], right[j]);
      assert visits[1..] == Join(left, right, i + 1, j + 1);
      AllPairedMeansEqual(left, right, i + 1, j + 1, k);
      assert left[i..] == [left[i]] + left[i + 1..] && right[j..] == [right[j]] + right[j + 1..];
    }
  }

  /** Joined with itself, a sequence of keys is paired index by index. */
  lemma {:induction false} SelfJoinPairs(keys: seq<string>, i: nat, n: nat)
    requires i <= |keys|
    ensures |Join(keys, keys, i, i)| == |keys| - i
    ensures n < |keys| - i ==> Join(keys, keys, i, i)[n] == Both(i + n, i + n)
    decreases |keys| - i
  {
    if i < |keys| {
      LessTrichotomy(keys[i], keys[i]);
      SelfJoinPairs(keys, i + 1, if n == 0 then 0 else n - 1);
    }
  }
}
