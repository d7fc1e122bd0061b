/**
 The whole-volume comparison of two snapshots: four workers read disjoint
 ranges in chunks, skip what is equal, and merge what they saw in any order.
 */
module SnapshotScan {
  import opened Arithmetic
  import opened Common

  const WORKERS: nat := 4

  /** The two views under comparison, and the dirty map, if there is one, as a set of block offsets. */
  datatype Pair = Pair(baseline: seq<nat>, payload: seq<nat>, map_: Option<set<nat>>, clusterSize: nat)

  ghost predicate WellFormed(v: Pair) { |v.baseline| == |v.payload| && v.clusterSize > 0 }

  datatype Difference = Difference(blockOffset: nat, byteOffset: nat, baseline: nat, payload: nat)

  datatype Observation = Observation(
    comparedBytes: nat, differingBytes: nat, differingBlocks: nat, uncoveredBytes: nat, uncoveredBlocks: nat,
    firstUncovered: Option<Difference>, uncoveredClusters: seq<nat>)

  const NOTHING := Observation(0, 0, 0, 0, 0, None, [])

  // ----- The naive reading: sets of differing bytes and blocks -----

  predicate Differs(v: Pair, i: nat) { i < |v.baseline| && i < |v.payload| && v.baseline[i] != v.payload[i] }

  predicate Uncovered(v: Pair, block: nat) { v.map_.Some? && block * BLOCK !in v.map_.value }

  ghost function DifferingBytes(v: Pair, blocks: set<nat>): set<nat> {
    set i: nat | i < |v.baseline| && Differs(v, i) && i / BLOCK in blocks
  }

  ghost function UncoveredBytes(v: Pair, blocks: set<nat>): set<nat> {
    set i: nat | i < |v.baseline| && Differs(v, i) && i / BLOCK in blocks && Uncovered(v, i / BLOCK)
  }

  ghost predicate BlockDiffers(v: Pair, block: nat) { exists i: nat :: i / BLOCK == block && Differs(v, i) }

  ghost function DifferingBlocks(v: Pair, blocks: set<nat>): set<nat> { set k | k in blocks && BlockDiffers(v, k) }

  ghost function UncoveredBlocks(v: Pair, blocks: set<nat>): set<nat> {
    set k | k in blocks && BlockDiffers(v, k) && Uncovered(v, k)
  }

  function DifferenceAt(v: Pair, i: nat): Difference
    requires i < |v.baseline| && i < |v.payload|
  {
    Difference(i - i % BLOCK, i, v.baseline[i], v.payload[i])
  }

  ghost predicate IsFirst(v: Pair, bytes: set<nat>, first: Option<Difference>) {
    match first
    case None => bytes == {}
    case Some(d) =>
      && d.byteOffset in bytes && (forall i :: i in bytes ==> d.byteOffset <= i)
      && d.byteOffset < |v.baseline| && d.byteOffset < |v.payload| && d == DifferenceAt(v, d.byteOffset)
  }

  ghost predicate AreClusters(v: Pair, bytes: set<nat>, clusters: seq<nat>)
    requires v.clusterSize > 0
  {
    forall c: nat :: c in clusters <==> exists i :: i in bytes && i / v.clusterSize == c
  }

  /** The observation is what a byte-by-byte scan of exactly these blocks would find. */
  ghost predicate Describes(v: Pair, blocks: set<nat>, o: Observation)
    requires v.clusterSize > 0
  {
    && o.differingBytes == |DifferingBytes(v, blocks)|
    && o.differingBlocks == |DifferingBlocks(v, blocks)|
    && o.uncoveredBytes == |UncoveredBytes(v, blocks)|
    && o.uncoveredBlocks == |UncoveredBlocks(v, blocks)|
    && IsFirst(v, UncoveredBytes(v, blocks), o.firstUncovered)
    && AreClusters(v, UncoveredBytes(v, blocks), o.uncoveredClusters)
  }

  // ----- Merging -----

  function Earlier(first: Option<Difference>, second: Option<Difference>): Option<Difference> {
    if second.Some? && (first.None? || second.value.byteOffset < first.value.byteOffset) then second else first
  }

  /** What `Record` makes of the shared observation and one chunk's. */
  function Merge(shared: Observation, compared: nat, o: Observation): Observation {
    Observation(
      shared.comparedBytes + compared,
      shared.differingBytes + o.differingBytes, shared.differingBlocks + o.differingBlocks,
      shared.uncoveredBytes + o.uncoveredBytes, shared.uncoveredBlocks + o.uncoveredBlocks,
      Earlier(shared.firstUncovered, o.firstUncovered), shared.uncoveredClusters + o.uncoveredClusters)
  }

  lemma UnionSizes<T>(a: set<T>, b: set<T>, c: set<T>)
    requires c == a + b && a !! b
    ensures |c| == |a| + |b|
  {
  }

  lemma BytesOfUnion(v: Pair, a: set<nat>, b: set<nat>)
    requires a !! b
    ensures DifferingBytes(v, a + b) == DifferingBytes(v, a) + DifferingBytes(v, b)
    ensures DifferingBytes(v, a) !! DifferingBytes(v, b)
    ensures UncoveredBytes(v, a + b) == UncoveredBytes(v, a) + UncoveredBytes(v, b)
    ensures UncoveredBytes(v, a) !! UncoveredBytes(v, b)
  {
  }

  lemma FirstOfUnion(v: Pair, a: set<nat>, b: set<nat>, x: Option<Difference>, y: Option<Difference>)
    requires IsFirst(v, a, x) && IsFirst(v, b, y)
    ensures IsFirst(v, a + b, Earlier(x, y))
  {
  }

  lemma ClustersOfUnion(v: Pair, a: set<nat>, b: set<nat>, x: seq<nat>, y: seq<nat>)
    requires v.clusterSize > 0 && AreClusters(v, a, x) && AreClusters(v, b, y)
    ensures AreClusters(v, a + b, x + y)
  {
    forall c: nat ensures c in x + y <==> exists i :: i in a + b && i / v.clusterSize == c {
      assert c in x + y <==> c in x || c in y;
      if c in x { var i :| i in a && i / v.clusterSize == c; assert i in a + b; }
      if c in y { var i :| i in b && i / v.clusterSize == c; assert i in a + b; }
    }
  }

  /** Observations of disjoint blocks merge into the observation of all of them. */
  lemma MergeDescribes(v: Pair, a: set<nat>, x: Observation, b: set<nat>, y: Observation, compared: nat)
    requires v.clusterSize > 0 && a !! b && Describes(v, a, x) && Describes(v, b, y)
    ensures Describes(v, a + b, Merge(x, compared, y))
  {
    BytesOfUnion(v, a, b);
    UnionSizes(DifferingBytes(v, a), DifferingBytes(v, b), DifferingBytes(v, a + b));
    UnionSizes(UncoveredBytes(v, a), UncoveredBytes(v, b), UncoveredBytes(v, a + b));
    UnionSizes(DifferingBlocks(v, a), DifferingBlocks(v, b), DifferingBlocks(v, a + b));
    UnionSizes(UncoveredBlocks(v, a), UncoveredBlocks(v, b), UncoveredBlocks(v, a + b));
    FirstOfUnion(v, UncoveredBytes(v, a), UncoveredBytes(v, b), x.firstUncovered, y.firstUncovered);
    ClustersOfUnion(v, UncoveredBytes(v, a), UncoveredBytes(v, b), x.uncoveredClusters, y.uncoveredClusters);
  }

  /** Blocks without a difference describe nothing. */
  lemma EqualBlocksDescribeNothing(v: Pair, blocks: set<nat>)
    requires v.clusterSize > 0 && forall i: nat :: i / BLOCK in blocks ==> !Differs(v, i)
    ensures Describes(v, blocks, NOTHING)
  {
    assert DifferingBytes(v, blocks) == {} && UncoveredBytes(v, blocks) == {};
    assert DifferingBlocks(v, blocks) == {} && UncoveredBlocks(v, blocks) == {};
  }

  lemma MergeNothing(x: Observation, compared: nat)
    ensures Merge(x, compared, NOTHING) == x.(comparedBytes := x.comparedBytes + compared)
  {
    assert x.uncoveredClusters + [] == x.uncoveredClusters;
  }

  // ----- One block -----

  function CountDifferingBytes(a: seq<nat>, b: seq<nat>): nat
    requires |a| == |b|
  {
    if a == [] then 0 else CountDifferingBytes(a[..|a| - 1], b[..|b| - 1]) + if a[|a| - 1] != b[|b| - 1] then 1 else 0
  }

  ghost function DifferingBetween(v: Pair, lo: nat, hi: nat): set<nat> { set i: nat | lo <= i < hi && Differs(v, i) }

  lemma {:induction false} CountIsSize(v: Pair, lo: nat, hi: nat)
    requires lo <= hi <= |v.baseline| == |v.payload|
    ensures CountDifferingBytes(v.baseline[lo..hi], v.payload[lo..hi]) == |DifferingBetween(v, lo, hi)|
    decreases hi
  {
    if lo == hi { assert DifferingBetween(v, lo, hi) == {}; }
    else {
      CountIsSize(v, lo, hi - 1);
      CountOneMore(v.baseline, v.payload, lo, hi);
      SizeOneMore(v, lo, hi);
    }
  }

  lemma CountOneMore(a: seq<nat>, b: seq<nat>, lo: nat, hi: nat)
    requires lo < hi <= |a| == |b|
    ensures CountDifferingBytes(a[lo..hi], b[lo..hi]) == CountDifferingBytes(a[lo..hi - 1], b[lo..hi - 1])
            + if a[hi - 1] != b[hi - 1] then 1 else 0
  {
    assert a[lo..hi][..hi - 1 - lo] == a[lo..hi - 1];
    assert b[lo..hi][..hi - 1 - lo] == b[lo..hi - 1];
  }

  lemma SizeOneMore(v: Pair, lo: nat, hi: nat)
    requires lo < hi
    ensures |DifferingBetween(v, lo, hi)| == |DifferingBetween(v, lo, hi - 1)| + if Differs(v, hi - 1) then 1 else 0
  {
    var earlier := DifferingBetween(v, lo, hi - 1);
    if Differs(v, hi - 1) { assert DifferingBetween(v, lo, hi) == earlier + {hi - 1}; }
    else { assert DifferingBetween(v, lo, hi) == earlier; }
  }

  /** Which clusters of a block differ, lowest first; a cluster may reach beyond the block. */
  method AppendDifferingClusters(
    baseline: seq<nat>, payload: seq<nat>, blockOffset: nat, clusterSize: nat, clusters: seq<nat>)
    returns (result: seq<nat>)
    requires |baseline| == |payload| > 0 && clusterSize > 0
    ensures clusters <= result
    ensures forall c: nat :: c in result[|clusters|..] <==>
              exists i :: 0 <= i < |baseline| && baseline[i] != payload[i] && (blockOffset + i) / clusterSize == c
  {
    var blockEnd := blockOffset + |baseline|;
    var cluster := blockOffset / clusterSize;
    var pastLast := (blockEnd - 1) / clusterSize + 1;
    ghost var first := cluster;
    result := clusters;
    ghost var added: seq<nat> := [];
    BoundaryIsCrossed(blockEnd - 1, clusterSize, cluster);
    BoundaryIsCrossed(blockOffset, clusterSize, cluster);
    while cluster < pastLast
      invariant first <= cluster <= pastLast && result == clusters + added
      invariant forall c: nat :: c in added <==>
        first <= c < cluster && ClusterDiffers(baseline, payload, blockOffset, clusterSize, c)
    {
      var clusterStart := cluster * clusterSize;
      var clusterEnd := clusterStart + clusterSize;
      ClusterMeetsBlock(blockOffset, blockEnd, clusterSize, cluster);
      var start := if blockOffset > clusterStart then blockOffset else clusterStart;
      var end := if blockEnd < clusterEnd then blockEnd else clusterEnd;
      var relative, size := start - blockOffset, end - start;
      ClusterSlice(baseline, payload, blockOffset, clusterSize, cluster, relative, relative + size);
      if baseline[relative..relative + size] != payload[relative..relative + size] {
        result := result + [cluster];
        added := added + [cluster];
      }
      cluster := cluster + 1;
    }
    assert result[|clusters|..] == added;
    forall c: nat | ClusterDiffers(baseline, payload, blockOffset, clusterSize, c) ensures first <= c < pastLast {
      ClusterInBlock(baseline, payload, blockOffset, clusterSize, c);
    }
    forall c: nat
      ensures c in result[|clusters|..] <==>
              exists i :: 0 <= i < |baseline| && baseline[i] != payload[i] && (blockOffset + i) / clusterSize == c
    {
      assert c in added <==> ClusterDiffers(baseline, payload, blockOffset, clusterSize, c);
    }
  }

  ghost predicate ClusterDiffers(baseline: seq<nat>, payload: seq<nat>, blockOffset: nat, clusterSize: nat, c: nat)
    requires |baseline| == |payload| && clusterSize > 0
  {
    exists i :: 0 <= i < |baseline| && baseline[i] != payload[i] && (blockOffset + i) / clusterSize == c
  }

  lemma ClusterInBlock(baseline: seq<nat>, payload: seq<nat>, blockOffset: nat, clusterSize: nat, c: nat)
    requires |baseline| == |payload| && clusterSize > 0
    requires ClusterDiffers(baseline, payload, blockOffset, clusterSize, c)
    ensures |baseline| > 0 && blockOffset / clusterSize <= c <= (blockOffset + |baseline| - 1) / clusterSize
  {
    var i :| 0 <= i < |baseline| && baseline[i] != payload[i] && (blockOffset + i) / clusterSize == c;
    QuotientRange(blockOffset + i, c, clusterSize);
    BoundaryIsCrossed(blockOffset + |baseline| - 1, clusterSize, c);
    BoundaryIsCrossed(blockOffset, clusterSize, c + 1);
  }

  lemma ClusterMeetsBlock(blockOffset: nat, blockEnd: nat, clusterSize: nat, c: nat)
    requires blockOffset < blockEnd && clusterSize > 0 && blockOffset / clusterSize <= c <= (blockEnd - 1) / clusterSize
    ensures c * clusterSize < blockEnd && blockOffset < c * clusterSize + clusterSize
  {
    BoundaryIsCrossed(blockEnd - 1, clusterSize, c);
    BoundaryIsCrossed(blockOffset, clusterSize, c + 1);
    assert (c + 1) * clusterSize == c * clusterSize + clusterSize;
  }

  /** The part of cluster `c` inside the block is [from, to). */
  ghost predicate IsSlice(length: nat, blockOffset: nat, clusterSize: nat, c: nat, from: nat, to: nat) {
    && from <= to <= length
    && blockOffset + from == (if blockOffset > c * clusterSize then blockOffset else c * clusterSize)
    && blockOffset
       + to == (if blockOffset + length < c * clusterSize + clusterSize then blockOffset + length
         else c * clusterSize + clusterSize)
  }

  lemma ByteInSlice(length: nat, blockOffset: nat, clusterSize: nat, c: nat, from: nat, to: nat, i: nat)
    requires clusterSize > 0 && IsSlice(length, blockOffset, clusterSize, c, from, to) && i < length
    ensures (blockOffset + i) / clusterSize == c <==> from <= i < to
  {
    QuotientRange(blockOffset + i, c, clusterSize);
    assert (c + 1) * clusterSize == c * clusterSize + clusterSize;
  }

  lemma ClusterSlice(
    baseline: seq<nat>, payload: seq<nat>, blockOffset: nat, clusterSize: nat, c: nat, from: nat, to: nat)
    requires |baseline| == |payload| && clusterSize > 0 && IsSlice(|baseline|, blockOffset, clusterSize, c, from, to)
    ensures baseline[from..to] != payload[from..to] <==> ClusterDiffers(baseline, payload, blockOffset, clusterSize, c)
  {
    SlicesDiffer(baseline, payload, from, to);
    if i :| from <= i < to && baseline[i] != payload[i] {
      ByteInSlice(|baseline|, blockOffset, clusterSize, c, from, to, i);
    }
    if ClusterDiffers(baseline, payload, blockOffset, clusterSize, c) {
      var i :| 0 <= i < |baseline| && baseline[i] != payload[i] && (blockOffset + i) / clusterSize == c;
      ByteInSlice(|baseline|, blockOffset, clusterSize, c, from, to, i);
    }
  }

  lemma SlicesDiffer(a: seq<nat>, b: seq<nat>, from: nat, to: nat)
    requires from <= to <= |a| == |b|
    ensures a[from..to] != b[from..to] <==> exists i :: from <= i < to && a[i] != b[i]
  {
    if i :| from <= i < to && a[i] != b[i] { assert a[from..to][i - from] != b[from..to][i - from]; }
    if forall i :: from <= i < to ==> a[i] == b[i] { assert a[from..to] == b[from..to]; }
  }

  // ----- One chunk -----

  /** The blocks that begin in [lo, hi). */
  ghost function BlocksBetween(lo: nat, hi: nat): set<nat> { set k: nat | lo <= k * BLOCK < hi && k < hi }

  /** The part of the volume that belongs to one block. */
  ghost predicate IsBlock(v: Pair, block: nat, start: nat, end: nat) {
    start == block * BLOCK && start < end <= |v.baseline| && end <= start + BLOCK &&
      (end == start + BLOCK || end == |v.baseline|)
  }

  lemma BytesOfBlock(v: Pair, block: nat, start: nat, end: nat)
    requires WellFormed(v) && IsBlock(v, block, start, end)
    ensures DifferingBytes(v, {block}) == DifferingBetween(v, start, end)
    ensures UncoveredBytes(v, {block}) == if Uncovered(v, block) then DifferingBetween(v, start, end) else {}
  {
  }

  /** What the code adds for one differing block whose first difference is at `first`. */
  function BlockObservation(v: Pair, block: nat, first: nat, end: nat, clusters: seq<nat>): Observation
    requires first < end <= |v.baseline| == |v.payload|
  {
    var count := CountDifferingBytes(v.baseline[first..end], v.payload[first..end]);
    if Uncovered(v, block) then Observation(0, count, 1, count, 1, Some(DifferenceAt(v, first)), clusters)
    else Observation(0, count, 1, 0, 0, None, [])
  }

  ghost predicate AreClustersBetween(v: Pair, start: nat, end: nat, clusters: seq<nat>)
    requires v.clusterSize > 0
  {
    forall c: nat :: c in clusters <==> exists i :: start <= i < end && Differs(v, i) && i / v.clusterSize == c
  }

  /** The first difference of a block. */
  ghost predicate IsFirstOfBlock(v: Pair, block: nat, start: nat, first: nat, end: nat) {
    && WellFormed(v) && IsBlock(v, block, start, end) && start <= first < end && Differs(v, first)
    && forall i :: start <= i < first ==> !Differs(v, i)
  }

  lemma BlockIsDescribed(v: Pair, block: nat, start: nat, first: nat, end: nat, clusters: seq<nat>)
    requires IsFirstOfBlock(v, block, start, first, end) && AreClustersBetween(v, start, end, clusters)
    ensures Describes(v, {block}, BlockObservation(v, block, first, end, clusters))
  {
    BytesOfBlock(v, block, start, end);
    CountIsSize(v, first, end);
    assert DifferingBetween(v, first, end) == DifferingBetween(v, start, end);
    assert first / BLOCK == block;
    assert DifferingBlocks(v, {block}) == {block};
    assert UncoveredBlocks(v, {block}) == if Uncovered(v, block) then {block} else {};
    var o := BlockObservation(v, block, first, end, clusters);
    assert IsFirst(v, UncoveredBytes(v, {block}), o.firstUncovered);
    forall c: nat
      ensures c in o.uncoveredClusters <==> exists i :: i in UncoveredBytes(v, {block}) && i / v.clusterSize == c
    {
      if Uncovered(v, block) && c in clusters {
        var i :| start <= i < end && Differs(v, i) && i / v.clusterSize == c;
        assert i in UncoveredBytes(v, {block});
      }
    }
  }

  /** The buffers hold the bytes of the volume from `offset` on, up to a block boundary or the end. */
  ghost predicate IsChunk(v: Pair, offset: nat, baseline: seq<nat>, payload: seq<nat>) {
    && WellFormed(v) && |baseline| == |payload| && offset % BLOCK == 0 && offset + |baseline| <= |v.baseline|
    && (|baseline| % BLOCK == 0 || offset + |baseline| == |v.baseline|)
    && (forall i :: 0 <= i < |baseline| ==>
          baseline[i] == v.baseline[offset + i] && payload[i] == v.payload[offset + i])
  }

  /** A block of a chunk whose first difference is at `first`, both relative to the chunk. */
  ghost predicate IsDifferingBlock(
    v: Pair, offset: nat, baseline: seq<nat>, payload: seq<nat>, relative: nat, first: nat, end: nat)
  {
    && IsChunk(v, offset, baseline, payload) && relative % BLOCK == 0 && relative <= first < end <= |baseline|
    && end == (if BLOCK < |baseline| - relative then relative + BLOCK else |baseline|)
    && baseline[first] != payload[first]
    && forall i :: relative <= i < first ==> baseline[i] == payload[i]
  }

  lemma DifferingBlockBounds(
    v: Pair, offset: nat, baseline: seq<nat>, payload: seq<nat>, relative: nat, first: nat, end: nat)
    requires IsDifferingBlock(v, offset, baseline, payload, relative, first, end)
    ensures IsBlock(v, (offset + relative) / BLOCK, offset + relative, offset + end)
    ensures (offset + first) - (offset + first) % BLOCK == offset + relative
  {
    BlockOfSum(offset, relative, first);
  }

  lemma DifferingBlockHasFirst(
    v: Pair, offset: nat, baseline: seq<nat>, payload: seq<nat>, relative: nat, first: nat, end: nat)
    requires IsDifferingBlock(v, offset, baseline, payload, relative, first, end)
    ensures IsFirstOfBlock(v, (offset + relative) / BLOCK, offset + relative, offset + first, offset + end)
  {
    DifferingBlockBounds(v, offset, baseline, payload, relative, first, end);
    forall i | offset + relative <= i < offset + first ensures !Differs(v, i) {
      assert baseline[i - offset] == payload[i - offset];
    }
  }

  lemma BlockOfSum(offset: nat, relative: nat, first: nat)
    requires offset % BLOCK == 0 && relative % BLOCK == 0 && relative <= first < relative + BLOCK
    ensures (offset + relative) / BLOCK * BLOCK == offset + relative
    ensures (offset + first) - (offset + first) % BLOCK == offset + relative
  {
    var a, b := offset / BLOCK, relative / BLOCK;
    assert offset == a * BLOCK && relative == b * BLOCK;
    DivisionIsUnique(a + b, 0, BLOCK);
    DivisionIsUnique(a + b, first - relative, BLOCK);
  }

  function Found(uncovered: bool, differing: nat, d: Difference, clusters: seq<nat>): Observation {
    if uncovered then Observation(0, differing, 1, differing, 1, Some(d), clusters)
    else Observation(0, differing, 1, 0, 0, None, [])
  }

  ghost function FoundInBuffers(
    v: Pair, offset: nat, baseline: seq<nat>, payload: seq<nat>, relative: nat, first: nat, end: nat,
    clusters: seq<nat>): Observation
    requires relative <= first < end <= |baseline| == |payload|
  {
    var uncovered := v.map_.Some? && offset + relative !in v.map_.value;
    Found(uncovered, CountDifferingBytes(baseline[first..end], payload[first..end]),
          Difference(offset + relative, offset + first, baseline[first], payload[first]), clusters)
  }

  lemma FoundIsObserved(
    v: Pair, offset: nat, baseline: seq<nat>, payload: seq<nat>, relative: nat, first: nat, end: nat,
    clusters: seq<nat>)
    requires IsDifferingBlock(v, offset, baseline, payload, relative, first, end)
    ensures FoundInBuffers(v, offset, baseline, payload, relative, first, end, clusters)
            == BlockObservation(v, (offset + relative) / BLOCK, offset + first, offset + end, clusters)
  {
    DifferingBlockBounds(v, offset, baseline, payload, relative, first, end);
    assert baseline[first..end] == v.baseline[offset + first..offset + end];
    assert payload[first..end] == v.payload[offset + first..offset + end];
  }

  /** What the buffers show of a differing block is what the volume has there. */

  lemma ObservedBlockIsDescribed(
    v: Pair, block: nat, start: nat, first: nat, end: nat, clusters: seq<nat>, x: Observation)
    requires IsFirstOfBlock(v, block, start, first, end) && AreClustersBetween(v, start, end, clusters)
    requires x == BlockObservation(v, block, first, end, clusters)
    ensures Describes(v, {block}, x)
  {
    BlockIsDescribed(v, block, start, first, end, clusters);
  }

  lemma FoundDescribes(
    v: Pair, offset: nat, baseline: seq<nat>, payload: seq<nat>, relative: nat, first: nat, end: nat,
    clusters: seq<nat>)
    requires IsDifferingBlock(v, offset, baseline, payload, relative, first, end)
    requires AreClustersBetween(v, offset + relative, offset + end, clusters)
    ensures Describes(v, {(offset + relative) / BLOCK},
            FoundInBuffers(v, offset, baseline, payload, relative, first, end, clusters))
  {
    DifferingBlockHasFirst(v, offset, baseline, payload, relative, first, end);
    FoundIsObserved(v, offset, baseline, payload, relative, first, end, clusters);
    ObservedBlockIsDescribed(v, (offset + relative) / BLOCK, offset + relative, offset + first, offset + end, clusters,
      FoundInBuffers(v, offset, baseline, payload, relative, first, end, clusters));
  }

  method AppendClustersOfBlock(
    baseline: seq<nat>, payload: seq<nat>, offset: nat, relative: nat, end: nat, clusterSize: nat, clusters: seq<nat>,
    ghost v: Pair)
    returns (appended: seq<nat>, ghost added: seq<nat>)
    requires IsChunk(v, offset, baseline, payload) && relative < end <= |baseline| && v.clusterSize == clusterSize
    ensures appended == clusters + added && AreClustersBetween(v, offset + relative, offset + end, added)
  {
    appended := AppendDifferingClusters(baseline[relative..end], payload[relative..end], offset + relative, clusterSize,
      clusters);
    added := appended[|clusters|..];
    LocalClusters(v, offset, baseline, payload, relative, end, added);
  }

  /** Adds one differing block to what the chunk has shown so far. */
  method AddBlock(
    o: Observation, differing: nat, uncovered: bool, d: Difference, appended: seq<nat>, ghost added: seq<nat>)
    returns (result: Observation)
    requires uncovered ==> appended == o.uncoveredClusters + added
    requires o.firstUncovered.Some? ==> o.firstUncovered.value.byteOffset < d.byteOffset
    ensures result == Merge(o, 0, Found(uncovered, differing, d, added))
    ensures result.firstUncovered.Some? ==> result.firstUncovered.value.byteOffset <= d.byteOffset
  {
    result := o.(differingBytes := o.differingBytes + differing, differingBlocks := o.differingBlocks + 1);
    assert o.uncoveredClusters + [] == o.uncoveredClusters;
    if uncovered {
      result := result.(
        uncoveredBytes := result.uncoveredBytes + differing,
        uncoveredBlocks := result.uncoveredBlocks + 1, uncoveredClusters := appended);
      if result.firstUncovered.None? { result := result.(firstUncovered := Some(d)); }
    }
  }

  /** The clusters of an uncovered block are appended; those of a covered one only have to exist. */
  method ClustersIfUncovered(
    baseline: seq<nat>, payload: seq<nat>, offset: nat, relative: nat, end: nat, clusterSize: nat, uncovered: bool,
    clusters: seq<nat>, ghost v: Pair)
    returns (appended: seq<nat>, ghost added: seq<nat>)
    requires IsChunk(v, offset, baseline, payload) && relative < end <= |baseline| && v.clusterSize == clusterSize
    ensures uncovered ==> appended == clusters + added
    ensures AreClustersBetween(v, offset + relative, offset + end, added)
  {
    if uncovered {
      appended, added := AppendClustersOfBlock(baseline, payload, offset, relative, end, clusterSize, clusters, v);
    } else {
      added := ClustersBetween(v, offset + relative, offset + end);
      appended := [];
    }
  }

  method ObserveBlock(
    baseline: seq<nat>, payload: seq<nat>, offset: nat, relative: nat, first: nat, end: nat, clusterSize: nat,
    map_: Option<set<nat>>, o: Observation, ghost v: Pair) returns (result: Observation, ghost x: Observation)
    requires IsDifferingBlock(v, offset, baseline, payload, relative, first, end) && v.clusterSize == clusterSize
    requires v.map_ == map_
    requires o.firstUncovered.Some? ==> o.firstUncovered.value.byteOffset < offset + relative
    ensures Describes(v, {(offset + relative) / BLOCK}, x) && result == Merge(o, 0, x)
    ensures result.firstUncovered.Some? ==> result.firstUncovered.value.byteOffset < offset + relative + BLOCK
  {
    var differing := CountDifferingBytes(baseline[first..end], payload[first..end]);
    var uncovered := map_.Some? && offset + relative !in map_.value;
    var appended;
    ghost var added;
    appended, added := ClustersIfUncovered(
      baseline, payload, offset, relative, end, clusterSize, uncovered, o.uncoveredClusters, v);
    var d := Difference(offset + relative, offset + first, baseline[first], payload[first]);
    FoundDescribes(v, offset, baseline, payload, relative, first, end, added);
    x := FoundInBuffers(v, offset, baseline, payload, relative, first, end, added);
    result := AddBlock(o, differing, uncovered, d, appended, added);
  }

  /** The clusters with a difference in [start, end), in some order. */
  ghost function ClustersBetween(v: Pair, start: nat, end: nat): (clusters: seq<nat>)
    requires v.clusterSize > 0
    ensures AreClustersBetween(v, start, end, clusters)
    decreases end
  {
    if end <= start then []
    else
      var rest := ClustersBetween(v, start, end - 1);
      if Differs(v, end - 1) then
        var clusters := rest + [(end - 1) / v.clusterSize];
        assert AreClustersBetween(v, start, end, clusters) by { OneMoreCluster(v, start, end, rest, clusters); }
        clusters
      else
        assert AreClustersBetween(v, start, end, rest) by { OneMoreCluster(v, start, end, rest, rest); }
        rest
  }

  lemma OneMoreCluster(v: Pair, start: nat, end: nat, rest: seq<nat>, clusters: seq<nat>)
    requires v.clusterSize > 0 && start < end && AreClustersBetween(v, start, end - 1, rest)
    requires clusters == if Differs(v, end - 1) then rest + [(end - 1) / v.clusterSize] else rest
    ensures AreClustersBetween(v, start, end, clusters)
  {
    forall c: nat ensures c in clusters <==> exists i :: start <= i < end && Differs(v, i) && i / v.clusterSize == c {
      if c in rest { var i :| start <= i < end - 1 && Differs(v, i) && i / v.clusterSize == c; }
    }
  }

  lemma LocalClusters(
    v: Pair, offset: nat, baseline: seq<nat>, payload: seq<nat>, from: nat, to: nat, clusters: seq<nat>)
    requires IsChunk(v, offset, baseline, payload) && from <= to <= |baseline|
    requires forall c: nat :: c in clusters <==>
               exists i :: 0 <= i < to - from && baseline[from..to][i] != payload[from..to][i] &&
                 (offset + from + i) / v.clusterSize == c
    ensures AreClustersBetween(v, offset + from, offset + to, clusters)
  {
    forall c: nat
      ensures c in clusters <==> exists i :: offset + from <= i < offset + to && Differs(v, i) && i / v.clusterSize == c
    {
      if c in clusters {
        var i :| 0 <= i < to - from && baseline[from..to][i] != payload[from..to][i] &&
          (offset + from + i) / v.clusterSize == c;
        assert Differs(v, offset + from + i);
      }
      if i :| offset + from <= i < offset + to && Differs(v, i) && i / v.clusterSize == c {
        var j := i - offset - from;
        assert baseline[from..to][j] != payload[from..to][j] && (offset + from + j) / v.clusterSize == c;
      }
    }
  }

  lemma BlocksSplit(lo: nat, mid: nat, hi: nat)
    requires lo <= mid <= hi && lo % BLOCK == 0 && mid % BLOCK == 0
    ensures BlocksBetween(lo, hi) == BlocksBetween(lo, mid) + BlocksBetween(mid, hi)
    ensures BlocksBetween(lo, mid) !! BlocksBetween(mid, hi)
  {
  }

  lemma OneBlock(start: nat, end: nat)
    requires start % BLOCK == 0 && start < end <= start + BLOCK
    ensures BlocksBetween(start, end) == {start / BLOCK}
  {
    forall k: nat ensures k in BlocksBetween(start, end) <==> k == start / BLOCK { }
  }

  lemma EqualBlockHasNoDifference(
    v: Pair, offset: nat, baseline: seq<nat>, payload: seq<nat>, from: nat, to: nat, i: nat)
    requires IsChunk(v, offset, baseline, payload) && from % BLOCK == 0 && from <= to <= |baseline|
    requires to % BLOCK == 0 || to == |baseline|
    requires forall j :: from <= j < to ==> baseline[j] == payload[j]
    requires i / BLOCK in BlocksBetween(offset + from, offset + to)
    ensures !Differs(v, i)
  {
    if i < |v.baseline| {
      InsideBlocks(offset, from, to, |baseline|, |v.baseline|, i);
      assert baseline[i - offset] == payload[i - offset];
    }
  }

  lemma InsideBlocks(offset: nat, from: nat, to: nat, length: nat, size: nat, i: nat)
    requires offset % BLOCK == 0 && to <= length && offset + length <= size
    requires length % BLOCK == 0 || offset + length == size
    requires (to % BLOCK == 0 || to == length) && i < size && offset + from <= i / BLOCK * BLOCK < offset + to
    ensures offset + from <= i < offset + to
  {
    assert i / BLOCK * BLOCK <= i < i / BLOCK * BLOCK + BLOCK;
    if to % BLOCK == 0 {
      AlignedSum(offset, to);
      MultipleIsAligned(i / BLOCK, BLOCK);
      if offset + to < i / BLOCK * BLOCK + BLOCK { AlignedOrder(offset + to, i / BLOCK * BLOCK, BLOCK); }
    }
  }

  lemma AlignedSum(a: nat, b: nat)
    requires a % BLOCK == 0 && b % BLOCK == 0
    ensures (a + b) % BLOCK == 0
  {
    BlockOfSum(a, b, b);
    MultipleIsAligned((a + b) / BLOCK, BLOCK);
  }

  /** Equal bytes from one boundary to the next add nothing. */
  lemma EqualBlocksHaveNoDifference(
    v: Pair, offset: nat, baseline: seq<nat>, payload: seq<nat>, from: nat, to: nat)
    requires IsChunk(v, offset, baseline, payload) && from % BLOCK == 0 && from <= to <= |baseline|
    requires to % BLOCK == 0 || to == |baseline|
    requires forall i :: from <= i < to ==> baseline[i] == payload[i]
    ensures Describes(v, BlocksBetween(offset + from, offset + to), NOTHING)
  {
    var blocks := BlocksBetween(offset + from, offset + to);
    forall i: nat | i / BLOCK in blocks ensures !Differs(v, i) {
      EqualBlockHasNoDifference(v, offset, baseline, payload, from, to, i);
    }
    EqualBlocksDescribeNothing(v, blocks);
  }

  lemma NothingMoreDescribed(v: Pair, lo: nat, mid: nat, hi: nat, o: Observation)
    requires v.clusterSize > 0 && lo <= mid <= hi && lo % BLOCK == 0 && mid % BLOCK == 0
    requires Describes(v, BlocksBetween(lo, mid), o) && Describes(v, BlocksBetween(mid, hi), NOTHING)
    ensures Describes(v, BlocksBetween(lo, hi), o)
  {
    BlocksSplit(lo, mid, hi);
    MergeDescribes(v, BlocksBetween(lo, mid), o, BlocksBetween(mid, hi), NOTHING, 0);
    MergeNothing(o, 0);
  }

  lemma SkipEqual(v: Pair, offset: nat, baseline: seq<nat>, payload: seq<nat>, o: Observation, from: nat, to: nat)
    requires IsChunk(v, offset, baseline, payload) && from % BLOCK == 0 && from <= to <= |baseline|
    requires to % BLOCK == 0 || to == |baseline|
    requires Describes(v, BlocksBetween(offset, offset + from), o)
    requires forall i :: from <= i < to ==> baseline[i] == payload[i]
    ensures Describes(v, BlocksBetween(offset, offset + to), o)
  {
    EqualBlocksHaveNoDifference(v, offset, baseline, payload, from, to);
    NothingMoreDescribed(v, offset, offset + from, offset + to, o);
  }

  lemma AddDescribed(v: Pair, offset: nat, from: nat, to: nat, o: Observation, x: Observation)
    requires v.clusterSize > 0 && offset % BLOCK == 0 && from % BLOCK == 0 && from < to <= from + BLOCK
    requires Describes(v, BlocksBetween(offset, offset + from), o) && Describes(v, {(offset + from) / BLOCK}, x)
    ensures Describes(v, BlocksBetween(offset, offset + to), Merge(o, 0, x))
  {
    BlocksPlusOne(offset, from, to);
    MergeDescribes(v, BlocksBetween(offset, offset + from), o, {(offset + from) / BLOCK}, x, 0);
  }

  lemma BlocksPlusOne(offset: nat, from: nat, to: nat)
    requires offset % BLOCK == 0 && from % BLOCK == 0 && from < to <= from + BLOCK
    ensures BlocksBetween(offset, offset + to) == BlocksBetween(offset, offset + from) + {(offset + from) / BLOCK}
    ensures BlocksBetween(offset, offset + from) !! {(offset + from) / BLOCK}
  {
    BlocksSplit(offset, offset + from, offset + to);
    OneBlock(offset + from, offset + to);
  }

  /**
   The skipping comparison of a chunk finds exactly what a byte-by-byte scan of
   its blocks would: counts of differing and uncovered bytes and blocks, the
   first uncovered difference, and the clusters that hold one.
   */
  method CompareVerificationChunk(
    baseline: seq<nat>, payload: seq<nat>, offset: nat, clusterSize: nat, map_: Option<set<nat>>, ghost v: Pair)
    returns (o: Observation)
    requires IsChunk(v, offset, baseline, payload) && v.clusterSize == clusterSize && v.map_ == map_
    ensures Describes(v, BlocksBetween(offset, offset + |baseline|), o)
  {
    o := NOTHING;
    EqualBlocksDescribeNothing(v, BlocksBetween(offset, offset));
    var relative := 0;
    ghost var seen := 0;
    while relative < |baseline|
      invariant relative % BLOCK == 0 && seen == if relative < |baseline| then relative else |baseline|
      invariant Describes(v, BlocksBetween(offset, offset + seen), o)
      invariant o.firstUncovered.Some? ==> o.firstUncovered.value.byteOffset < offset + relative
      decreases |baseline| - relative
    {
      var first := Mismatch(baseline, payload, relative);
      if first == |baseline| {
        SkipEqual(v, offset, baseline, payload, o, relative, first);
        break;
      }
      o, relative, seen := CompareAt(baseline, payload, offset, relative, first, clusterSize, map_, o, v);
    }
  }

  /** Where the block of `first` begins and ends, in a buffer of `length` bytes. */
  ghost predicate IsBlockOf(first: nat, length: nat, relative: nat, end: nat) {
    && relative % BLOCK == 0 && (relative + BLOCK) % BLOCK == 0 && relative <= first < end <= relative + BLOCK
    && end == if relative + BLOCK < length then relative + BLOCK else length
  }

  method FindBlock(first: nat, length: nat, ghost from: nat) returns (relative: nat, end: nat)
    requires from % BLOCK == 0 && from <= first < length
    ensures from <= relative && IsBlockOf(first, length, relative, end)
  {
    relative := first - first % BLOCK;
    MultipleIsAligned(first / BLOCK, BLOCK);
    MultipleIsAligned(first / BLOCK + 1, BLOCK);
    AlignedOrder(from, relative, BLOCK);
    end := if BLOCK < length - relative then relative + BLOCK else length;
  }

  /** The block of a difference, after the equal blocks before it. */
  method CompareAt(
    baseline: seq<nat>, payload: seq<nat>, offset: nat, from: nat, first: nat, clusterSize: nat, map_: Option<set<nat>>,
    o: Observation, ghost v: Pair) returns (result: Observation, next: nat, ghost seen: nat)
    requires IsChunk(v, offset, baseline, payload) && v.clusterSize == clusterSize && v.map_ == map_
    requires from % BLOCK == 0 && from <= first < |baseline| && baseline[first] != payload[first]
    requires forall i :: from <= i < first ==> baseline[i] == payload[i]
    requires Describes(v, BlocksBetween(offset, offset + from), o)
    requires o.firstUncovered.Some? ==> o.firstUncovered.value.byteOffset < offset + from
    ensures next % BLOCK == 0 && from < next && seen == if next < |baseline| then next else |baseline|
    ensures Describes(v, BlocksBetween(offset, offset + seen), result)
    ensures result.firstUncovered.Some? ==> result.firstUncovered.value.byteOffset < offset + next
  {
    var relative, end := FindBlock(first, |baseline|, from);
    SkipEqual(v, offset, baseline, payload, o, from, relative);
    ghost var x;
    result, x := ObserveBlock(baseline, payload, offset, relative, first, end, clusterSize, map_, o, v);
    AddDescribed(v, offset, relative, end, o, x);
    next, seen := relative + BLOCK, end;
  }

  // ----- The workers' ranges -----

  /** The first chunk of a worker's share. */
  function Share(chunks: nat, worker: nat): nat { chunks * worker / WORKERS }

  function RangeStart(size: nat, worker: nat): nat { Share(ChunkCount(size), worker) * CHUNK }

  function RangeEnd(size: nat, worker: nat): nat {
    var end := Share(ChunkCount(size), worker + 1) * CHUNK;
    if end < size then end else size
  }

  lemma SharesGrow(chunks: nat, worker: nat)
    requires worker < WORKERS
    ensures Share(chunks, 0) == 0 && Share(chunks, WORKERS) == chunks
    ensures Share(chunks, worker) <= Share(chunks, worker + 1) <= chunks
    ensures worker + 1 < WORKERS && chunks > 0 ==> Share(chunks, worker + 1) < chunks
  {
    if worker == 0 { } else if worker == 1 { } else if worker == 2 { } else { assert worker == 3; }
  }

  /** A whole number of chunks ends before the volume unless it is all of them. */
  lemma ChunksInVolume(size: nat, m: nat)
    ensures size <= ChunkCount(size) * CHUNK
    ensures m < ChunkCount(size) ==> m * CHUNK < size
  {
  }

  /** The ranges follow each other without gap or overlap, from the first byte to the last. */
  lemma RangesPartition(size: nat, worker: nat)
    requires worker < WORKERS
    ensures RangeStart(size, 0) == 0 && RangeEnd(size, WORKERS - 1) == size
    ensures RangeStart(size, worker) <= RangeEnd(size, worker) <= size && RangeStart(size, worker) % CHUNK == 0
    ensures worker + 1 < WORKERS ==> RangeEnd(size, worker) == RangeStart(size, worker + 1)
    ensures RangeEnd(size, worker) % CHUNK == 0 || RangeEnd(size, worker) == size
  {
    var n := ChunkCount(size);
    SharesGrow(n, worker);
    ChunksInVolume(size, Share(n, worker + 1));
    ShareEnds(size, worker);
    ShareEnds(size, WORKERS - 1);
    ProductOrder(Share(n, worker), Share(n, worker + 1), CHUNK);
    MultipleIsAligned(Share(n, worker), CHUNK);
    MultipleIsAligned(Share(n, worker + 1), CHUNK);
  }

  lemma ShareEnds(size: nat, worker: nat)
    requires worker < WORKERS
    ensures worker + 1 < WORKERS ==> RangeEnd(size, worker) == Share(ChunkCount(size), worker + 1) * CHUNK
    ensures worker + 1 == WORKERS ==> RangeEnd(size, worker) == size
    ensures RangeStart(size, worker) <= size
  {
    var n := ChunkCount(size);
    SharesGrow(n, worker);
    ChunksInVolume(size, Share(n, worker));
    ChunksInVolume(size, Share(n, worker + 1));
  }

  lemma {:induction false} RangesOrdered(size: nat, u: nat, w: nat)
    requires u < w < WORKERS
    ensures RangeEnd(size, u) <= RangeStart(size, w)
    decreases w
  {
    RangesPartition(size, w - 1);
    if u < w - 1 { RangesOrdered(size, u, w - 1); }
  }

  // ----- Any interleaving of the workers -----

  /** How far each worker's offset has got, whether it still runs, and what has been recorded. */
  datatype State = State(offsets: seq<nat>, running: seq<bool>, observation: Observation, failed: bool)

  function Initial(size: nat): State {
    State(seq(WORKERS, (w: nat) => RangeStart(size, w)), seq(WORKERS, _ => true), NOTHING, false)
  }

  /** A worker records a chunk, leaves (done, cancelled, or told of a failure), or fails. */
  datatype Step = Compare(worker: nat, found: Observation) | Leave(worker: nat) | Fail(worker: nat)

  function ChunkEnd(size: nat, worker: nat, offset: nat): nat {
    if offset + CHUNK < RangeEnd(size, worker) then offset + CHUNK else RangeEnd(size, worker)
  }

  ghost predicate Enabled(v: Pair, s: State, step: Step)
    requires v.clusterSize > 0
  {
    && step.worker < |s.offsets| && step.worker < |s.running| && s.running[step.worker]
    && (step.Compare? ==>
          var offset := s.offsets[step.worker];
          && offset < RangeEnd(|v.baseline|, step.worker)
          && Describes(v, BlocksBetween(offset, ChunkEnd(|v.baseline|, step.worker, offset)), step.found))
  }

  ghost function Apply(v: Pair, s: State, step: Step): State
    requires v.clusterSize > 0 && Enabled(v, s, step)
  {
    match step
    case Leave(w) => s.(running := s.running[w := false])
    case Fail(w) => s.(running := s.running[w := false], failed := true)
    case Compare(w, found) =>
      var offset := s.offsets[w];
      s.(offsets := s.offsets[w := offset + CHUNK],
         observation := Merge(s.observation, ChunkEnd(|v.baseline|, w, offset) - offset, found))
  }

  ghost function After(v: Pair, schedule: seq<Step>): State
    requires v.clusterSize > 0
    decreases |schedule|
  {
    if schedule == [] then Initial(|v.baseline|)
    else
      var before := After(v, schedule[..|schedule| - 1]);
      var step := schedule[|schedule| - 1];
      if Enabled(v, before, step) then Apply(v, before, step) else before
  }

  /** The chunk a worker reads is one that `CompareVerificationChunk` describes exactly. */
  lemma WorkerReadsChunks(v: Pair, worker: nat, offset: nat)
    requires WellFormed(v) && worker < WORKERS && offset % CHUNK == 0
    requires RangeStart(|v.baseline|, worker) <= offset < RangeEnd(|v.baseline|, worker)
    ensures var end := ChunkEnd(|v.baseline|, worker, offset);
            && offset < end <= |v.baseline|
            && IsChunk(v, offset, v.baseline[offset..end], v.payload[offset..end])
  {
    var end := ChunkEnd(|v.baseline|, worker, offset);
    ChunkBounds(|v.baseline|, worker, offset);
    SlicesAreChunk(v, offset, end);
  }

  lemma ChunkBounds(size: nat, worker: nat, offset: nat)
    requires worker < WORKERS && offset % CHUNK == 0 && offset < RangeEnd(size, worker)
    ensures var end := ChunkEnd(size, worker, offset);
            offset < end <= size && (end % BLOCK == 0 || end == size) && offset % BLOCK == 0
  {
    RangesPartition(size, worker);
    ChunkIsBlockAligned(offset);
    if RangeEnd(size, worker) % CHUNK == 0 { ChunkIsBlockAligned(RangeEnd(size, worker)); }
    ChunkIsBlockAligned(offset + CHUNK);
  }

  lemma SlicesAreChunk(v: Pair, offset: nat, end: nat)
    requires WellFormed(v) && offset <= end <= |v.baseline| && offset % BLOCK == 0
    requires end % BLOCK == 0 || end == |v.baseline|
    ensures IsChunk(v, offset, v.baseline[offset..end], v.payload[offset..end])
  {
  }

  /** The object the workers share. */
  class VerificationState {
    var observation: Observation

    constructor ()
      ensures observation == NOTHING
    {
      observation := NOTHING;
    }

    method Record(compared: nat, found: Observation)
      modifies this
      ensures observation == Merge(old(observation), compared, found)
    {
      var o := observation;
      o := o.(comparedBytes := o.comparedBytes + compared, differingBytes := o.differingBytes + found.differingBytes);
      o := o.(differingBlocks := o.differingBlocks + found.differingBlocks,
              uncoveredBytes := o.uncoveredBytes + found.uncoveredBytes);
      o := o.(uncoveredBlocks := o.uncoveredBlocks + found.uncoveredBlocks,
              uncoveredClusters := o.uncoveredClusters + found.uncoveredClusters);
      if found.firstUncovered.Some? &&
         (o.firstUncovered.None? || found.firstUncovered.value.byteOffset < o.firstUncovered.value.byteOffset) {
        o := o.(firstUncovered := found.firstUncovered);
      }
      observation := o;
    }
  }

  /** Where a worker's recorded part ends. */
  function Reached(size: nat, offset: nat, w: nat): nat {
    if offset < RangeEnd(size, w) then offset else RangeEnd(size, w)
  }

  function Starts(size: nat): (starts: seq<nat>)
    ensures |starts| == WORKERS && forall w :: 0 <= w < WORKERS ==> starts[w] == RangeStart(size, w)
  {
    seq(WORKERS, (w: nat) => RangeStart(size, w))
  }

  function Stops(size: nat, s: State): (stops: seq<nat>)
    requires |s.offsets| == WORKERS
    ensures |stops| == WORKERS && forall w :: 0 <= w < WORKERS ==> stops[w] == Reached(size, s.offsets[w], w)
  {
    seq(WORKERS, (w: nat) requires w < WORKERS => Reached(size, s.offsets[w], w))
  }

  /** The blocks of the first `n` parts. */
  ghost function Seen(starts: seq<nat>, stops: seq<nat>, n: nat): set<nat>
    requires n <= |starts| && n <= |stops|
  {
    if n == 0 then {} else Seen(starts, stops, n - 1) + BlocksBetween(starts[n - 1], stops[n - 1])
  }

  function SeenBytes(starts: seq<nat>, stops: seq<nat>, n: nat): int
    requires n <= |starts| && n <= |stops|
  {
    if n == 0 then 0 else SeenBytes(starts, stops, n - 1) + stops[n - 1] - starts[n - 1]
  }

  ghost predicate OnCourse(size: nat, s: State) {
    && |s.offsets| == WORKERS && |s.running| == WORKERS
    && forall w :: 0 <= w < WORKERS ==> s.offsets[w] % CHUNK == 0 && RangeStart(size, w) <= s.offsets[w]
  }

  /** The recorded observation is that of the parts read so far. */
  ghost predicate Recorded(v: Pair, o: Observation, starts: seq<nat>, stops: seq<nat>)
    requires v.clusterSize > 0 && |starts| == |stops|
  {
    Describes(v, Seen(starts, stops, |starts|), o) && o.comparedBytes == SeenBytes(starts, stops, |starts|)
  }

  /** What has been recorded is the naive observation of what the workers have read. */
  ghost predicate Faithful(v: Pair, s: State)
    requires v.clusterSize > 0
  {
    && OnCourse(|v.baseline|, s)
    && Recorded(v, s.observation, Starts(|v.baseline|), Stops(|v.baseline|, s))
  }

  // ----- What every schedule keeps -----

  lemma {:induction false} SeenFrame(starts: seq<nat>, stops: seq<nat>, stops': seq<nat>, n: nat)
    requires n <= |starts| && n <= |stops| && n <= |stops'| && stops[..n] == stops'[..n]
    ensures Seen(starts, stops', n) == Seen(starts, stops, n)
    ensures SeenBytes(starts, stops', n) == SeenBytes(starts, stops, n)
    decreases n
  {
    if n > 0 {
      assert stops[n - 1] == stops[..n][n - 1] == stops'[..n][n - 1] == stops'[n - 1];
      assert stops[..n - 1] == stops[..n][..n - 1] && stops'[..n - 1] == stops'[..n][..n - 1];
      SeenFrame(starts, stops, stops', n - 1);
    }
  }

  /** One worker's progress shows up as the blocks and bytes it passed. */
  lemma {:induction false} SeenAdvances(starts: seq<nat>, stops: seq<nat>, w: nat, stop: nat, n: nat)
    requires w < n <= |starts| == |stops| && starts[w] <= stops[w] <= stop && starts[w] % BLOCK == 0
    requires stops[w] % BLOCK == 0
    ensures Seen(starts, stops[w := stop], n) == Seen(starts, stops, n) + BlocksBetween(stops[w], stop)
    ensures SeenBytes(starts, stops[w := stop], n) == SeenBytes(starts, stops, n) + stop - stops[w]
    decreases n
  {
    if n - 1 == w {
      SeenFrame(starts, stops, stops[w := stop], n - 1);
      BlocksSplit(starts[w], stops[w], stop);
    } else {
      SeenAdvances(starts, stops, w, stop, n - 1);
    }
  }

  ghost predicate Apart(starts: seq<nat>, stops: seq<nat>, ends: seq<nat>, w: nat)
    requires |starts| == |stops| == |ends| && w < |starts|
  {
    forall u :: 0 <= u < |starts| && u != w ==> stops[u] <= starts[w] || ends[w] <= starts[u]
  }

  /** What the other workers have seen is elsewhere. */
  lemma {:induction false} SeenElsewhere(starts: seq<nat>, stops: seq<nat>, ends: seq<nat>, w: nat, stop: nat, n: nat)
    requires n <= |starts| == |stops| == |ends| && w < |starts| && Apart(starts, stops, ends, w)
    requires starts[w] <= stops[w] <= stop <= ends[w]
    ensures Seen(starts, stops, n) !! BlocksBetween(stops[w], stop)
    decreases n
  {
    if n > 0 { SeenElsewhere(starts, stops, ends, w, stop, n - 1); }
  }

  function Ends(size: nat): (ends: seq<nat>)
    ensures |ends| == WORKERS && forall w :: 0 <= w < WORKERS ==> ends[w] == RangeEnd(size, w)
  {
    seq(WORKERS, (w: nat) => RangeEnd(size, w))
  }

  lemma WorkersAreApart(size: nat, s: State, w: nat)
    requires OnCourse(size, s) && w < WORKERS
    ensures Apart(Starts(size), Stops(size, s), Ends(size), w)
  {
    forall u | 0 <= u < WORKERS && u != w
      ensures Stops(size, s)[u] <= RangeStart(size, w) || RangeEnd(size, w) <= RangeStart(size, u)
    {
      if u < w { RangesOrdered(size, u, w); } else { RangesOrdered(size, w, u); }
    }
  }

  lemma StopsAfterCompare(size: nat, s: State, s': State, w: nat)
    requires OnCourse(size, s) && w < WORKERS && s'.offsets == s.offsets[w := s.offsets[w] + CHUNK]
    requires s.offsets[w] < RangeEnd(size, w)
    ensures |s'.offsets| == WORKERS && Stops(size, s') == Stops(size, s)[w := ChunkEnd(size, w, s.offsets[w])]
  {
  }

  ghost predicate Ready(starts: seq<nat>, stops: seq<nat>, ends: seq<nat>, w: nat, stop: nat) {
    && |starts| == |stops| == |ends| && w < |starts| && Apart(starts, stops, ends, w)
    && starts[w] <= stops[w] <= stop <= ends[w] && starts[w] % BLOCK == 0 && stops[w] % BLOCK == 0
  }

  /** Recording what was found between a worker's old and new stop. */
  lemma ProgressIsRecorded(
    v: Pair, starts: seq<nat>, stops: seq<nat>, ends: seq<nat>, w: nat, stop: nat, o: Observation, found: Observation)
    requires v.clusterSize > 0 && Ready(starts, stops, ends, w, stop)
    requires Recorded(v, o, starts, stops) && Describes(v, BlocksBetween(stops[w], stop), found)
    ensures Recorded(v, Merge(o, stop - stops[w], found), starts, stops[w := stop])
  {
    SeenAdvances(starts, stops, w, stop, |starts|);
    SeenElsewhere(starts, stops, ends, w, stop, |starts|);
    MergeDescribes(v, Seen(starts, stops, |starts|), o, BlocksBetween(stops[w], stop), found, stop - stops[w]);
  }

  lemma ChunkIsBlockAligned(x: nat)
    requires x % CHUNK == 0
    ensures x % BLOCK == 0
  {
  }

  lemma StopIsInside(size: nat, offset: nat, w: nat)
    requires w < WORKERS && RangeStart(size, w) <= offset < RangeEnd(size, w) && offset % CHUNK == 0
    ensures RangeStart(size, w) % BLOCK == 0 && offset % BLOCK == 0 && Reached(size, offset, w) == offset
    ensures offset <= ChunkEnd(size, w, offset) <= RangeEnd(size, w)
  {
    RangesPartition(size, w);
    ChunkIsBlockAligned(RangeStart(size, w));
    ChunkIsBlockAligned(offset);
  }

  lemma CompareReady(size: nat, s: State, w: nat)
    requires OnCourse(size, s) && w < WORKERS && s.offsets[w] < RangeEnd(size, w)
    ensures Ready(Starts(size), Stops(size, s), Ends(size), w, ChunkEnd(size, w, s.offsets[w]))
    ensures Stops(size, s)[w] == s.offsets[w]
  {
    StopIsInside(size, s.offsets[w], w);
    WorkersAreApart(size, s, w);
  }

  lemma StaysOnCourse(size: nat, s: State, s': State, w: nat)
    requires OnCourse(size, s) && w < WORKERS && s'.offsets == s.offsets[w := s.offsets[w] + CHUNK]
    requires s'.running == s.running
    ensures OnCourse(size, s')
  {
  }

  lemma CompareKeepsFaithful(v: Pair, s: State, step: Step)
    requires v.clusterSize > 0 && Faithful(v, s) && step.Compare? && Enabled(v, s, step)
    ensures Faithful(v, Apply(v, s, step))
  {
    var w, size := step.worker, |v.baseline|;
    CompareReady(size, s, w);
    ProgressIsRecorded(v, Starts(size), Stops(size, s), Ends(size), w, ChunkEnd(size, w, s.offsets[w]), s.observation,
      step.found);
    StopsAfterCompare(size, s, Apply(v, s, step), w);
    StaysOnCourse(size, s, Apply(v, s, step), w);
  }

  lemma {:induction false} NothingSeen(starts: seq<nat>, n: nat)
    requires n <= |starts|
    ensures Seen(starts, starts, n) == {} && SeenBytes(starts, starts, n) == 0
  {
    if n > 0 { NothingSeen(starts, n - 1); }
  }

  lemma InitiallyFaithful(v: Pair)
    requires v.clusterSize > 0
    ensures Faithful(v, Initial(|v.baseline|))
  {
    var size := |v.baseline|;
    forall w | 0 <= w < WORKERS
      ensures Reached(size, RangeStart(size, w), w) == RangeStart(size, w) && RangeStart(size, w) % CHUNK == 0
    {
      RangesPartition(size, w);
    }
    assert Stops(size, Initial(size)) == Starts(size);
    NothingSeen(Starts(size), WORKERS);
    EqualBlocksDescribeNothing(v, {});
  }

  lemma {:induction false} EveryScheduleIsFaithful(v: Pair, schedule: seq<Step>)
    requires v.clusterSize > 0
    ensures Faithful(v, After(v, schedule))
    decreases |schedule|
  {
    if schedule == [] { InitiallyFaithful(v); }
    else {
      EveryScheduleIsFaithful(v, schedule[..|schedule| - 1]);
      var before := After(v, schedule[..|schedule| - 1]);
      var step := schedule[|schedule| - 1];
      if Enabled(v, before, step) {
        if step.Compare? { CompareKeepsFaithful(v, before, step); }
        else { assert Stops(|v.baseline|, Apply(v, before, step)) == Stops(|v.baseline|, before); }
      }
    }
  }

  // ----- Completion -----

  predicate Complete(size: nat, s: State) { !s.failed && s.observation.comparedBytes == size }

  ghost predicate Consecutive(starts: seq<nat>, ends: seq<nat>) {
    && |starts| == |ends| && (|starts| > 0 ==> starts[0] == 0)
    && (forall w :: 0 <= w < |starts| ==> starts[w] % BLOCK == 0 && starts[w] <= ends[w])
    && (forall w :: 0 <= w < |starts| - 1 ==> ends[w] == starts[w + 1])
  }

  /** The bytes seen are all bytes exactly when every part has been read to its end. */
  lemma {:induction false} AllSeen(starts: seq<nat>, stops: seq<nat>, ends: seq<nat>, n: nat)
    requires Consecutive(starts, ends) && |stops| == |starts| && 0 < n <= |starts|
    requires forall w :: 0 <= w < |starts| ==> stops[w] <= ends[w]
    ensures SeenBytes(starts, stops, n) <= ends[n - 1]
    ensures SeenBytes(starts, stops, n) == ends[n - 1] ==> Seen(starts, stops, n) == BlocksBetween(0, ends[n - 1])
    decreases n
  {
    if n > 1 {
      AllSeen(starts, stops, ends, n - 1);
      assert ends[n - 2] == starts[n - 1];
      BlocksSplit(0, starts[n - 1], ends[n - 1]);
    } else {
      assert Seen(starts, stops, 0) == {} && SeenBytes(starts, stops, 0) == 0;
    }
  }

  lemma RangesAreConsecutive(size: nat)
    ensures Consecutive(Starts(size), Ends(size)) && Ends(size)[WORKERS - 1] == size
  {
    forall w | 0 <= w < WORKERS
      ensures RangeStart(size, w) % BLOCK == 0 && RangeStart(size, w) <= RangeEnd(size, w)
      ensures w + 1 < WORKERS ==> RangeEnd(size, w) == RangeStart(size, w + 1)
    {
      RangesPartition(size, w);
      ChunkIsBlockAligned(RangeStart(size, w));
    }
    RangesPartition(size, 0);
  }

  /**
   However the four workers interleave, a complete comparison has recorded what
   one byte-by-byte scan of the whole volume would find.
   */
  lemma CompleteEqualsNaiveScan(v: Pair, schedule: seq<Step>)
    requires v.clusterSize > 0 && Complete(|v.baseline|, After(v, schedule))
    ensures Describes(v, BlocksBetween(0, |v.baseline|), After(v, schedule).observation)
  {
    EveryScheduleIsFaithful(v, schedule);
    RangesAreConsecutive(|v.baseline|);
    AllSeen(Starts(|v.baseline|), Stops(|v.baseline|, After(v, schedule)), Ends(|v.baseline|), WORKERS);
  }

  datatype Outcome = CoverageFailure | Verified | Inconclusive

  /** How `AddVerificationResult` counts a volume. */
  function OutcomeOf(o: Observation, complete: bool, coverageAvailable: bool): Outcome {
    if o.uncoveredBlocks != 0 then CoverageFailure else if complete && coverageAvailable then Verified else Inconclusive
  }

  /** The baseline with the dirty blocks of the payload written over it. */
  function Overlay(v: Pair): (s: seq<nat>)
    requires |v.baseline| == |v.payload| && v.map_.Some?
    ensures |s| == |v.baseline|
  {
    seq(|v.baseline|, (i: nat) requires i < |v.baseline| => if i / BLOCK * BLOCK in v.map_.value then v.payload[i]
      else v.baseline[i])
  }

  lemma NoUncoveredMeansOverlay(v: Pair)
    requires WellFormed(v) && v.map_.Some?
    ensures UncoveredBlocks(v, BlocksBetween(0, |v.baseline|)) == {} <==> Overlay(v) == v.payload
  {
    var blocks := UncoveredBlocks(v, BlocksBetween(0, |v.baseline|));
    if blocks == {} {
      forall i: nat | i < |v.baseline| ensures Overlay(v)[i] == v.payload[i] {
        assert i / BLOCK in BlocksBetween(0, |v.baseline|);
        if Differs(v, i) { assert i / BLOCK !in blocks; }
      }
      assert Overlay(v) == v.payload;
    }
    if k :| k in blocks { UncoveredBlockShows(v, k); }
  }

  lemma UncoveredBlockShows(v: Pair, k: nat)
    requires WellFormed(v) && v.map_.Some? && BlockDiffers(v, k) && Uncovered(v, k)
    ensures Overlay(v) != v.payload
  {
    var i: nat :| i / BLOCK == k && Differs(v, i);
    assert Overlay(v)[i] != v.payload[i];
  }

  // ----- What a comparison may say, complete or not -----

  /** A worker has read the byte, and has recorded what it saw. */
  ghost predicate ByteRead(size: nat, s: State, i: nat)
    requires |s.offsets| == WORKERS
  {
    exists w: nat :: w < WORKERS && RangeStart(size, w) <= i < Reached(size, s.offsets[w], w)
  }

  /** A worker that was told to go on has failed instead. */
  ghost predicate SomeStepFailed(v: Pair, schedule: seq<Step>)
    requires v.clusterSize > 0
  {
    exists k: nat :: k < |schedule| && StepFailed(v, schedule, k)
  }

  /** A failure is never forgotten, and nothing else counts as one. */
  lemma {:induction false} FailedIff(v: Pair, schedule: seq<Step>)
    requires v.clusterSize > 0
    ensures After(v, schedule).failed <==> SomeStepFailed(v, schedule)
    decreases |schedule|
  {
    if schedule != [] {
      var n := |schedule| - 1;
      FailedIff(v, schedule[..n]);
      FailedOneMore(v, schedule);
      SomeStepFailedOneMore(v, schedule);
    }
  }

  ghost predicate StepFailed(v: Pair, schedule: seq<Step>, k: nat)
    requires v.clusterSize > 0 && k < |schedule|
  {
    schedule[k].Fail? && Enabled(v, After(v, schedule[..k]), schedule[k])
  }

  lemma {:induction false} FailedOneMore(v: Pair, schedule: seq<Step>)
    requires v.clusterSize > 0 && schedule != []
    ensures var n := |schedule| - 1;
            After(v, schedule).failed <==> After(v, schedule[..n]).failed || StepFailed(v, schedule, n)
  {
  }

  lemma {:induction false} SomeStepFailedOneMore(v: Pair, schedule: seq<Step>)
    requires v.clusterSize > 0 && schedule != []
    ensures var n := |schedule| - 1;
            SomeStepFailed(v, schedule) <==> SomeStepFailed(v, schedule[..n]) || StepFailed(v, schedule, n)
  {
    var n := |schedule| - 1;
    var earlier := schedule[..n];
    forall k: nat | k < n ensures StepFailed(v, earlier, k) <==> StepFailed(v, schedule, k) {
      assert schedule[k] == earlier[k] && schedule[..k] == earlier[..k];
    }
    if SomeStepFailed(v, earlier) {
      var k: nat :| k < |earlier| && StepFailed(v, earlier, k);
      assert StepFailed(v, schedule, k);
    }
  }

  /** The blocks of an aligned part are those of its bytes. */
  lemma ByteOfPart(lo: nat, hi: nat, size: nat, i: nat)
    requires lo % BLOCK == 0 && (hi % BLOCK == 0 || hi == size) && i < size
    ensures i / BLOCK in BlocksBetween(lo, hi) <==> lo <= i < hi
  {
    var k := i / BLOCK;
    QuotientRange(i, k, BLOCK);
    if lo <= i { BoundaryIsCrossed(i, BLOCK, lo / BLOCK); QuotientOfMultiple(lo, BLOCK); }
    if hi % BLOCK == 0 {
      QuotientOfMultiple(hi, BLOCK);
      BoundaryIsCrossed(i, BLOCK, hi / BLOCK);
      ProductOrder(hi / BLOCK, k, BLOCK);
    }
  }

  ghost predicate InSomePart(starts: seq<nat>, stops: seq<nat>, n: nat, i: nat)
    requires n <= |starts| && n <= |stops|
  {
    exists w :: 0 <= w < n && starts[w] <= i < stops[w]
  }

  lemma {:induction false} ByteOfSeen(starts: seq<nat>, stops: seq<nat>, size: nat, n: nat, i: nat)
    requires n <= |starts| == |stops| && i < size
    requires forall w :: 0 <= w < n ==> starts[w] % BLOCK == 0 && (stops[w] % BLOCK == 0 || stops[w] == size)
    ensures i / BLOCK in Seen(starts, stops, n) <==> InSomePart(starts, stops, n, i)
    decreases n
  {
    if n > 0 {
      ByteOfSeen(starts, stops, size, n - 1, i);
      ByteOfPart(starts[n - 1], stops[n - 1], size, i);
    }
  }

  lemma StopIsAligned(size: nat, offset: nat, w: nat)
    requires w < WORKERS && RangeStart(size, w) <= offset && offset % CHUNK == 0
    ensures RangeStart(size, w) % BLOCK == 0 && RangeStart(size, w) <= Reached(size, offset, w) <= RangeEnd(size, w)
    ensures Reached(size, offset, w) % BLOCK == 0 || Reached(size, offset, w) == size
  {
    RangesPartition(size, w);
    ChunkIsBlockAligned(RangeStart(size, w));
    ChunkIsBlockAligned(offset);
    if RangeEnd(size, w) % CHUNK == 0 { ChunkIsBlockAligned(RangeEnd(size, w)); }
  }

  /** The blocks recorded are those of the bytes read. */
  lemma SeenIsRead(size: nat, s: State, i: nat)
    requires OnCourse(size, s) && i < size
    ensures i / BLOCK in Seen(Starts(size), Stops(size, s), WORKERS) <==> ByteRead(size, s, i)
  {
    forall w | 0 <= w < WORKERS
      ensures Starts(size)[w] % BLOCK == 0 && (Stops(size, s)[w] % BLOCK == 0 || Stops(size, s)[w] == size)
    {
      StopIsAligned(size, s.offsets[w], w);
    }
    ByteOfSeen(Starts(size), Stops(size, s), size, WORKERS, i);
  }

  /** A coverage failure is a difference that was read and lies outside the dirty map. */
  lemma UncoveredIff(v: Pair, s: State)
    requires WellFormed(v) && Faithful(v, s)
    ensures s.observation.uncoveredBlocks != 0 <==>
            exists i: nat :: i < |v.baseline| && ByteRead(|v.baseline|, s, i) && v.baseline[i] != v.payload[i]
                             && v.map_.Some? && i / BLOCK * BLOCK !in v.map_.value
  {
    var size := |v.baseline|;
    var seen := Seen(Starts(size), Stops(size, s), WORKERS);
    var blocks := UncoveredBlocks(v, seen);
    assert |blocks| != 0 <==> blocks != {};
    if k :| k in blocks {
      var i: nat :| i / BLOCK == k && Differs(v, i);
      SeenIsRead(size, s, i);
    }
    if i: nat :| i < size && ByteRead(size, s, i) && v.baseline[i] != v.payload[i]
                 && v.map_.Some? && i / BLOCK * BLOCK !in v.map_.value
    {
      SeenIsRead(size, s, i);
      assert Differs(v, i);
      assert i / BLOCK in blocks;
    }
  }

  /** When every byte has been read, every worker has come to the end of its range. */
  lemma AllReadMeansAtEnd(size: nat, s: State, w: nat)
    requires OnCourse(size, s) && w < WORKERS && forall i: nat :: i < size ==> ByteRead(size, s, i)
    ensures Reached(size, s.offsets[w], w) == RangeEnd(size, w)
  {
    RangesPartition(size, w);
    if Reached(size, s.offsets[w], w) < RangeEnd(size, w) {
      var i: nat := RangeEnd(size, w) - 1;
      assert ByteRead(size, s, i);
      var u: nat :| u < WORKERS && RangeStart(size, u) <= i < Reached(size, s.offsets[u], u);
      if u < w { RangesOrdered(size, u, w); } else if w < u { RangesOrdered(size, w, u); }
    }
  }

  lemma {:induction false} SeenToTheEnd(starts: seq<nat>, ends: seq<nat>, n: nat)
    requires Consecutive(starts, ends) && 0 < n <= |starts|
    ensures SeenBytes(starts, ends, n) == ends[n - 1]
  {
    if n > 1 { SeenToTheEnd(starts, ends, n - 1); }
    else { assert SeenBytes(starts, ends, 0) == 0; }
  }

  /** The byte count tells exactly whether everything was read. */
  lemma CompleteIff(v: Pair, schedule: seq<Step>)
    requires v.clusterSize > 0
    ensures |After(v, schedule).offsets| == WORKERS
    ensures Complete(|v.baseline|, After(v, schedule)) <==>
            && !SomeStepFailed(v, schedule)
            && forall i: nat :: i < |v.baseline| ==> ByteRead(|v.baseline|, After(v, schedule), i)
  {
    var size, s := |v.baseline|, After(v, schedule);
    EveryScheduleIsFaithful(v, schedule);
    FailedIff(v, schedule);
    RangesAreConsecutive(size);
    if s.observation.comparedBytes == size {
      AllSeen(Starts(size), Stops(size, s), Ends(size), WORKERS);
      forall i: nat | i < size ensures ByteRead(size, s, i) {
        ByteOfPart(0, size, size, i);
        SeenIsRead(size, s, i);
      }
    }
    if forall i: nat :: i < size ==> ByteRead(size, s, i) {
      forall w: nat | w < WORKERS ensures Stops(size, s)[w] == Ends(size)[w] { AllReadMeansAtEnd(size, s, w); }
      assert Stops(size, s) == Ends(size);
      SeenToTheEnd(Starts(size), Ends(size), WORKERS);
    }
  }

  /**
   Whatever the schedule, and with or without a dirty map: a volume counts as a coverage
   failure exactly when a byte that was read differs outside the map, and as verified exactly
   when no worker failed, every byte was read, and overlaying the dirty blocks on the baseline
   gives the payload. Otherwise it counts as neither.
   */
  lemma OutcomeIff(v: Pair, schedule: seq<Step>)
    requires WellFormed(v)
    ensures |After(v, schedule).offsets| == WORKERS
    ensures var s := After(v, schedule);
            var outcome := OutcomeOf(s.observation, Complete(|v.baseline|, s), v.map_.Some?);
            && (outcome == CoverageFailure <==>
                  exists i: nat :: i < |v.baseline| && ByteRead(|v.baseline|, s, i) && v.baseline[i] != v.payload[i]
                                   && v.map_.Some? && i / BLOCK * BLOCK !in v.map_.value)
            && (outcome == Verified <==>
                  && !SomeStepFailed(v, schedule)
                  && (forall i: nat :: i < |v.baseline| ==> ByteRead(|v.baseline|, s, i))
                  && v.map_.Some? && Overlay(v) == v.payload)
  {
    EveryScheduleIsFaithful(v, schedule);
    UncoveredIff(v, After(v, schedule));
    CompleteIff(v, schedule);
    if v.map_.Some? && Complete(|v.baseline|, After(v, schedule)) {
      CompleteEqualsNaiveScan(v, schedule);
      NoUncoveredMeansOverlay(v);
      var blocks := UncoveredBlocks(v, BlocksBetween(0, |v.baseline|));
      assert |blocks| == 0 <==> blocks == {};
    }
  }
}
