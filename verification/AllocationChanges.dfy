/**
 `ReadAllocationChangeBlocks`: which blocks of a volume hold a cluster whose
 allocation bit differs between two snapshots.
 */
module AllocationChanges {
  import opened Arithmetic
  import opened Common
  import opened BitmapSets
  import opened Bits

  /** A volume bitmap: one bit a cluster, from the low bit of each byte. */
  datatype AllocationBitmap = AllocationBitmap(clusterSize: nat, clusterCount: nat, data: seq<nat>)

  function ByteCount(clusterCount: nat): nat { clusterCount / 8 + if clusterCount % 8 != 0 then 1 else 0 }

  /** The invariant of a loaded bitmap. */
  ghost predicate Initialized(b: AllocationBitmap) {
    && b.clusterSize > 0 && |b.data| == ByteCount(b.clusterCount)
    && AreBytes(b.data)
  }

  datatype Snapshot = Snapshot(length: nat, bitmap: AllocationBitmap)

  datatype Result<T> = Ok(value: T) | VolumeSizesDiffer | ClustersDiffer

  /** A little-endian, zero-extended load. */
  function LoadWord(bytes: seq<nat>): nat {
    if bytes == [] then 0 else bytes[0] + 256 * LoadWord(bytes[1..])
  }

  /** Bit `i` of the word is bit `i % 8` of byte `i / 8`, and zero beyond the bytes. */
  lemma {:induction false} LoadWordBit(bytes: seq<nat>, i: nat)
    requires AreBytes(bytes)
    ensures Bit(LoadWord(bytes), i) <==> i / 8 < |bytes| && Bit(bytes[i / 8], i % 8)
    decreases |bytes|
  {
    if bytes == [] { ZeroHasNoBits(i); }
    else {
      ByteIsLow(bytes[0], LoadWord(bytes[1..]), i);
      if i >= 8 {
        LoadWordBit(bytes[1..], i - 8);
        assert (i - 8) / 8 == i / 8 - 1 && (i - 8) % 8 == i % 8;
      }
    }
  }

  lemma EightMore(n: nat)
    ensures Pow2(n + 8) == 256 * Pow2(n)
  {
    assert Pow2(n + 4) == 2 * Pow2(n + 3) && Pow2(n + 3) == 2 * Pow2(n + 2) && Pow2(n + 2) == 2 * Pow2(n + 1);
    assert Pow2(n + 8) == 2 * Pow2(n + 7) && Pow2(n + 7) == 2 * Pow2(n + 6) && Pow2(n + 6) == 2 * Pow2(n + 5);
  }

  lemma {:induction false} LoadWordBound(bytes: seq<nat>, n: nat)
    requires AreBytes(bytes) && |bytes| <= n
    ensures LoadWord(bytes) < Pow2(8 * n)
    decreases n
  {
    if bytes != [] {
      LoadWordBound(bytes[1..], n - 1);
      EightMore(8 * n - 8);
    }
  }

  // ----- Blocks and clusters -----

  /** Block `x` and cluster `c` share a byte. */
  ghost predicate Touches(x: nat, c: nat, clusterSize: nat, blockSize: nat) {
    x < (c + 1) * clusterSize && c * clusterSize < x + blockSize
  }

  function FirstBlock(start: nat, blockSize: nat): nat
    requires blockSize > 0
  {
    start / blockSize * blockSize
  }

  function PastLastBlock(end: nat, blockSize: nat): nat
    requires blockSize > 0 && end > 0
  {
    ((end - 1) / blockSize + 1) * blockSize
  }

  lemma BlockBounds(start: nat, end: nat, b: nat)
    requires b > 0 && start < end
    ensures FirstBlock(start, b) % b == 0 && PastLastBlock(end, b) % b == 0
    ensures FirstBlock(start, b) <= start < FirstBlock(start, b) + b
    ensures end <= PastLastBlock(end, b) < end + b
  {
    Floor(start, b);
    Floor(end - 1, b);
    MultipleIsAligned((end - 1) / b + 1, b);
    assert ((end - 1) / b + 1) * b == (end - 1) / b * b + b;
  }

  lemma Floor(x: nat, b: nat)
    requires b > 0
    ensures x / b * b <= x < x / b * b + b && x / b * b % b == 0
  {
    MultipleIsAligned(x / b, b);
    assert x == x / b * b + x % b;
  }

  /** The cluster that holds byte `y`. */
  lemma HoldingCluster(y: nat, size: nat) returns (c: nat)
    requires size > 0
    ensures c * size <= y < (c + 1) * size
  {
    c := y / size;
    assert y == c * size + y % size;
    assert (c + 1) * size == c * size + size;
  }

  lemma BlockInRangeTouches(first: nat, limit: nat, clusterSize: nat, blockSize: nat, x: nat) returns (c: nat)
    requires clusterSize > 0 && blockSize > 0 && first * clusterSize < limit * clusterSize
    requires first * clusterSize < x + blockSize && x < limit * clusterSize
    ensures first <= c < limit && Touches(x, c, clusterSize, blockSize)
  {
    var start := first * clusterSize;
    c := HoldingCluster(if x < start then start else x, clusterSize);
    ProductOrder(first, c + 1, clusterSize);
    ProductOrder(c, limit, clusterSize);
  }

  /** Rounded outward to blocks, a cluster range holds exactly the blocks that touch one of its clusters. */
  lemma RangeBlocksTouch(first: nat, limit: nat, clusterSize: nat, blockSize: nat, x: nat)
    requires clusterSize > 0 && blockSize > 0 && first < limit && limit * clusterSize > 0 && x % blockSize == 0
    ensures FirstBlock(first * clusterSize, blockSize) <= x < PastLastBlock(limit * clusterSize, blockSize) <==>
            TouchesOne(x, first, limit, clusterSize, blockSize)
  {
    var start, end := first * clusterSize, limit * clusterSize;
    assert start < end by { ProductOrder(first + 1, limit, clusterSize); }
    BlockBounds(start, end, blockSize);
    var from, past := FirstBlock(start, blockSize), PastLastBlock(end, blockSize);
    RoundingKeepsOverlap(start, end, from, past, blockSize, x);
    OverlapIsTouch(first, limit, clusterSize, blockSize, x);
  }

  ghost predicate TouchesOne(x: nat, first: nat, limit: nat, clusterSize: nat, blockSize: nat) {
    exists c: nat :: first <= c < limit && Touches(x, c, clusterSize, blockSize)
  }

  lemma OverlapIsTouch(first: nat, limit: nat, clusterSize: nat, blockSize: nat, x: nat)
    requires clusterSize > 0 && blockSize > 0 && first * clusterSize < limit * clusterSize
    ensures first * clusterSize < x + blockSize && x < limit * clusterSize <==>
            TouchesOne(x, first, limit, clusterSize, blockSize)
  {
    if first * clusterSize < x + blockSize && x < limit * clusterSize {
      var c := BlockInRangeTouches(first, limit, clusterSize, blockSize, x);
    }
    if c: nat :| first <= c < limit && Touches(x, c, clusterSize, blockSize) {
      ProductOrder(first, c, clusterSize);
      ProductOrder(c + 1, limit, clusterSize);
    }
  }

  lemma RoundingKeepsOverlap(start: nat, end: nat, from: nat, past: nat, b: nat, x: nat)
    requires b > 0 && x % b == 0 && from % b == 0 && past % b == 0
    requires from <= start < from + b && end <= past < end + b
    ensures from <= x < past <==> start < x + b && x < end
  {
    if from < x + b { AlignedOrder(from, x, b); }
    if past < x + b { AlignedOrder(past, x, b); }
  }

  // ----- Collecting ranges -----

  /** The block set under construction, and the one range not yet inserted into it. */
  class BlockCollector {
    const clusterSize: nat
    const blockSize: nat
    const blocks: BitmapSet
    var rangeFirst: nat
    var rangeLimit: nat

    /** Every range so far came from clusters below `upto`. */
    ghost predicate Valid(upto: nat)
      reads this, blocks
    {
      && clusterSize > 0 && blocks.Valid() && blocks.blockSize == blockSize
      && rangeFirst <= rangeLimit && rangeFirst % blockSize == 0 && rangeLimit % blockSize == 0
      && rangeFirst <= upto * clusterSize
      && (rangeLimit == 0 || rangeLimit < upto * clusterSize + blockSize)
    }

    ghost function Contents(): set<nat>
      requires blockSize > 0
      reads this, blocks
    {
      blocks.Contents() + BlockStarts(rangeFirst, rangeLimit, blockSize)
    }

    constructor (clusterSize: nat, blockSize: nat)
      requires clusterSize > 0 && blockSize > 1
      ensures Valid(0) && Contents() == {} && fresh(blocks) && this.clusterSize == clusterSize
      ensures this.blockSize == blockSize
    {
      this.clusterSize, this.blockSize := clusterSize, blockSize;
      blocks := new BitmapSet(blockSize);
      rangeFirst, rangeLimit := 0, 0;
    }

    /** Adjacent and overlapping ranges are merged, and nothing is lost by it. */
    method AddClusterRange(first: nat, limit: nat, ghost upto: nat)
      requires Valid(upto) && upto <= first < limit
      modifies this, blocks
      ensures Valid(limit)
      ensures limit * clusterSize > 0
      ensures Contents() == old(Contents()) + RoundedRange(first, limit, clusterSize, blockSize)
    {
      var start, end := first * clusterSize, limit * clusterSize;
      ProductOrder(first + 1, limit, clusterSize);
      ProductOrder(upto, first, clusterSize);
      BlockBounds(start, end, blockSize);
      var from, past := FirstBlock(start, blockSize), PastLastBlock(end, blockSize);
      AlignedOrder(rangeFirst, from, blockSize);
      AlignedOrder(rangeLimit, past, blockSize);
      RangesCoalesce(rangeFirst, rangeLimit, from, past, blockSize);
      if from > rangeLimit {
        blocks.InsertRange(rangeFirst, rangeLimit);
        rangeFirst := from;
      }
      rangeLimit := past;
    }

    method Finish()
      requires blocks.Valid() && blocks.blockSize == blockSize
      requires rangeFirst <= rangeLimit && rangeFirst % blockSize == 0 && rangeLimit % blockSize == 0
      modifies blocks
      ensures blocks.Valid() && blocks.Contents() == old(Contents())
    {
      blocks.InsertRange(rangeFirst, rangeLimit);
    }
  }

  /** A cluster range, rounded outward to blocks. */
  ghost function RoundedRange(first: nat, limit: nat, clusterSize: nat, blockSize: nat): set<nat>
    requires blockSize > 0 && limit * clusterSize > 0
  {
    BlockStarts(FirstBlock(first * clusterSize, blockSize), PastLastBlock(limit * clusterSize, blockSize), blockSize)
  }

  /** A range that begins inside or right behind another extends it. */
  lemma RangesCoalesce(first: nat, limit: nat, from: nat, past: nat, blockSize: nat)
    requires blockSize > 0 && first <= limit && first <= from && limit <= past
    ensures from <= limit ==>
            BlockStarts(first, past, blockSize) == BlockStarts(first, limit, blockSize)
              + BlockStarts(from, past, blockSize)
  {
  }

  // ----- The scan -----

  ghost predicate TouchesChange(x: nat, changes: nat -> bool, upto: nat, clusterSize: nat, blockSize: nat) {
    exists c: nat :: c < upto && changes(c) && Touches(x, c, clusterSize, blockSize)
  }

  /** The set holds exactly the blocks that touch a changed cluster below `upto`. */
  ghost predicate Exact(blocks: set<nat>, changes: nat -> bool, upto: nat, clusterSize: nat, blockSize: nat)
    requires blockSize > 0
  {
    forall x: nat :: x in blocks <==> x % blockSize == 0 && TouchesChange(x, changes, upto, clusterSize, blockSize)
  }

  lemma ExactSkips(blocks: set<nat>, changes: nat -> bool, upto: nat, further: nat, clusterSize: nat, blockSize: nat)
    requires blockSize > 0 && upto <= further && Exact(blocks, changes, upto, clusterSize, blockSize)
    requires forall c: nat :: upto <= c < further ==> !changes(c)
    ensures Exact(blocks, changes, further, clusterSize, blockSize)
  {
    forall x: nat
      ensures TouchesChange(x, changes, upto, clusterSize, blockSize) <==>
              TouchesChange(x, changes, further, clusterSize, blockSize)
    {
    }
  }

  lemma ExactGrows(
    blocks: set<nat>, changes: nat -> bool, first: nat, limit: nat, clusterSize: nat, blockSize: nat, grown: set<nat>)
    requires clusterSize > 0 && blockSize > 0 && first < limit && limit * clusterSize > 0
    requires Exact(blocks, changes, first, clusterSize, blockSize) && forall c: nat :: first <= c < limit ==> changes(c)
    requires grown == blocks + RoundedRange(first, limit, clusterSize, blockSize)
    ensures Exact(grown, changes, limit, clusterSize, blockSize)
  {
    forall x: nat
      ensures x in grown <==> x % blockSize == 0 && TouchesChange(x, changes, limit, clusterSize, blockSize)
    {
      if x % blockSize == 0 {
        RangeBlocksTouch(first, limit, clusterSize, blockSize, x);
        assert TouchesChange(x, changes, limit, clusterSize, blockSize) <==>
               TouchesChange(x, changes, first, clusterSize, blockSize) ||
                 TouchesOne(x, first, limit, clusterSize, blockSize);
      }
    }
  }

  /** What is left of the word from bit `done` on. */
  ghost predicate IsRest(word: nat, rest: nat, done: nat) {
    forall i: nat :: Bit(rest, i) <==> done <= i && Bit(word, i)
  }

  /** The lowest run of what is left. */
  lemma RunIsNext(word: nat, rest: nat, done: nat)
    requires 0 < rest < Pow2(64) && IsRest(word, rest, done)
    ensures var first, limit := TrailingZeros(rest), RunLimit(rest, 64);
            && done <= first < limit <= 64
            && (forall i: nat :: done <= i < first ==> !Bit(word, i))
            && (forall i: nat :: first <= i < limit ==> Bit(word, i))
  {
    var first, limit := TrailingZeros(rest), RunLimit(rest, 64);
    RunIsMaximal(rest, 64, first);
    assert Bit(rest, first);
    forall i: nat
      ensures done <= i < first ==> !Bit(word, i)
      ensures first <= i < limit ==> Bit(word, i)
    {
      RunIsMaximal(rest, 64, i);
      assert Bit(rest, i) <==> done <= i && Bit(word, i);
    }
  }

  /** What is left without its lowest run. */
  lemma RunIsRemoved(word: nat, rest: nat, done: nat)
    requires 0 < rest < Pow2(64) && IsRest(word, rest, done)
    ensures var less := And(rest, AfterRun(rest, 64));
            IsRest(word, less, RunLimit(rest, 64)) && PopCount(less) < PopCount(rest) && less < Pow2(64)
  {
    var limit := RunLimit(rest, 64);
    RunIsNext(word, rest, done);
    forall i: nat ensures Bit(And(rest, AfterRun(rest, 64)), i) <==> limit <= i && Bit(word, i) {
      RunIsMaximal(rest, 64, i);
      assert Bit(rest, i) <==> done <= i && Bit(word, i);
    }
    RunScanShrinks(rest, 64);
  }

  /** The collector has exactly what the clusters below `upto` call for. */
  ghost predicate Collected(collector: BlockCollector, changes: nat -> bool, upto: nat)
    reads collector, collector.blocks
  {
    collector.Valid(upto) && Exact(collector.Contents(), changes, upto, collector.clusterSize, collector.blockSize)
  }

  lemma CollectedSkips(collector: BlockCollector, changes: nat -> bool, upto: nat, further: nat)
    requires Collected(collector, changes, upto) && upto <= further
    requires forall c: nat :: upto <= c < further ==> !changes(c)
    ensures Collected(collector, changes, further)
  {
    ProductOrder(upto, further, collector.clusterSize);
    ExactSkips(collector.Contents(), changes, upto, further, collector.clusterSize, collector.blockSize);
  }

  /** Adds one run of changed clusters, clipped at the cluster count. */
  method AddRun(first: nat, past: nat, clusterCount: nat, collector: BlockCollector, ghost changes: nat -> bool)
    requires first < past && first < clusterCount && Collected(collector, changes, first)
    requires forall c: nat :: first <= c < past ==> (changes(c) <==> c < clusterCount)
    modifies collector, collector.blocks
    ensures Collected(collector, changes, past)
  {
    var limit := if past < clusterCount then past else clusterCount;
    ghost var before := collector.Contents();
    collector.AddClusterRange(first, limit, first);
    ExactGrows(before, changes, first, limit, collector.clusterSize, collector.blockSize, collector.Contents());
    CollectedSkips(collector, changes, limit, past);
  }

  /** The bits of the word tell which of the 64 clusters from `wordFirst` on changed. */
  ghost predicate Describes(word: nat, wordFirst: nat, clusterCount: nat, changes: nat -> bool) {
    forall c: nat :: wordFirst <= c < wordFirst + 64 ==> (changes(c) <==> c < clusterCount && Bit(word, c - wordFirst))
  }

  /** The next run of bits is the next run of changed clusters. */
  lemma NextClusters(word: nat, rest: nat, done: nat, wordFirst: nat, clusterCount: nat, changes: nat -> bool)
    requires 0 < rest < Pow2(64) && IsRest(word, rest, done) && Describes(word, wordFirst, clusterCount, changes)
    ensures var first, limit := TrailingZeros(rest), RunLimit(rest, 64);
            && done <= first < limit <= 64
            && (forall c: nat :: wordFirst + done <= c < wordFirst + first ==> !changes(c))
            && (forall c: nat :: wordFirst + first <= c < wordFirst + limit ==> (changes(c) <==> c < clusterCount))
  {
    RunIsNext(word, rest, done);
  }

  /** With no bit left, or only bits beyond the last cluster, nothing more changed. */
  lemma NoMoreClusters(word: nat, rest: nat, done: nat, wordFirst: nat, clusterCount: nat, changes: nat -> bool)
    requires rest < Pow2(64) && IsRest(word, rest, done) && Describes(word, wordFirst, clusterCount, changes)
    requires rest == 0 || wordFirst + TrailingZeros(rest) >= clusterCount
    ensures forall c: nat :: wordFirst + done <= c < wordFirst + 64 ==> !changes(c)
  {
    forall c: nat | wordFirst + done <= c < wordFirst + 64 ensures !changes(c) {
      if rest == 0 { ZeroHasNoBits(c - wordFirst); }
      else { TrailingZerosIsLowestBit(rest, c - wordFirst); }
      assert Bit(rest, c - wordFirst) <==> Bit(word, c - wordFirst);
    }
  }

  /** Finds the limit of the lowest run by carrying through it, and removes the run. */
  method RemoveRun(
    changed: nat, firstBit: nat, ghost word: nat, ghost done: nat,
    ghost wordFirst: nat, ghost clusterCount: nat, ghost changes: nat -> bool) returns (limitBit: nat, rest: nat)
    requires 0 < changed < Pow2(64) && firstBit == TrailingZeros(changed) && IsRest(word, changed, done)
    requires Describes(word, wordFirst, clusterCount, changes)
    ensures done <= firstBit < limitBit <= 64 && rest < Pow2(64) && PopCount(rest) < PopCount(changed)
    ensures IsRest(word, rest, limitBit)
    ensures forall c: nat :: wordFirst + done <= c < wordFirst + firstBit ==> !changes(c)
    ensures forall c: nat :: wordFirst + firstBit <= c < wordFirst + limitBit ==> (changes(c) <==> c < clusterCount)
  {
    RunIsRemoved(word, changed, done);
    NextClusters(word, changed, done, wordFirst, clusterCount, changes);
    var afterRun := (changed + Pow2(firstBit)) % Pow2(64);
    limitBit := if afterRun == 0 then 64 else TrailingZeros(afterRun);
    rest := And(changed, afterRun);
  }

  /** Adds the lowest run that is left, and takes it out of the word. */
  method ScanRun(
    ghost word: nat, changed: nat, firstBit: nat, wordFirst: nat, clusterCount: nat, collector: BlockCollector,
    ghost done: nat, ghost changes: nat -> bool) returns (rest: nat, ghost limit: nat)
    requires 0 < changed < Pow2(64) && firstBit == TrailingZeros(changed) && IsRest(word, changed, done)
    requires wordFirst + firstBit < clusterCount && Describes(word, wordFirst, clusterCount, changes)
    requires Collected(collector, changes, wordFirst + done)
    modifies collector, collector.blocks
    ensures rest < Pow2(64) && limit <= 64 && IsRest(word, rest, limit) && PopCount(rest) < PopCount(changed)
    ensures Collected(collector, changes, wordFirst + limit)
  {
    var limitBit;
    limitBit, rest := RemoveRun(changed, firstBit, word, done, wordFirst, clusterCount, changes);
    limit := limitBit;
    AddNextRun(wordFirst + firstBit, wordFirst + limitBit, clusterCount, collector, wordFirst + done, changes);
  }

  method AddNextRun(
    first: nat, past: nat, clusterCount: nat, collector: BlockCollector, ghost from: nat, ghost changes: nat -> bool)
    requires from <= first < past && first < clusterCount && Collected(collector, changes, from)
    requires forall c: nat :: from <= c < first ==> !changes(c)
    requires forall c: nat :: first <= c < past ==> (changes(c) <==> c < clusterCount)
    modifies collector, collector.blocks
    ensures Collected(collector, changes, past)
  {
    CollectedSkips(collector, changes, from, first);
    AddRun(first, past, clusterCount, collector, changes);
  }

  /** Adds every run of ones of one word of changes, from its lowest cluster up. */
  method ScanWord(word: nat, wordFirst: nat, clusterCount: nat, collector: BlockCollector, ghost changes: nat -> bool)
    requires word < Pow2(64) && Collected(collector, changes, wordFirst)
    requires Describes(word, wordFirst, clusterCount, changes)
    modifies collector, collector.blocks
    ensures Collected(collector, changes, wordFirst + 64)
  {
    var changed: nat := word;
    ghost var done: nat := 0;
    while changed != 0
      invariant changed < Pow2(64) && done <= 64 && IsRest(word, changed, done)
      invariant Collected(collector, changes, wordFirst + done)
      decreases PopCount(changed)
    {
      var firstBit := TrailingZeros(changed);
      var firstCluster := wordFirst + firstBit;
      if firstCluster >= clusterCount { break; }
      changed, done := ScanRun(word, changed, firstBit, wordFirst, clusterCount, collector, done, changes);
    }
    NoMoreClusters(word, changed, done, wordFirst, clusterCount, changes);
    CollectedSkips(collector, changes, wordFirst + done, wordFirst + 64);
  }

  // ----- Two snapshots -----

  ghost predicate BitDiffers(previous: seq<nat>, current: seq<nat>, c: nat)
    requires |previous| == |current|
  {
    c / 8 < |previous| && Bit(previous[c / 8], c % 8) != Bit(current[c / 8], c % 8)
  }

  /** The clusters, below the cluster count, whose allocation bit differs. */
  ghost function Changes(previous: seq<nat>, current: seq<nat>, clusterCount: nat): nat -> bool
    requires |previous| == |current|
  {
    (c: nat) => c < clusterCount && BitDiffers(previous, current, c)
  }

  /** The word of changes loaded at a byte, aligned or not, describes its 64 clusters; beyond the data it is zero. */
  lemma WordDescribes(previous: seq<nat>, current: seq<nat>, clusterCount: nat, at: nat, past: nat)
    requires AreBytes(previous) && AreBytes(current) && |previous| == |current|
    requires at <= past <= |previous| && past <= at + 8 && (past == at + 8 || past == |previous|)
    ensures var word := Xor(LoadWord(previous[at..past]), LoadWord(current[at..past]));
            word < Pow2(64) && Describes(word, 8 * at, clusterCount, Changes(previous, current, clusterCount))
  {
    var a, b := LoadWord(previous[at..past]), LoadWord(current[at..past]);
    LoadWordBound(previous[at..past], 8);
    LoadWordBound(current[at..past], 8);
    XorBound(a, b, 64);
    forall c: nat | 8 * at <= c < 8 * at + 64 ensures BitDiffers(previous, current, c) <==> Bit(Xor(a, b), c - 8 * at) {
      WordBitDiffers(previous, current, at, past, c);
    }
    BitsDescribe(Xor(a, b), at, previous, current, clusterCount);
  }

  lemma BitsDescribe(word: nat, at: nat, previous: seq<nat>, current: seq<nat>, clusterCount: nat)
    requires |previous| == |current|
    requires forall c: nat :: 8 * at <= c < 8 * at + 64 ==>
             (BitDiffers(previous, current, c) <==> Bit(word, c - 8 * at))
    ensures Describes(word, 8 * at, clusterCount, Changes(previous, current, clusterCount))
  {
  }

  lemma WordBitDiffers(previous: seq<nat>, current: seq<nat>, at: nat, past: nat, c: nat)
    requires AreBytes(previous) && AreBytes(current) && |previous| == |current|
    requires at <= past <= |previous| && (past == at + 8 || past == |previous|) && 8 * at <= c < 8 * at + 64
    ensures Bit(Xor(LoadWord(previous[at..past]), LoadWord(current[at..past])), c - 8 * at) <==>
            BitDiffers(previous, current, c)
  {
    var a, b := previous[at..past], current[at..past];
    var i: nat := c - 8 * at;
    XorBit(LoadWord(a), LoadWord(b), i);
    LoadWordBit(a, i);
    LoadWordBit(b, i);
    assert c / 8 == at + i / 8 && c % 8 == i % 8;
    if i / 8 < |a| { assert a[i / 8] == previous[c / 8] && b[i / 8] == current[c / 8]; }
  }

  lemma EqualBytesHoldNoChange(previous: seq<nat>, current: seq<nat>, clusterCount: nat, at: nat, k: nat)
    requires at <= k <= |previous| == |current| && forall i :: at <= i < k ==> previous[i] == current[i]
    ensures forall c: nat :: 8 * at <= c < 8 * k ==> !Changes(previous, current, clusterCount)(c)
  {
    forall c: nat | 8 * at <= c < 8 * k ensures !Changes(previous, current, clusterCount)(c) {
      assert previous[c / 8] == current[c / 8];
      assert !BitDiffers(previous, current, c);
    }
  }

  /** A zero word says that the bytes it was loaded from are equal. */
  lemma ZeroWordHoldsNoChange(wordFirst: nat, clusterCount: nat, changes: nat -> bool)
    requires Describes(0, wordFirst, clusterCount, changes)
    ensures forall c: nat :: wordFirst <= c < wordFirst + 64 ==> !changes(c)
  {
    forall c: nat | wordFirst <= c < wordFirst + 64 ensures !changes(c) { ZeroHasNoBits(c - wordFirst); }
  }

  /** Byte by byte, what the scan of both bitmaps has seen. */
  ghost predicate Scanned(
    previous: seq<nat>, current: seq<nat>, clusterCount: nat, collector: BlockCollector, index: nat, upto: nat)
    requires |previous| == |current|
    reads collector, collector.blocks
  {
    && index <= |previous| && (index < |previous| ==> upto == 8 * index)
    && (index == |previous| ==> upto >= clusterCount)
    && Collected(collector, Changes(previous, current, clusterCount), upto)
  }

  method ChangedWord(
    previous: seq<nat>, current: seq<nat>, ghost clusterCount: nat, index: nat, next: nat) returns (changed: nat)
    requires AreBytes(previous) && AreBytes(current) && |previous| == |current|
    requires index <= next <= |previous| && next <= index + 8 && (next == index + 8 || next == |previous|)
    ensures changed < Pow2(64) && Describes(changed, 8 * index, clusterCount, Changes(previous, current, clusterCount))
  {
    changed := Xor(LoadWord(previous[index..next]), LoadWord(current[index..next]));
    WordDescribes(previous, current, clusterCount, index, next);
  }

  method ScanAt(previous: seq<nat>, current: seq<nat>, clusterCount: nat, collector: BlockCollector, index: nat)
    returns (next: nat, ghost upto: nat)
    requires AreBytes(previous) && AreBytes(current) && |previous| == |current| == ByteCount(clusterCount)
    requires index < |previous| && Collected(collector, Changes(previous, current, clusterCount), 8 * index)
    modifies collector, collector.blocks
    ensures index < next && Scanned(previous, current, clusterCount, collector, next, upto)
  {
    ghost var changes := Changes(previous, current, clusterCount);
    next := if |previous| - index < 8 then |previous| else index + 8;
    var changed := ChangedWord(previous, current, clusterCount, index, next);
    if changed == 0 {
      next, upto := SkipEqual(previous, current, clusterCount, collector, index, next);
    } else {
      ScanWord(changed, 8 * index, clusterCount, collector, changes);
      upto := 8 * index + 64;
    }
  }

  /** After a word without changes, equal bytes are skipped up to the next difference. */
  method SkipEqual(
    previous: seq<nat>, current: seq<nat>, clusterCount: nat, collector: BlockCollector, index: nat, next: nat)
    returns (k: nat, ghost upto: nat)
    requires |previous| == |current| == ByteCount(clusterCount) && index < next <= |previous|
    requires next == index + 8 || (next < index + 8 && next == |previous|)
    requires Describes(0, 8 * index, clusterCount, Changes(previous, current, clusterCount))
    requires Collected(collector, Changes(previous, current, clusterCount), 8 * index)
    ensures next <= k && Scanned(previous, current, clusterCount, collector, k, upto)
  {
    k := Mismatch(previous, current, next);
    ghost var changes := Changes(previous, current, clusterCount);
    ZeroWordHoldsNoChange(8 * index, clusterCount, changes);
    EqualBytesHoldNoChange(previous, current, clusterCount, next, k);
    upto := if k > next then 8 * k else 8 * index + 64;
    CollectedSkips(collector, changes, 8 * index, upto);
  }

  /**
   The blocks to read again: exactly the starts of the blocks that overlap a
   cluster below the cluster count whose allocation bit differs.
   */
  method ReadAllocationChangeBlocks(
    previous: Snapshot, current: Snapshot, blockSize: nat) returns (result: Result<BitmapSet>)
    requires Initialized(previous.bitmap) && Initialized(current.bitmap) && blockSize > 1
    ensures result == VolumeSizesDiffer <==> previous.length != current.length
    ensures result == ClustersDiffer <==>
            && previous.length == current.length
            && (previous.bitmap.clusterSize != current.bitmap.clusterSize ||
                  previous.bitmap.clusterCount != current.bitmap.clusterCount)
    ensures result.Ok? ==>
              && fresh(result.value) && result.value.Valid() && result.value.blockSize == blockSize
              && |previous.bitmap.data| == |current.bitmap.data|
              && forall x: nat :: x in result.value.Contents() <==>
                   && x % blockSize == 0
                   && exists c: nat ::
                        && c < previous.bitmap.clusterCount && BitDiffers(previous.bitmap.data, current.bitmap.data, c)
                        && Touches(x, c, previous.bitmap.clusterSize, blockSize)
  {
    if previous.length != current.length { return VolumeSizesDiffer; }
    var a, b := previous.bitmap, current.bitmap;
    if a.clusterSize != b.clusterSize || a.clusterCount != b.clusterCount { return ClustersDiffer; }
    var collector := new BlockCollector(a.clusterSize, blockSize);
    var index := 0;
    ghost var upto: nat := 0;
    while index < |a.data|
      invariant fresh(collector) && fresh(collector.blocks) && collector.clusterSize == a.clusterSize
      invariant collector.blockSize == blockSize
      invariant Scanned(a.data, b.data, a.clusterCount, collector, index, upto)
      decreases |a.data| - index
    {
      index, upto := ScanAt(a.data, b.data, a.clusterCount, collector, index);
    }
    ghost var contents := collector.Contents();
    collector.Finish();
    ExactMeansChanged(contents, a, b, upto, blockSize);
    result := Ok(collector.blocks);
  }

  lemma ExactMeansChanged(contents: set<nat>, a: AllocationBitmap, b: AllocationBitmap, upto: nat, blockSize: nat)
    requires blockSize > 0 && |a.data| == |b.data| && upto >= a.clusterCount
    requires Exact(contents, Changes(a.data, b.data, a.clusterCount), upto, a.clusterSize, blockSize)
    ensures forall x: nat :: x in contents <==>
              && x % blockSize == 0
              && exists c: nat ::
                   && c < a.clusterCount && BitDiffers(a.data, b.data, c)
                   && Touches(x, c, a.clusterSize, blockSize)
  {
    var changes := Changes(a.data, b.data, a.clusterCount);
    forall x: nat
      ensures TouchesChange(x, changes, upto, a.clusterSize, blockSize) <==>
              exists c: nat ::
                && c < a.clusterCount && BitDiffers(a.data, b.data, c)
                && Touches(x, c, a.clusterSize, blockSize)
    {
      if c: nat :| c < a.clusterCount && BitDiffers(a.data, b.data, c) && Touches(x, c, a.clusterSize, blockSize) {
        assert changes(c);
      }
    }
  }
}
