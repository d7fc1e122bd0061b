/**
 `ReduceBitmapUsingSveImpl`: one output bit for each region of the input, set
 when the region has a nonzero byte, computed on vectors of any width.
 */
module SveReduction {
  import opened Arithmetic
  import opened Common
  import opened Bits

  /** A vector register of bytes. */
  type Lanes = seq<nat>

  /** A predicated load: the first `active` lanes are read, the others are zero. */
  function Load(input: seq<nat>, at: nat, active: nat, width: nat): (v: Lanes)
    requires active <= width && at + active <= |input|
    ensures |v| == width
    ensures forall k :: 0 <= k < width ==> v[k] == if k < active then input[at + k] else 0
  {
    seq(width, k requires 0 <= k < width => if k < active then input[at + k] else 0)
  }

  function OrLanes(a: Lanes, b: Lanes): (v: Lanes)
    requires |a| == |b|
    ensures |v| == |a| && forall k :: 0 <= k < |a| ==> v[k] == Or(a[k], b[k])
  {
    seq(|a|, k requires 0 <= k < |a| => Or(a[k], b[k]))
  }

  /** The horizontal OR of a vector. */
  function OrAcross(v: Lanes): nat {
    if v == [] then 0 else Or(OrAcross(v[..|v| - 1]), v[|v| - 1])
  }

  lemma {:induction false} OrAcrossBit(v: Lanes, i: nat)
    ensures Bit(OrAcross(v), i) <==> exists k :: 0 <= k < |v| && Bit(v[k], i)
  {
    if v == [] { ZeroHasNoBits(i); }
    else {
      var n := |v| - 1;
      OrAcrossBit(v[..n], i);
      OrBit(OrAcross(v[..n]), v[n], i);
      if k :| 0 <= k < |v| && Bit(v[k], i) { if k < n { assert v[..n][k] == v[k]; } }
    }
  }

  // ----- Loading a region -----

  /** Lane `k` is nonzero exactly when some byte of the region that falls on lane `k` is. */
  ghost predicate Gathers(v: Lanes, input: seq<nat>, at: nat, bytes: nat, width: nat)
    requires width > 0 && at + bytes <= |input|
  {
    && |v| == width
    && forall k :: 0 <= k < width ==>
       (v[k] != 0 <==> exists p :: 0 <= p < bytes && p % width == k && input[at + p] != 0)
  }

  lemma SmallRemainder(p: nat, width: nat)
    requires p < width
    ensures p % width == p
  {
  }

  lemma OneLoadGathers(input: seq<nat>, at: nat, bytes: nat, width: nat)
    requires 0 < bytes <= width && at + bytes <= |input|
    ensures Gathers(Load(input, at, bytes, width), input, at, bytes, width)
  {
    var v := Load(input, at, bytes, width);
    forall k | 0 <= k < width
      ensures v[k] != 0 <==> exists p :: 0 <= p < bytes && p % width == k && input[at + p] != 0
    {
      if k < bytes { SmallRemainder(k, width); }
      forall p | 0 <= p < bytes && p % width == k ensures p == k { SmallRemainder(p, width); }
    }
  }

  lemma MultipleRemainder(q: nat, p: nat, width: nat)
    requires width > 0
    ensures (q * width + p) % width == p % width
  {
    DivisionIsUnique(q + p / width, p % width, width);
    assert (q + p / width) * width + p % width == q * width + p;
  }

  lemma AlignedRemainder(split: nat, p: nat, width: nat)
    requires width > 0 && split % width == 0
    ensures (split + p) % width == p % width
  {
    QuotientOfMultiple(split, width);
    MultipleRemainder(split / width, p, width);
  }

  /** Two parts that meet at a multiple of the width gather as a whole. */
  lemma PartsGather(a: Lanes, b: Lanes, input: seq<nat>, at: nat, q: nat, split: nat, bytes: nat, width: nat)
    requires width > 0 && split == q * width <= bytes && at + bytes <= |input|
    requires Gathers(a, input, at, split, width) && Gathers(b, input, at + split, bytes - split, width)
    ensures Gathers(OrLanes(a, b), input, at, bytes, width)
  {
    var v := OrLanes(a, b);
    MultipleIsAligned(q, width);
    forall k: nat | k < width
      ensures v[k] != 0 <==> exists p :: 0 <= p < bytes && p % width == k && input[at + p] != 0
    {
      OrIsZero(a[k], b[k]);
      if b[k] != 0 { var p := LaterByte(b, input, at, split, bytes, width, k); }
      if p :| 0 <= p < bytes && p % width == k && input[at + p] != 0 {
        if p >= split { LaterLane(b, input, at, split, bytes, width, k, p); }
      }
    }
  }

  lemma LaterByte(
    b: Lanes, input: seq<nat>, at: nat, split: nat, bytes: nat, width: nat, k: nat) returns (p: nat)
    requires width > 0 && split % width == 0 && split <= bytes && at + bytes <= |input| && k < width
    requires Gathers(b, input, at + split, bytes - split, width) && b[k] != 0
    ensures p < bytes && p % width == k && input[at + p] != 0
  {
    var p' :| 0 <= p' < bytes - split && p' % width == k && input[at + split + p'] != 0;
    AlignedRemainder(split, p', width);
    p := split + p';
  }

  lemma LaterLane(b: Lanes, input: seq<nat>, at: nat, split: nat, bytes: nat, width: nat, k: nat, p: nat)
    requires width > 0 && split % width == 0 && split <= p < bytes && at + bytes <= |input| && k < width
    requires Gathers(b, input, at + split, bytes - split, width) && p % width == k && input[at + p] != 0
    ensures b[k] != 0
  {
    var p' := p - split;
    AlignedRemainder(split, p', width);
    assert input[at + split + p'] != 0;
  }

  /** The balanced tree of loads; a predicated last load reads only the bytes that remain. */
  function LoadSveRegion(input: seq<nat>, at: nat, bytes: nat, width: nat): (v: Lanes)
    requires width > 0 && bytes > 0 && at + bytes <= |input|
    ensures Gathers(v, input, at, bytes, width)
    decreases bytes
  {
    if bytes <= width then
      OneLoadGathers(input, at, bytes, width);
      Load(input, at, bytes, width)
    else
      var half := ((bytes - 1) / width + 1) / 2;
      var split := half * width;
      SplitInside(bytes, width);
      var a := LoadSveRegion(input, at, split, width);
      var b := LoadSveRegion(input, at + split, bytes - split, width);
      PartsGather(a, b, input, at, half, split, bytes, width);
      OrLanes(a, b)
  }

  lemma SplitInside(bytes: nat, width: nat)
    requires 0 < width < bytes
    ensures 0 < ((bytes - 1) / width + 1) / 2 * width < bytes
  {
    var q := (bytes - 1) / width;
    assert bytes - 1 == q * width + (bytes - 1) % width;
    assert q >= 1;
    var half := (q + 1) / 2;
    assert 1 <= half <= q;
    assert half * width <= q * width;
    assert half * width >= width;
  }

  // ----- One batch of accumulators -----

  /** Every accumulator has gathered the first `bytes` bytes of its part of the input. */
  ghost predicate AllGather(values: seq<Lanes>, input: seq<nat>, first: nat, stride: nat, bytes: nat, width: nat) {
    && width > 0
    && forall a :: 0 <= a < |values| ==>
         first + a * stride + bytes <= |input| && Gathers(values[a], input, first + a * stride, bytes, width)
  }

  /** Advances one accumulator by one load. */
  lemma OneMoreLoad(v: Lanes, input: seq<nat>, at: nat, offset: nat, active: nat, width: nat)
    requires 0 < active <= width && offset % width == 0 && at + offset + active <= |input|
    requires Gathers(v, input, at, offset, width)
    ensures Gathers(OrLanes(v, Load(input, at + offset, active, width)), input, at, offset + active, width)
  {
    OneLoadGathers(input, at + offset, active, width);
    PartsGather(v, Load(input, at + offset, active, width), input, at, offset / width, offset, offset + active, width);
  }

  lemma NothingGathered(input: seq<nat>, at: nat, width: nat)
    requires width > 0 && at <= |input|
    ensures Gathers(seq(width, _ => 0), input, at, 0, width)
  {
  }

  lemma StrideFits(input: seq<nat>, first: nat, a: nat, count: nat, stride: nat, bytes: nat)
    requires a < count && bytes <= stride && first + (count - 1) * stride + bytes <= |input|
    ensures first + a * stride + bytes <= |input|
  {
    ProductOrder(a, count - 1, stride);
  }

  ghost predicate Fits(input: seq<nat>, first: nat, count: nat, stride: nat, bytes: nat) {
    forall a: nat :: a < count ==> first + a * stride + bytes <= |input|
  }

  lemma NextOffset(offset: nat, width: nat)
    requires width > 0 && offset % width == 0
    ensures (offset + width) % width == 0
  {
    assert offset + width == (offset / width + 1) * width;
    MultipleIsAligned(offset / width + 1, width);
  }

  function Zeros(count: nat, width: nat): (values: seq<Lanes>)
    ensures |values| == count && forall a :: 0 <= a < count ==> values[a] == seq(width, _ => 0)
  {
    seq(count, _ => seq(width, _ => 0))
  }

  lemma ZerosGather(input: seq<nat>, first: nat, count: nat, stride: nat, bytes: nat, width: nat)
    requires width > 0 && Fits(input, first, count, stride, bytes)
    ensures AllGather(Zeros(count, width), input, first, stride, 0, width)
  {
    forall a: nat | a < count
      ensures first + a * stride <= |input| && Gathers(Zeros(count, width)[a], input, first + a * stride, 0, width)
    {
      assert first + a * stride + bytes <= |input|;
      NothingGathered(input, first + a * stride, width);
    }
  }

  /** The loop over vectors: the accumulators advance together, and the last load reads what remains. */
  method GatherByLoop(input: seq<nat>, first: nat, stride: nat, bytes: nat, count: nat, complete: bool, width: nat)
    returns (values: seq<Lanes>)
    requires width > 0 && bytes > 0 && (complete ==> bytes == stride) && Fits(input, first, count, stride, bytes)
    ensures |values| == count && AllGather(values, input, first, stride, bytes, width)
  {
    values := Zeros(count, width);
    ZerosGather(input, first, count, stride, bytes, width);
    var offset := 0;
    ghost var gathered := 0;
    while offset < bytes
      invariant |values| == count && offset % width == 0
      invariant gathered == if offset < bytes then offset else bytes
      invariant AllGather(values, input, first, stride, gathered, width)
      decreases bytes - offset
    {
      var active := ActiveLanes(complete && stride % width == 0, bytes, offset, width);
      values := Advance(values, input, first, stride, offset, active, width);
      NextOffset(offset, width);
      gathered := offset + active;
      offset := offset + width;
    }
  }

  /**
   Gathers the bytes of `count` consecutive accumulators. The expanded loads
   and the loop give the same lanes, and no active lane is outside the input.
   */
  method ReduceRegions(input: seq<nat>, first: nat, stride: nat, bytes: nat, count: nat, complete: bool, width: nat)
    returns (values: seq<Lanes>)
    requires width > 0 && 0 < bytes <= stride && (complete ==> bytes == stride)
    requires count > 0 && first + (count - 1) * stride + bytes <= |input|
    ensures |values| == count && AllGather(values, input, first, stride, bytes, width)
  {
    forall a: nat | a < count ensures first + a * stride + bytes <= |input| {
      StrideFits(input, first, a, count, stride, bytes);
    }
    if complete && (stride - 1) / width + 1 <= 4 {
      values := seq(count, a requires 0 <= a < count => LoadSveRegion(input, first + a * stride, stride, width));
    } else {
      values := GatherByLoop(input, first, stride, bytes, count, complete, width);
    }
  }

  /** All lanes when the region is a whole number of vectors, and otherwise those inside the region. */
  function ActiveLanes(aligned: bool, bytes: nat, offset: nat, width: nat): (active: nat)
    requires offset < bytes && width > 0 && offset % width == 0 && (aligned ==> bytes % width == 0)
    ensures 0 < active <= width && offset + active <= bytes && (active == width || offset + active == bytes)
  {
    if aligned then
      assert offset + width <= bytes by { if bytes < offset + width { AlignedOrder(bytes, offset, width); } }
      width
    else if offset + width < bytes then width else bytes - offset
  }

  function Advance(values: seq<Lanes>, input: seq<nat>, first: nat, stride: nat, offset: nat, active: nat,
    width: nat): (advanced: seq<Lanes>)
    requires 0 < active <= width && offset % width == 0 && AllGather(values, input, first, stride, offset, width)
    requires forall a: nat :: a < |values| ==> first + a * stride + offset + active <= |input|
    ensures |advanced| == |values| && AllGather(advanced, input, first, stride, offset + active, width)
  {
    var advanced :=
      seq(|values|,
        a requires 0 <= a < |values| => OrLanes(values[a], Load(input, first + a * stride + offset, active, width)));
    assert AllGather(advanced, input, first, stride, offset + active, width) by {
      forall a | 0 <= a < |advanced| ensures Gathers(advanced[a], input, first + a * stride, offset + active, width) {
        OneMoreLoad(values[a], input, first + a * stride, offset, active, width);
      }
    }
    advanced
  }

  // ----- Packing accumulators into bits -----

  /** One, two or four adjacent regions share an accumulator. */
  function RegionsPerAccumulator(regionBytes: nat, width: nat): nat
    requires regionBytes > 0
  {
    if width / regionBytes >= 4 then 4 else if width / regionBytes >= 2 then 2 else 1
  }

  /** How many region boundaries lie at or below the lane, in byte arithmetic. */
  function Crossed(lane: nat, regionBytes: nat, boundaries: nat): nat {
    if boundaries == 0 then 0
    else Crossed(lane, regionBytes, boundaries - 1) + (if lane % 256 >= boundaries * regionBytes % 256 then 1 else 0)
  }

  lemma {:induction false} CrossedCountsRegions(lane: nat, regionBytes: nat, boundaries: nat)
    requires lane < 256 && regionBytes > 0 && boundaries * regionBytes < 256
    ensures Crossed(lane, regionBytes, boundaries) == if lane / regionBytes < boundaries then lane / regionBytes
            else boundaries
    decreases boundaries
  {
    if boundaries > 0 {
      ProductOrder(boundaries - 1, boundaries, regionBytes);
      CrossedCountsRegions(lane, regionBytes, boundaries - 1);
      SmallRemainder(boundaries * regionBytes, 256);
      BoundaryIsCrossed(lane, regionBytes, boundaries);
    }
  }

  function ShiftLeft(x: nat, shift: nat): nat { x * Pow2(shift) % 256 }

  /** Zero or one, moved to bit `shift`. */
  lemma FlagBit(x: nat, shift: nat, i: nat)
    requires shift < 8
    ensures var flag := if x < 1 then x else 1;
            ShiftLeft(flag, shift) <= Pow2(shift) <= 128 && (Bit(ShiftLeft(flag, shift), i) <==> x != 0 && i == shift)
  {
    assert Pow2(shift) <= 128 by { SmallPowers(shift, 7); }
    PowerBit(shift, i);
    ZeroHasNoBits(i);
  }

  lemma {:induction false} SmallPowers(a: nat, b: nat)
    requires a <= b
    ensures Pow2(a) <= Pow2(b)
    decreases b
  {
    if a < b { SmallPowers(a, b - 1); }
  }

  /** The bit position of a lane of accumulator `a`. */
  function Position(a: nat, lane: nat, regions: nat, regionBytes: nat): nat
    requires regions > 0
  {
    a * regions + Crossed(lane, regionBytes, regions - 1)
  }

  lemma {:induction false} CrossedBound(lane: nat, regionBytes: nat, boundaries: nat)
    ensures Crossed(lane, regionBytes, boundaries) <= boundaries
    decreases boundaries
  {
    if boundaries > 0 { CrossedBound(lane, regionBytes, boundaries - 1); }
  }

  function LaneShifts(regionBytes: nat, regions: nat, width: nat): (shifts: Lanes)
    requires regions > 0
    ensures |shifts| == width && forall k :: 0 <= k < width ==> shifts[k] == Crossed(k, regionBytes, regions - 1)
  {
    seq(width, k requires 0 <= k < width => Crossed(k, regionBytes, regions - 1))
  }

  /** Two regions an accumulator use a second shift vector, for bits 2 and 3. */
  function NextLaneShifts(shifts: Lanes, regions: nat): (next: Lanes)
    ensures |next| == |shifts|
    ensures forall k :: 0 <= k < |next| ==> next[k] == shifts[k] + if regions == 2 then 2 else 0
  {
    if regions == 2 then seq(|shifts|, k requires 0 <= k < |shifts| => shifts[k] + 2) else shifts
  }

  function PackLane(x: nat, accumulator: nat, regions: nat, shift: nat, next: nat): nat {
    var flag := if x < 1 then x else 1;
    if regions == 1 then (if accumulator == 0 then flag else ShiftLeft(flag, accumulator))
    else ShiftLeft(flag, if accumulator == 0 then shift else next)
  }

  function PackSveRegions(
    first: nat, count: nat, regions: nat, values: seq<Lanes>, shifts: Lanes, next: Lanes): (v: Lanes)
    requires count in {1, 2, 4} && first + count <= |values| && |next| == |shifts|
    requires forall a :: 0 <= a < |values| ==> |values[a]| == |shifts|
    ensures |v| == |shifts|
    decreases count
  {
    if count == 1 then
      seq(|shifts|, k requires 0 <= k < |shifts| => PackLane(values[first][k], first, regions, shifts[k], next[k]))
    else
      OrLanes(PackSveRegions(first, count / 2, regions, values, shifts, next),
              PackSveRegions(first + count / 2, count / 2, regions, values, shifts, next))
  }

  /** A lane's flag lands on the bit of the region the lane belongs to. */
  lemma PackLaneBit(x: nat, a: nat, regions: nat, regionBytes: nat, lane: nat, i: nat)
    requires (regions == 1 && a < 4) || (regions == 2 && a < 2) || (regions == 4 && a == 0)
    ensures var shift := Crossed(lane, regionBytes, regions - 1);
            var packed := PackLane(x, a, regions, shift, shift + if regions == 2 then 2 else 0);
            Position(a, lane, regions, regionBytes) < 4 && packed < 16 &&
              (Bit(packed, i) <==> x != 0 && i == Position(a, lane, regions, regionBytes))
  {
    CrossedBound(lane, regionBytes, regions - 1);
    var position := Position(a, lane, regions, regionBytes);
    FlagBit(x, position, i);
    FlagBit(x, 0, i);
    SmallPowers(position, 3);
  }

  /** Some accumulator from `first` on has a nonzero byte on a lane of bit `i`. */
  ghost predicate Packed(values: seq<Lanes>, first: nat, count: nat, regions: nat, regionBytes: nat, k: nat, i: nat)
    requires first + count <= |values| && regions > 0
    requires forall a :: 0 <= a < |values| ==> k < |values[a]|
  {
    exists a :: first <= a < first + count && values[a][k] != 0 && Position(a, k, regions, regionBytes) == i
  }

  lemma {:induction false} PackedBits(
    values: seq<Lanes>, first: nat, count: nat, regions: nat, regionBytes: nat, width: nat, k: nat, i: nat)
    requires count in {1, 2, 4} && regions in {1, 2, 4} && regions * |values| == 4 && first + count <= |values|
    requires k < width
    requires forall a :: 0 <= a < |values| ==> |values[a]| == width
    ensures var shifts := LaneShifts(regionBytes, regions, width);
            var v := PackSveRegions(first, count, regions, values, shifts, NextLaneShifts(shifts, regions));
            v[k] < 16 && (Bit(v[k], i) <==> Packed(values, first, count, regions, regionBytes, k, i))
    decreases count
  {
    var shifts := LaneShifts(regionBytes, regions, width);
    var next := NextLaneShifts(shifts, regions);
    if count == 1 {
      PackLaneBit(values[first][k], first, regions, regionBytes, k, i);
      PackedAlone(values, first, regions, regionBytes, k, i);
    } else {
      var half := count / 2;
      PackedBits(values, first, half, regions, regionBytes, width, k, i);
      PackedBits(values, first + half, half, regions, regionBytes, width, k, i);
      var a := PackSveRegions(first, half, regions, values, shifts, next);
      var b := PackSveRegions(first + half, half, regions, values, shifts, next);
      PackedHalfByHalf(first, count, regions, values, shifts, next, k);
      PackedTogether(values, first, half, regions, regionBytes, k, i, a[k], b[k]);
    }
  }

  lemma {:induction false} PackedHalfByHalf(
    first: nat, count: nat, regions: nat, values: seq<Lanes>, shifts: Lanes, next: Lanes, k: nat)
    requires count in {2, 4} && first + count <= |values| && k < |shifts| == |next|
    requires forall a :: 0 <= a < |values| ==> |values[a]| == |shifts|
    ensures var half := count / 2;
            PackSveRegions(first, count, regions, values, shifts, next)[k] ==
            Or(PackSveRegions(first, half, regions, values, shifts, next)[k],
               PackSveRegions(first + half, half, regions, values, shifts, next)[k])
  {
  }

  lemma {:induction false} PackedTogether(
    values: seq<Lanes>, first: nat, half: nat, regions: nat, regionBytes: nat, k: nat, i: nat, x: nat, y: nat)
    requires first + 2 * half <= |values| && regions > 0 && forall a :: 0 <= a < |values| ==> k < |values[a]|
    requires x < 16 && (Bit(x, i) <==> Packed(values, first, half, regions, regionBytes, k, i))
    requires y < 16 && (Bit(y, i) <==> Packed(values, first + half, half, regions, regionBytes, k, i))
    ensures Or(x, y) < 16 && (Bit(Or(x, y), i) <==> Packed(values, first, 2 * half, regions, regionBytes, k, i))
  {
    OrBit(x, y, i);
    OrBound(x, y, 4);
    PackedHalves(values, first, half, regions, regionBytes, k, i);
  }

  lemma PackedAlone(values: seq<Lanes>, first: nat, regions: nat, regionBytes: nat, k: nat, i: nat)
    requires first < |values| && regions > 0 && forall a :: 0 <= a < |values| ==> k < |values[a]|
    ensures Packed(values, first, 1, regions, regionBytes, k, i) <==>
            values[first][k] != 0 && Position(first, k, regions, regionBytes) == i
  {
  }

  lemma PackedHalves(values: seq<Lanes>, first: nat, half: nat, regions: nat, regionBytes: nat, k: nat, i: nat)
    requires first + 2 * half <= |values| && regions > 0 && forall a :: 0 <= a < |values| ==> k < |values[a]|
    ensures Packed(values, first, 2 * half, regions, regionBytes, k, i) <==>
            Packed(values, first, half, regions, regionBytes, k, i) ||
              Packed(values, first + half, half, regions, regionBytes, k, i)
  {
  }

  // ----- A batch of four regions -----

  ghost predicate RegionNonzero(input: seq<nat>, regionBytes: nat, region: nat) {
    exists q :: region * regionBytes <= q < (region + 1) * regionBytes && q < |input| && input[q] != 0
  }

  lemma AccumulatorFits(regionBytes: nat, width: nat)
    requires regionBytes > 0 && width > 0
    ensures var r := RegionsPerAccumulator(regionBytes, width); r > 1 ==> r * regionBytes <= width
  {
    var q := width / regionBytes;
    assert width == q * regionBytes + width % regionBytes;
    ProductOrder(RegionsPerAccumulator(regionBytes, width), q, regionBytes);
  }

  /** The boundaries below a byte's lane are the regions before it. */
  lemma LaneTellsRegion(p: nat, regionBytes: nat, regions: nat, width: nat)
    requires 0 < regionBytes && 0 < width <= 256 && regions > 0 && (regions == 1 || regions * regionBytes <= width)
    requires p < regions * regionBytes
    ensures Crossed(p % width, regionBytes, regions - 1) == p / regionBytes
  {
    BoundaryIsCrossed(p, regionBytes, regions);
    if regions > 1 { SharedLaneTellsRegion(p, regionBytes, regions, width); }
  }

  lemma SharedLaneTellsRegion(p: nat, regionBytes: nat, regions: nat, width: nat)
    requires 0 < regionBytes && width <= 256 && regions > 0 && p < regions * regionBytes <= width
    requires p / regionBytes < regions
    ensures Crossed(p % width, regionBytes, regions - 1) == p / regionBytes
  {
    SmallRemainder(p, width);
    assert (regions - 1) * regionBytes + regionBytes == regions * regionBytes;
    CrossedCountsRegions(p, regionBytes, regions - 1);
  }

  /** Byte `p` of accumulator `a` is in region `a * regions + p / regionBytes`. */
  lemma RegionOfByte(a: nat, regions: nat, regionBytes: nat, p: nat)
    requires regionBytes > 0
    ensures (a * (regionBytes * regions) + p) / regionBytes == a * regions + p / regionBytes
  {
    var region := a * regions + p / regionBytes;
    assert region * regionBytes + p % regionBytes == a * (regionBytes * regions) + p;
    DivisionIsUnique(region, p % regionBytes, regionBytes);
  }

  /** Byte `p` of accumulator `a` of the batch that starts with region `bit` is in region `bit + position`. */
  lemma ByteOfPosition(bit: nat, a: nat, regions: nat, regionBytes: nat, p: nat, first: nat, stride: nat)
    requires regionBytes > 0 && first == bit * regionBytes && stride == regionBytes * regions
    ensures (first + a * stride + p) / regionBytes == bit + (a * regions + p / regionBytes)
  {
    RegionOfByte(a, regions, regionBytes, p);
    RegionOfByte(bit, 1, regionBytes, a * stride + p);
  }

  ghost predicate Batch(bit: nat, regions: nat, regionBytes: nat, width: nat, first: nat, stride: nat) {
    && regionBytes > 0 && 0 < width <= 256 && regions > 0 && (regions == 1 || stride <= width)
    && first == bit * regionBytes && stride == regionBytes * regions
  }

  lemma GatheredByte(v: Lanes, input: seq<nat>, at: nat, bytes: nat, width: nat, k: nat) returns (p: nat)
    requires width > 0 && at + bytes <= |input| && Gathers(v, input, at, bytes, width) && k < width && v[k] != 0
    ensures p < bytes && p % width == k && input[at + p] != 0
  {
    p :| 0 <= p < bytes && p % width == k && input[at + p] != 0;
  }

  lemma GatheredLane(v: Lanes, input: seq<nat>, at: nat, bytes: nat, width: nat, p: nat) returns (k: nat)
    requires width > 0 && at + bytes <= |input| && Gathers(v, input, at, bytes, width) && p < bytes
    requires input[at + p] != 0
    ensures k < width && k == p % width && v[k] != 0
  {
    k := p % width;
  }

  lemma PositionOfLane(bit: nat, regions: nat, regionBytes: nat, width: nat, first: nat, stride: nat, a: nat, p: nat)
    requires Batch(bit, regions, regionBytes, width, first, stride) && p < stride
    ensures Position(a, p % width, regions, regionBytes) == a * regions + p / regionBytes
  {
    LaneTellsRegion(p, regionBytes, regions, width);
  }

  lemma PositionOfByte(bit: nat, regions: nat, regionBytes: nat, width: nat, first: nat, stride: nat, a: nat, p: nat)
    requires Batch(bit, regions, regionBytes, width, first, stride) && p < stride
    ensures Position(a, p % width, regions, regionBytes) == a * regions + p / regionBytes
    ensures (first + a * stride + p) / regionBytes == bit + Position(a, p % width, regions, regionBytes)
  {
    PositionOfLane(bit, regions, regionBytes, width, first, stride, a, p);
    ByteOfPosition(bit, a, regions, regionBytes, p, first, stride);
  }

  /** A set lane of an accumulator that belongs to bit `i` is a nonzero byte of region `bit + i`. */
  lemma ByteMeansNonzero(
    input: seq<nat>, bit: nat, regions: nat, regionBytes: nat, width: nat, first: nat, stride: nat, a: nat, p: nat,
    at: nat, i: nat)
    requires Batch(bit, regions, regionBytes, width, first, stride) && p < stride && at == first + a * stride + p
    requires at < |input| && input[at] != 0 && Position(a, p % width, regions, regionBytes) == i
    ensures RegionNonzero(input, regionBytes, bit + i)
  {
    PositionOfByte(bit, regions, regionBytes, width, first, stride, a, p);
    NonzeroByteOfRegion(input, at, bit + i, regionBytes);
  }

  lemma NonzeroByteOfRegion(input: seq<nat>, q: nat, region: nat, regionBytes: nat)
    requires regionBytes > 0 && q < |input| && input[q] != 0 && q / regionBytes == region
    ensures RegionNonzero(input, regionBytes, region)
  {
    QuotientRange(q, region, regionBytes);
  }

  lemma LocateByte(
    bit: nat, regions: nat, regionBytes: nat, width: nat, first: nat, stride: nat, i: nat, q: nat)
    returns (a: nat, p: nat)
    requires Batch(bit, regions, regionBytes, width, first, stride)
    requires (bit + i) * regionBytes <= q < (bit + i + 1) * regionBytes
    ensures q == first + a * stride + p && p < stride && i == a * regions + p / regionBytes
  {
    ProductOrder(bit, bit + i, regionBytes);
    assert stride > 0 by { ProductOrder(1, regions, regionBytes); }
    a, p := SplitPosition(q - first, stride);
    QuotientRange(q, bit + i, regionBytes);
    ByteOfPosition(bit, a, regions, regionBytes, p, first, stride);
  }

  lemma SplitPosition(within: nat, size: nat) returns (a: nat, p: nat)
    requires size > 0
    ensures within == a * size + p && p < size
  {
    a, p := within / size, within % size;
  }

  lemma AccumulatorInRange(a: nat, r: nat, regions: nat, i: nat, count: nat)
    requires i == a * regions + r && i < regions * count
    ensures a < count
  {
    ProductOrder(count, a, regions);
  }

  ghost predicate SomeLane(lanes: Lanes, i: nat) { exists k :: 0 <= k < |lanes| && Bit(lanes[k], i) }

  /** One batch: four consecutive complete regions, packed into the low four bits of the lanes. */
  method ReduceBatch(input: seq<nat>, bit: nat, regionBytes: nat, width: nat) returns (lanes: Lanes)
    requires regionBytes > 0 && 0 < width <= 256 && (bit + 4) * regionBytes <= |input|
    ensures |lanes| == width && forall k :: 0 <= k < width ==> lanes[k] < 16
    ensures forall i: nat :: i < 4 ==> (SomeLane(lanes, i) <==> RegionNonzero(input, regionBytes, bit + i))
  {
    var regions := RegionsPerAccumulator(regionBytes, width);
    var first, stride := bit * regionBytes, regionBytes * regions;
    var count := 4 / regions;
    AccumulatorFits(regionBytes, width);
    BatchFits(bit, regionBytes, regions, count, |input|);
    var values := ReduceRegions(input, first, stride, stride, count, true, width);
    var shifts := LaneShifts(regionBytes, regions, width);
    lanes := PackSveRegions(0, count, regions, values, shifts, NextLaneShifts(shifts, regions));
    forall k | 0 <= k < width ensures lanes[k] < 16 { PackedBits(values, 0, count, regions, regionBytes, width, k, 0); }
    forall i: nat | i < 4 ensures SomeLane(lanes, i) <==> RegionNonzero(input, regionBytes, bit + i) {
      forall k: nat | k < width ensures Bit(lanes[k], i) <==> Packed(values, 0, |values|, regions, regionBytes, k, i) {
        PackedBits(values, 0, count, regions, regionBytes, width, k, i);
      }
      BatchBit(values, input, bit, regions, regionBytes, width, first, stride, lanes, i);
    }
  }

  lemma BatchBit(
    values: seq<Lanes>, input: seq<nat>, bit: nat, regions: nat, regionBytes: nat, width: nat, first: nat, stride: nat,
    lanes: Lanes, i: nat)
    requires Batch(bit, regions, regionBytes, width, first, stride) && |values| * regions == 4 && i < 4
    requires |lanes| == width
    requires AllGather(values, input, first, stride, stride, width)
    requires forall a :: 0 <= a < |values| ==> |values[a]| == width
    requires forall k: nat :: k < width ==>
             (Bit(lanes[k], i) <==> Packed(values, 0, |values|, regions, regionBytes, k, i))
    ensures SomeLane(lanes, i) <==> RegionNonzero(input, regionBytes, bit + i)
  {
    if SomeLane(lanes, i) {
      var k :| 0 <= k < |lanes| && Bit(lanes[k], i);
      PackedLaneMeansNonzero(values, input, bit, regions, regionBytes, width, first, stride, k, i);
    }
    if RegionNonzero(input, regionBytes, bit + i) {
      var k := NonzeroSetsLane(values, input, bit, regions, regionBytes, width, first, stride, i);
      assert Bit(lanes[k], i);
    }
  }

  lemma PackedByte(
    values: seq<Lanes>, input: seq<nat>, regions: nat, regionBytes: nat, width: nat, first: nat, stride: nat, k: nat,
    i: nat)
    returns (a: nat, p: nat, at: nat)
    requires regions > 0 && AllGather(values, input, first, stride, stride, width)
    requires k < width && Packed(values, 0, |values|, regions, regionBytes, k, i)
    ensures p < stride && p % width == k && at == first + a * stride + p && at < |input| && input[at] != 0
    ensures Position(a, k, regions, regionBytes) == i
  {
    a :| 0 <= a < |values| && values[a][k] != 0 && Position(a, k, regions, regionBytes) == i;
    var start := AccumulatorStart(values, input, first, stride, width, a);
    p := GatheredByte(values[a], input, start, stride, width, k);
    at := start + p;
  }

  lemma AccumulatorStart(
    values: seq<Lanes>, input: seq<nat>, first: nat, stride: nat, width: nat, a: nat) returns (start: nat)
    requires AllGather(values, input, first, stride, stride, width) && a < |values|
    ensures start == first + a * stride && start + stride <= |input| && Gathers(values[a], input, start, stride, width)
  {
    start := first + a * stride;
  }

  lemma PackedLaneMeansNonzero(
    values: seq<Lanes>, input: seq<nat>, bit: nat, regions: nat, regionBytes: nat, width: nat, first: nat, stride: nat,
    k: nat, i: nat)
    requires Batch(bit, regions, regionBytes, width, first, stride)
    requires AllGather(values, input, first, stride, stride, width)
    requires k < width && Packed(values, 0, |values|, regions, regionBytes, k, i)
    ensures RegionNonzero(input, regionBytes, bit + i)
  {
    var a, p, at := PackedByte(values, input, regions, regionBytes, width, first, stride, k, i);
    ByteMeansNonzero(input, bit, regions, regionBytes, width, first, stride, a, p, at, i);
  }

  lemma LaneIsPacked(
    values: seq<Lanes>, input: seq<nat>, regions: nat, regionBytes: nat, width: nat, first: nat, stride: nat, a: nat,
    p: nat, i: nat)
    returns (k: nat)
    requires regions > 0 && AllGather(values, input, first, stride, stride, width) && a < |values| && p < stride
    requires input[first + a * stride + p] != 0 && Position(a, p % width, regions, regionBytes) == i
    ensures k < width && Packed(values, 0, |values|, regions, regionBytes, k, i)
  {
    k := GatheredLane(values[a], input, first + a * stride, stride, width, p);
  }

  /** And every nonzero byte of region `bit + i` sets a lane that belongs to bit `i`. */
  lemma NonzeroSetsLane(
    values: seq<Lanes>, input: seq<nat>, bit: nat, regions: nat, regionBytes: nat, width: nat, first: nat, stride: nat,
    i: nat)
    returns (k: nat)
    requires Batch(bit, regions, regionBytes, width, first, stride)
    requires AllGather(values, input, first, stride, stride, width)
    requires i < regions * |values| && RegionNonzero(input, regionBytes, bit + i)
    ensures k < width && Packed(values, 0, |values|, regions, regionBytes, k, i)
  {
    var a, p := NonzeroByte(input, bit, regions, regionBytes, width, first, stride, |values|, i);
    k := LaneIsPacked(values, input, regions, regionBytes, width, first, stride, a, p, i);
  }

  lemma NonzeroByte(
    input: seq<nat>, bit: nat, regions: nat, regionBytes: nat, width: nat, first: nat, stride: nat, count: nat, i: nat)
    returns (a: nat, p: nat)
    requires Batch(bit, regions, regionBytes, width, first, stride) && i < regions * count
    requires RegionNonzero(input, regionBytes, bit + i)
    ensures a < count && p < stride && first + a * stride + p < |input| && input[first + a * stride + p] != 0
    ensures Position(a, p % width, regions, regionBytes) == i
  {
    var q :| (bit + i) * regionBytes <= q < (bit + i + 1) * regionBytes && q < |input| && input[q] != 0;
    a, p := PlaceOfByte(bit, regions, regionBytes, width, first, stride, count, i, q);
  }

  lemma PlaceOfByte(
    bit: nat, regions: nat, regionBytes: nat, width: nat, first: nat, stride: nat, count: nat, i: nat, q: nat)
    returns (a: nat, p: nat)
    requires Batch(bit, regions, regionBytes, width, first, stride) && i < regions * count
    requires (bit + i) * regionBytes <= q < (bit + i + 1) * regionBytes
    ensures a < count && p < stride && q == first + a * stride + p && Position(a, p % width, regions, regionBytes) == i
  {
    a, p := LocatePosition(bit, regions, regionBytes, width, first, stride, i, q);
    AccumulatorInRange(a, Crossed(p % width, regionBytes, regions - 1), regions, i, count);
  }

  lemma LocatePosition(
    bit: nat, regions: nat, regionBytes: nat, width: nat, first: nat, stride: nat, i: nat, q: nat)
    returns (a: nat, p: nat)
    requires Batch(bit, regions, regionBytes, width, first, stride)
    requires (bit + i) * regionBytes <= q < (bit + i + 1) * regionBytes
    ensures p < stride && q == first + a * stride + p && Position(a, p % width, regions, regionBytes) == i
  {
    a, p := LocateByte(bit, regions, regionBytes, width, first, stride, i, q);
    PositionOfLane(bit, regions, regionBytes, width, first, stride, a, p);
  }

  lemma BatchFits(bit: nat, regionBytes: nat, regions: nat, count: nat, size: nat)
    requires regions in {1, 2, 4} && count == 4 / regions && (bit + 4) * regionBytes <= size
    ensures bit * regionBytes + (count - 1) * (regionBytes * regions) + regionBytes * regions <= size
  {
    assert (bit + 4) * regionBytes == bit * regionBytes + 4 * regionBytes;
  }

  // ----- The whole reduction -----

  function ShiftLanes(v: Lanes, shift: nat): (shifted: Lanes)
    ensures |shifted| == |v| && forall k :: 0 <= k < |v| ==> shifted[k] == ShiftLeft(v[k], shift)
  {
    seq(|v|, k requires 0 <= k < |v| => ShiftLeft(v[k], shift))
  }

  lemma NibbleShift(x: nat, i: nat)
    requires x < 16
    ensures Bit(ShiftLeft(x, 4), i) <==> i >= 4 && Bit(x, i - 4)
  {
    assert Pow2(4) == 16;
    LowBits(0, x, 4, i);
    ZeroHasNoBits(i);
  }

  /** The byte combined from two nibbles of lanes. */
  lemma CombinedBit(low: Lanes, high: Lanes, i: nat)
    requires |low| == |high| && i < 8
    requires forall k :: 0 <= k < |low| ==> low[k] < 16 && high[k] < 16
    ensures Bit(OrAcross(OrLanes(low, ShiftLanes(high, 4))), i) <==>
            if i < 4 then SomeLane(low, i) else SomeLane(high, i - 4)
  {
    var v := OrLanes(low, ShiftLanes(high, 4));
    OrAcrossBit(v, i);
    forall k | 0 <= k < |v| ensures Bit(v[k], i) <==> if i < 4 then Bit(low[k], i) else Bit(high[k], i - 4) {
      OrBit(low[k], ShiftLeft(high[k], 4), i);
      NibbleShift(high[k], i);
      if i >= 4 { HighBitsAreZero(low[k], 4, i); }
    }
    if i < 4 && SomeLane(low, i) { var k :| 0 <= k < |low| && Bit(low[k], i); assert Bit(v[k], i); }
    if i >= 4 && SomeLane(high, i - 4) { var k :| 0 <= k < |high| && Bit(high[k], i - 4); assert Bit(v[k], i); }
  }

  lemma {:induction false} OrAcrossBound(v: Lanes)
    requires forall k :: 0 <= k < |v| ==> v[k] < 256
    ensures OrAcross(v) < 256
  {
    if v != [] {
      OrAcrossBound(v[..|v| - 1]);
      OrBound(OrAcross(v[..|v| - 1]), v[|v| - 1], 8);
    }
  }

  lemma CombinedByte(low: Lanes, high: Lanes)
    requires |low| == |high| && forall k :: 0 <= k < |low| ==> low[k] < 16
    ensures OrAcross(OrLanes(low, ShiftLanes(high, 4))) < 256
  {
    var v := OrLanes(low, ShiftLanes(high, 4));
    forall k | 0 <= k < |v| ensures v[k] < 256 { OrBound(low[k], ShiftLeft(high[k], 4), 8); }
    OrAcrossBound(v);
  }

  /** Bit `i` of the bitmap. */
  predicate BitAt(bytes: seq<nat>, i: nat)
    requires i / 8 < |bytes|
  {
    Bit(bytes[i / 8], i % 8)
  }

  /** The first `n` bits tell the regions apart. */
  ghost predicate Reduced(bytes: seq<nat>, input: seq<nat>, regionBytes: nat, n: nat) {
    n <= 8 * |bytes| && forall i: nat :: i < n ==> (BitAt(bytes, i) <==> RegionNonzero(input, regionBytes, i))
  }

  /** The number of regions, the last of them perhaps partial. */
  function RegionCount(size: nat, regionBytes: nat): nat
    requires regionBytes > 0
  {
    size / regionBytes + if size % regionBytes == 0 then 0 else 1
  }

  lemma RegionsInInput(size: nat, regionBytes: nat, bit: nat)
    requires regionBytes > 0
    ensures bit * regionBytes < size <==> bit < RegionCount(size, regionBytes)
    ensures bit <= size / regionBytes ==> bit * regionBytes <= size
  {
    var q, r := size / regionBytes, size % regionBytes;
    assert size == q * regionBytes + r;
    ProductOrder(bit, q, regionBytes);
    ProductOrder(q + 1, bit, regionBytes);
    ProductOrder(q, bit, regionBytes);
  }

  /** Eight complete regions become one byte. */
  lemma {:induction false} EightRegions(input: seq<nat>, bit: nat, regionBytes: nat, low: Lanes, high: Lanes, i: nat)
    requires |low| == |high| && i < 8 && forall k :: 0 <= k < |low| ==> low[k] < 16 && high[k] < 16
    requires forall j: nat :: j < 4 ==> (SomeLane(low, j) <==> RegionNonzero(input, regionBytes, bit + j))
    requires forall j: nat :: j < 4 ==> (SomeLane(high, j) <==> RegionNonzero(input, regionBytes, bit + 4 + j))
    ensures Bit(OrAcross(OrLanes(low, ShiftLanes(high, 4))), i) <==> RegionNonzero(input, regionBytes, bit + i)
  {
    CombinedBit(low, high, i);
    if i >= 4 {
      var j: nat := i - 4;
      assert SomeLane(high, j) <==> RegionNonzero(input, regionBytes, bit + 4 + j);
      assert bit + 4 + j == bit + i;
    }
  }

  method ReduceEight(input: seq<nat>, bit: nat, regionBytes: nat, width: nat) returns (byte: nat)
    requires regionBytes > 0 && 0 < width <= 256 && (bit + 8) * regionBytes <= |input|
    ensures byte < 256 && forall i: nat :: i < 8 ==> (Bit(byte, i) <==> RegionNonzero(input, regionBytes, bit + i))
  {
    ProductOrder(bit + 4, bit + 8, regionBytes);
    assert (bit + 4 + 4) * regionBytes <= |input|;
    var low := ReduceBatch(input, bit, regionBytes, width);
    var high := ReduceBatch(input, bit + 4, regionBytes, width);
    byte := OrAcross(OrLanes(low, ShiftLanes(high, 4)));
    CombinedByte(low, high);
    forall i: nat | i < 8 ensures Bit(byte, i) <==> RegionNonzero(input, regionBytes, bit + i) {
      EightRegions(input, bit, regionBytes, low, high, i);
    }
  }

  lemma ByteReduces(before: seq<nat>, after: seq<nat>, input: seq<nat>, regionBytes: nat, j: nat)
    requires j < |before| == |after| && Reduced(before, input, regionBytes, 8 * j) && after == before[j := after[j]]
    requires forall i: nat :: i < 8 ==> (Bit(after[j], i) <==> RegionNonzero(input, regionBytes, 8 * j + i))
    ensures Reduced(after, input, regionBytes, 8 * j + 8)
  {
    forall i: nat | i < 8 * j + 8 ensures BitAt(after, i) <==> RegionNonzero(input, regionBytes, i) {
      if i < 8 * j { assert BitAt(before, i) <==> RegionNonzero(input, regionBytes, i); }
      else {
        assert i / 8 == j && i % 8 == i - 8 * j;
        assert Bit(after[j], i % 8) <==> RegionNonzero(input, regionBytes, 8 * j + i % 8);
      }
    }
  }

  /** Any byte of a partial or left-over region. */
  method RegionHasByte(input: seq<nat>, bit: nat, regionBytes: nat, width: nat) returns (any: bool)
    requires regionBytes > 0 && width > 0 && bit * regionBytes < |input|
    ensures any <==> RegionNonzero(input, regionBytes, bit)
  {
    var first := bit * regionBytes;
    var bytes := if regionBytes < |input| - first then regionBytes else |input| - first;
    var values := ReduceRegions(input, first, regionBytes, bytes, 1, false, width);
    any := exists k :: 0 <= k < width && values[0][k] != 0;
    assert Gathers(values[0], input, first + 0 * regionBytes, bytes, width);
    assert (bit + 1) * regionBytes == first + regionBytes;
    if any {
      var k :| 0 <= k < width && values[0][k] != 0;
      var p := GatheredByte(values[0], input, first, bytes, width, k);
      assert input[first + p] != 0;
    }
    if RegionNonzero(input, regionBytes, bit) {
      var q :| bit * regionBytes <= q < (bit + 1) * regionBytes && q < |input| && input[q] != 0;
      var k := GatheredLane(values[0], input, first, bytes, width, q - first);
    }
  }

  lemma SetBit(before: seq<nat>, after: seq<nat>, n: nat)
    requires n / 8 < |before| && after == before[n / 8 := Or(before[n / 8], Pow2(n % 8))]
    ensures BitAt(after, n) && forall i: nat :: i != n && i / 8 < |before| ==> (BitAt(after, i) <==> BitAt(before, i))
  {
    OrBit(before[n / 8], Pow2(n % 8), n % 8);
    PowerBit(n % 8, n % 8);
    forall i: nat | i != n && i / 8 < |before| ensures BitAt(after, i) <==> BitAt(before, i) {
      OrBit(before[n / 8], Pow2(n % 8), i % 8);
      PowerBit(n % 8, i % 8);
    }
  }

  /** Everything from bit `n` on is still clear in the bytes the tail may touch. */
  ghost predicate Clear(bytes: seq<nat>, n: nat, regionCount: nat) {
    forall i: nat :: n <= i && i / 8 < |bytes| && i / 8 * 8 < regionCount ==> !BitAt(bytes, i)
  }

  /**
   Bit `i` of the output is set exactly when region `i`, clipped at the end of
   the input, has a nonzero byte; the rest of the last byte stays clear and no
   other byte changes. The caller provides zeroed bytes for the regions after
   the last whole group of eight.
   */
  method ReduceBitmapUsingSve(input: seq<nat>, output: array<nat>, regionBytes: nat, width: nat)
    requires regionBytes > 0 && 0 < width <= 256 && AreBytes(output[..])
    requires RegionCount(|input|, regionBytes) <= 8 * output.Length
    requires forall j :: |input| / regionBytes / 8 <= j < output.Length && 8 * j < RegionCount(|input|, regionBytes) ==>
             output[j] == 0
    modifies output
    ensures Reduced(output[..], input, regionBytes, RegionCount(|input|, regionBytes)) && AreBytes(output[..])
    ensures Clear(output[..], RegionCount(|input|, regionBytes), RegionCount(|input|, regionBytes))
    ensures forall j :: 0 <= j < output.Length && 8 * j >= RegionCount(|input|, regionBytes) ==>
            output[j] == old(output[j])
  {
    var bit := ReduceWholeBytes(input, output, regionBytes, width);
    RegionsInInput(|input|, regionBytes, bit);
    ReduceTail(input, output, regionBytes, width, bit);
  }

  /** Whole groups of eight complete regions. */
  method ReduceWholeBytes(input: seq<nat>, output: array<nat>, regionBytes: nat, width: nat) returns (bit: nat)
    requires regionBytes > 0 && 0 < width <= 256 && |input| / regionBytes <= 8 * output.Length && AreBytes(output[..])
    modifies output
    ensures bit == |input| / regionBytes / 8 * 8 && Reduced(output[..], input, regionBytes, bit) && AreBytes(output[..])
    ensures forall j :: bit <= 8 * j < 8 * output.Length ==> output[j] == old(output[j])
  {
    var complete := |input| / regionBytes;
    var done := 0;
    bit := 0;
    while complete - bit >= 8
      invariant bit == 8 * done <= complete && done <= output.Length
      invariant Reduced(output[..], input, regionBytes, 8 * done) && AreBytes(output[..])
      invariant forall j :: done <= j < output.Length ==> output[j] == old(output[j])
    {
      ReduceByte(input, output, regionBytes, width, done);
      bit, done := bit + 8, done + 1;
    }
  }

  method ReduceByte(input: seq<nat>, output: array<nat>, regionBytes: nat, width: nat, j: nat)
    requires regionBytes > 0 && 0 < width <= 256 && 8 * j + 8 <= |input| / regionBytes && j < output.Length
    requires AreBytes(output[..])
    requires Reduced(output[..], input, regionBytes, 8 * j)
    modifies output
    ensures Reduced(output[..], input, regionBytes, 8 * j + 8) && AreBytes(output[..])
    ensures forall k :: 0 <= k < output.Length && k != j ==> output[k] == old(output[k])
  {
    RegionsInInput(|input|, regionBytes, 8 * j + 8);
    ghost var before := output[..];
    var byte := ReduceEight(input, 8 * j, regionBytes, width);
    output[j] := byte;
    ByteReduces(before, output[..], input, regionBytes, j);
  }

  method ReduceTail(input: seq<nat>, output: array<nat>, regionBytes: nat, width: nat, start: nat)
    requires regionBytes > 0 && width > 0 && start % 8 == 0
    requires start <= RegionCount(|input|, regionBytes) <= 8 * output.Length
    requires Reduced(output[..], input, regionBytes, start) && AreBytes(output[..])
    requires forall j :: start <= 8 * j < RegionCount(|input|, regionBytes) && j < output.Length ==> output[j] == 0
    modifies output
    ensures Reduced(output[..], input, regionBytes, RegionCount(|input|, regionBytes)) && AreBytes(output[..])
    ensures Clear(output[..], RegionCount(|input|, regionBytes), RegionCount(|input|, regionBytes))
    ensures forall j :: 0 <= j < output.Length && 8 * j >= RegionCount(|input|, regionBytes) ==>
            output[j] == old(output[j])
  {
    var regionCount := RegionCount(|input|, regionBytes);
    var bit := start;
    var firstByte := bit * regionBytes;
    ZeroBytesAreClear(output[..], start, regionCount);
    RegionsInInput(|input|, regionBytes, bit);
    while firstByte < |input|
      invariant firstByte == bit * regionBytes && start <= bit <= regionCount
      invariant (firstByte < |input| <==> bit < regionCount)
      invariant Reduced(output[..], input, regionBytes, bit) && Clear(output[..], bit, regionCount)
      invariant AreBytes(output[..])
      invariant forall j :: 0 <= j < output.Length && 8 * j >= regionCount ==> output[j] == old(output[j])
      decreases regionCount - bit
    {
      var any := RegionHasByte(input, bit, regionBytes, width);
      ghost var before := output[..];
      assert !BitAt(before, bit);
      if any {
        output[bit / 8] := Or(output[bit / 8], Pow2(bit % 8));
        SmallPowers(bit % 8, 7);
        OrBound(before[bit / 8], Pow2(bit % 8), 8);
        SetBit(before, output[..], bit);
      }
      OneMoreBit(before, output[..], input, regionBytes, bit, regionCount);
      assert (bit + 1) * regionBytes == firstByte + regionBytes;
      firstByte, bit := firstByte + regionBytes, bit + 1;
      RegionsInInput(|input|, regionBytes, bit);
    }
  }

  lemma ZeroBytesAreClear(bytes: seq<nat>, start: nat, regionCount: nat)
    requires start % 8 == 0 && forall j :: start <= 8 * j < regionCount && j < |bytes| ==> bytes[j] == 0
    ensures Clear(bytes, start, regionCount)
  {
    forall i: nat | start <= i && i / 8 < |bytes| && i / 8 * 8 < regionCount ensures !BitAt(bytes, i) {
      assert start <= 8 * (i / 8);
      ZeroHasNoBits(i % 8);
    }
  }

  lemma OneMoreBit(before: seq<nat>, after: seq<nat>, input: seq<nat>, regionBytes: nat, bit: nat, regionCount: nat)
    requires bit < regionCount <= 8 * |before| && |after| == |before|
    requires Reduced(before, input, regionBytes, bit) && Clear(before, bit, regionCount)
    requires BitAt(after, bit) <==> RegionNonzero(input, regionBytes, bit)
    requires forall i: nat :: i != bit && i / 8 < |before| ==> (BitAt(after, i) <==> BitAt(before, i))
    ensures Reduced(after, input, regionBytes, bit + 1) && Clear(after, bit + 1, regionCount)
  {
    forall i: nat | i < bit + 1 ensures BitAt(after, i) <==> RegionNonzero(input, regionBytes, i) {
      if i < bit { assert BitAt(before, i) <==> RegionNonzero(input, regionBytes, i); }
    }
  }
}
