/**
 The dirty map of a volume, from the VSS descriptors, the allocation changes
 and the System Volume Information blocks to the bitmap of PBS chunks.
 */
module DirtyMap {
  import opened Arithmetic
  import opened BitmapSets
  import opened Bits
  import opened Common
  import AllocationChanges
  import SveReduction

  /** Bitmap bytes that describe the 256 blocks of one chunk. */
  const REGION: nat := 32

  const FORWARDER: nat := 1

  datatype Descriptor = Descriptor(originalOffset: nat, storeOffset: nat, relativeOffset: nat, flags: nat)

  predicate IsForwarder(d: Descriptor) { And(d.flags, FORWARDER) != 0 }

  /** The offsets a descriptor names. */
  predicate Names(d: Descriptor, offset: nat) {
    offset == d.originalOffset || offset == d.storeOffset || (IsForwarder(d) && offset == d.relativeOffset)
  }

  function BlockStart(offset: nat): nat { offset - offset % BLOCK }

  // ----- Building the map -----

  ghost predicate NamedBlock(descriptors: seq<Descriptor>, volumeSize: nat, block: nat) {
    exists i, offset: nat ::
      0 <= i < |descriptors| && Names(descriptors[i], offset) && offset < volumeSize && BlockStart(offset) == block
  }

  /** The blocks of the volume that descriptors name. */
  ghost function NamedBlocks(descriptors: seq<Descriptor>, volumeSize: nat): set<nat> {
    set b: nat | b < volumeSize && NamedBlock(descriptors, volumeSize, b)
  }

  lemma NamedIff(descriptors: seq<Descriptor>, volumeSize: nat, block: nat)
    ensures block in NamedBlocks(descriptors, volumeSize) <==> NamedBlock(descriptors, volumeSize, block)
  {
  }

  /** A set of block offsets of the volume. */
  ghost predicate IsBlockSet(blocks: BitmapSet)
    reads blocks
  {
    blocks.Valid() && blocks.blockSize == BLOCK
  }

  method Add(blocks: BitmapSet, offset: nat, volumeSize: nat)
    requires IsBlockSet(blocks)
    modifies blocks
    ensures IsBlockSet(blocks)
    ensures blocks.Contents() == old(blocks.Contents()) + if offset < volumeSize then {BlockStart(offset)} else {}
  {
    if offset < volumeSize { var _ := blocks.Insert(offset - offset % BLOCK); }
  }

  /** The offsets of one descriptor. */
  method AddDescriptor(blocks: BitmapSet, d: Descriptor, volumeSize: nat)
    requires IsBlockSet(blocks)
    modifies blocks
    ensures IsBlockSet(blocks)
    ensures forall b: nat :: b in blocks.Contents() <==> b in old(blocks.Contents()) || NamedBy(d, volumeSize, b)
  {
    Add(blocks, d.originalOffset, volumeSize);
    Add(blocks, d.storeOffset, volumeSize);
    if IsForwarder(d) { Add(blocks, d.relativeOffset, volumeSize); }
    forall b: nat { NamedByIff(d, volumeSize, b); }
  }

  method DescriptorBlocks(descriptors: seq<Descriptor>, volumeSize: nat) returns (blocks: BitmapSet)
    ensures fresh(blocks) && IsBlockSet(blocks) && blocks.Contents() == NamedBlocks(descriptors, volumeSize)
  {
    blocks := new BitmapSet(BLOCK);
    for i := 0 to |descriptors|
      invariant fresh(blocks) && IsBlockSet(blocks)
      invariant forall b: nat :: b in blocks.Contents() <==> NamedBlock(descriptors[..i], volumeSize, b)
    {
      AddDescriptor(blocks, descriptors[i], volumeSize);
      forall b: nat { NamedOneMore(descriptors, i, volumeSize, b); }
    }
    assert descriptors[..|descriptors|] == descriptors;
    forall b: nat { NamedIff(descriptors, volumeSize, b); }
  }

  ghost predicate NamedBy(d: Descriptor, volumeSize: nat, block: nat) {
    exists offset: nat :: Names(d, offset) && offset < volumeSize && BlockStart(offset) == block
  }

  lemma NamedByIff(d: Descriptor, volumeSize: nat, b: nat)
    ensures NamedBy(d, volumeSize, b) <==>
            || (d.originalOffset < volumeSize && b == BlockStart(d.originalOffset))
            || (d.storeOffset < volumeSize && b == BlockStart(d.storeOffset))
            || (IsForwarder(d) && d.relativeOffset < volumeSize && b == BlockStart(d.relativeOffset))
  {
    if d.originalOffset < volumeSize && b == BlockStart(d.originalOffset) { assert Names(d, d.originalOffset); }
    if d.storeOffset < volumeSize && b == BlockStart(d.storeOffset) { assert Names(d, d.storeOffset); }
    if IsForwarder(d) && d.relativeOffset < volumeSize && b == BlockStart(d.relativeOffset) {
      assert Names(d, d.relativeOffset);
    }
  }

  lemma NamedOneMore(descriptors: seq<Descriptor>, i: nat, volumeSize: nat, b: nat)
    requires i < |descriptors|
    ensures NamedBlock(descriptors[..i + 1], volumeSize, b) <==>
            NamedBlock(descriptors[..i], volumeSize, b) || NamedBy(descriptors[i], volumeSize, b)
  {
    var more, fewer := descriptors[..i + 1], descriptors[..i];
    if NamedBlock(more, volumeSize, b) {
      var j, offset: nat :| 0 <= j < |more| && Names(more[j], offset) && offset < volumeSize && BlockStart(offset) == b;
      if j < i { assert fewer[j] == more[j]; }
    }
    if NamedBlock(fewer, volumeSize, b) {
      var j, offset: nat :| 0 <= j < |fewer| && Names(fewer[j], offset) && offset < volumeSize &&
        BlockStart(offset) == b;
      assert more[j] == fewer[j];
    }
    if NamedBy(descriptors[i], volumeSize, b) {
      var offset: nat :| Names(descriptors[i], offset) && offset < volumeSize && BlockStart(offset) == b;
      assert more[i] == descriptors[i];
    }
  }

  /** The map, with what each contribution held before the union. */
  datatype DirtyBlockMap = DirtyBlockMap(
    volumeSize: nat, blocks: BitmapSet, descriptorBlockCount: nat, allocationBlockCount: nat, sviBlockCount: nat)

  /** The union of the three sources; bitmaps of another volume size are refused. */
  method BuildDirtyBlockMap(
    descriptors: seq<Descriptor>, volumeSize: nat, allocationSize: nat, allocationBlocks: BitmapSet,
    sviBlocks: BitmapSet)
    returns (result: Option<DirtyBlockMap>)
    requires IsBlockSet(allocationBlocks) && IsBlockSet(sviBlocks) && allocationBlocks != sviBlocks
    modifies allocationBlocks, sviBlocks
    ensures result.None? <==> volumeSize != allocationSize
    ensures result.Some? ==>
              var named := NamedBlocks(descriptors, volumeSize);
              var changed, svi := old(allocationBlocks.Contents()), old(sviBlocks.Contents());
              && result.value.volumeSize == volumeSize
              && fresh(result.value.blocks) && IsBlockSet(result.value.blocks)
              && result.value.blocks.Contents() == named + changed + svi
              && result.value.descriptorBlockCount == |named|
              && result.value.allocationBlockCount == |changed| && result.value.sviBlockCount == |svi|
  {
    var allocationBlockCount := allocationBlocks.size;
    if volumeSize != allocationSize { return None; }
    var sviBlockCount := sviBlocks.size;
    var blocks := DescriptorBlocks(descriptors, volumeSize);
    var descriptorBlockCount := blocks.size;
    SizeIsMembers(allocationBlocks.words, BLOCK);
    SizeIsMembers(sviBlocks.words, BLOCK);
    SizeIsMembers(blocks.words, BLOCK);
    blocks.Merge(allocationBlocks);
    blocks.Merge(sviBlocks);
    return Some(DirtyBlockMap(volumeSize, blocks, descriptorBlockCount, allocationBlockCount, sviBlockCount));
  }

  // ----- The bitmap of chunks -----

  /** The storage of a block set: bit `k` stands for the block at `k * BLOCK`. */
  ghost predicate Represents(storage: seq<nat>, blocks: set<nat>) {
    && AreBytes(storage)
    && (forall b :: b in blocks ==> b % BLOCK == 0)
    && (forall k: nat :: k * BLOCK in blocks <==> k / 8 < |storage| && SveReduction.BitAt(storage, k))
  }

  lemma StorageRepresents(words: seq<nat>)
    ensures Represents(StorageBytes(words), Members(words, BLOCK))
  {
    var storage, blocks := StorageBytes(words), Members(words, BLOCK);
    forall b | b in blocks ensures b % BLOCK == 0 { MemberIff(words, BLOCK, b); }
    forall k: nat ensures k * BLOCK in blocks <==> k / 8 < |storage| && SveReduction.BitAt(storage, k) {
      MemberIff(words, BLOCK, k * BLOCK);
      DivisionIsUnique(k, 0, BLOCK);
      StorageBit(words, k);
    }
  }

  lemma NonzeroByteHasBit(byte: nat) returns (i: nat)
    requires 0 < byte < 256
    ensures i < 8 && Bit(byte, i)
  {
    i := TrailingZeros(byte);
    TrailingZerosIsLowestBit(byte, i);
    TrailingZerosBelow(byte, 8);
  }

  lemma BitMakesByteNonzero(byte: nat, i: nat)
    requires Bit(byte, i)
    ensures byte != 0
  {
    ZeroHasNoBits(i);
  }

  /** A region of the storage is nonzero exactly when the set has a block in that chunk. */
  lemma RegionIsChunk(storage: seq<nat>, blocks: set<nat>, chunk: nat)
    requires Represents(storage, blocks)
    ensures SveReduction.RegionNonzero(storage, REGION, chunk) <==> exists b :: b in blocks && b / CHUNK == chunk
  {
    if SveReduction.RegionNonzero(storage, REGION, chunk) {
      var q :| chunk * REGION <= q < (chunk + 1) * REGION && q < |storage| && storage[q] != 0;
      var i := NonzeroByteHasBit(storage[q]);
      var k := 8 * q + i;
      assert k / 8 == q && k % 8 == i;
      assert SveReduction.BitAt(storage, k);
      assert k * BLOCK in blocks && k * BLOCK / CHUNK == chunk;
    }
    if b :| b in blocks && b / CHUNK == chunk {
      var k := b / BLOCK;
      assert b == k * BLOCK;
      assert SveReduction.BitAt(storage, k);
      BitMakesByteNonzero(storage[k / 8], k % 8);
      assert chunk * REGION <= k / 8 < (chunk + 1) * REGION;
    }
  }

  function Octets(bits: nat): nat { bits / 8 + if bits % 8 != 0 then 1 else 0 }

  ghost predicate ChunkHasBlock(blocks: set<nat>, chunk: nat) { exists b :: b in blocks && b / CHUNK == chunk }

  predicate BitIsSet(bitmap: seq<nat>, chunk: nat) { chunk / 8 < |bitmap| && SveReduction.BitAt(bitmap, chunk) }

  /**
   One bit for every chunk of the volume, the last of them perhaps partial, set exactly
   when a dirty block lies in it.
   */
  method MakeDirtyBitmap(dirty: DirtyBlockMap, width: nat) returns (bitmap: seq<nat>)
    requires IsBlockSet(dirty.blocks) && 0 < width <= 256
    ensures ChunkCount(dirty.volumeSize) <= 8 * |bitmap|
    ensures forall chunk: nat :: BitIsSet(bitmap, chunk) <==> ChunkHasBlock(dirty.blocks.Contents(), chunk)
  {
    var storage := StorageBytes(dirty.blocks.words);
    StorageRepresents(dirty.blocks.words);
    bitmap := ReduceToChunks(storage, Octets(ChunkCount(dirty.volumeSize)), width, dirty.blocks.Contents());
  }

  /** `ReduceBitmap`, with a bitmap of at least `minimum` bytes. */
  method ReduceToChunks(storage: seq<nat>, minimum: nat, width: nat, ghost blocks: set<nat>) returns (bitmap: seq<nat>)
    requires Represents(storage, blocks) && 0 < width <= 256
    ensures minimum <= |bitmap|
    ensures forall chunk: nat :: BitIsSet(bitmap, chunk) <==> ChunkHasBlock(blocks, chunk)
  {
    var bits := SveReduction.RegionCount(|storage|, REGION);
    var size := if Octets(bits) < minimum then minimum else Octets(bits);
    var output := new nat[size](_ => 0);
    SveReduction.ReduceBitmapUsingSve(storage, output, REGION, width);
    bitmap := output[..];
    forall chunk: nat ensures BitIsSet(bitmap, chunk) <==> ChunkHasBlock(blocks, chunk) {
      RegionIsChunk(storage, blocks, chunk);
      if chunk >= bits {
        NothingBeyond(storage, chunk);
        if chunk / 8 < |bitmap| && 8 * (chunk / 8) >= bits { ZeroHasNoBits(chunk % 8); }
      }
    }
  }

  lemma NothingBeyond(storage: seq<nat>, chunk: nat)
    requires chunk >= SveReduction.RegionCount(|storage|, REGION)
    ensures !SveReduction.RegionNonzero(storage, REGION, chunk)
  {
  }

  // ----- End to end -----

  lemma BlockStaysInChunk(offset: nat)
    ensures BlockStart(offset) / CHUNK == offset / CHUNK
  {
    var chunk, start := offset / CHUNK, BlockStart(offset);
    QuotientRange(offset, chunk, CHUNK);
    assert chunk * CHUNK == (256 * chunk) * BLOCK && start == offset / BLOCK * BLOCK;
    MultipleIsAligned(256 * chunk, BLOCK);
    MultipleIsAligned(offset / BLOCK, BLOCK);
    AlignedOrder(chunk * CHUNK, start, BLOCK);
    QuotientRange(start, chunk, CHUNK);
  }

  /** A descriptor names an offset of the volume in the chunk. */
  ghost predicate ChunkIsNamed(descriptors: seq<Descriptor>, volumeSize: nat, chunk: nat) {
    exists i, offset: nat ::
      0 <= i < |descriptors| && Names(descriptors[i], offset) && offset < volumeSize && offset / CHUNK == chunk
  }

  lemma NamedChunkIff(descriptors: seq<Descriptor>, volumeSize: nat, chunk: nat)
    ensures ChunkHasBlock(NamedBlocks(descriptors, volumeSize), chunk) <==> ChunkIsNamed(descriptors, volumeSize, chunk)
  {
    if b :| b in NamedBlocks(descriptors, volumeSize) && b / CHUNK == chunk {
      var i, offset: nat :|
        0 <= i < |descriptors| && Names(descriptors[i], offset) && offset < volumeSize && BlockStart(offset) == b;
      BlockStaysInChunk(offset);
    }
    if i, offset: nat :|
      0 <= i < |descriptors| && Names(descriptors[i], offset) && offset < volumeSize && offset / CHUNK == chunk
    {
      BlockStaysInChunk(offset);
      assert NamedBlock(descriptors, volumeSize, BlockStart(offset));
      NamedIff(descriptors, volumeSize, BlockStart(offset));
    }
  }

  /** A cluster of the volume whose allocation bit differs shares a byte with the chunk. */
  ghost predicate ChunkIsReallocated(
    previous: AllocationChanges.AllocationBitmap, current: AllocationChanges.AllocationBitmap, chunk: nat)
    requires |previous.data| == |current.data|
  {
    exists c: nat ::
      && c < previous.clusterCount && AllocationChanges.BitDiffers(previous.data, current.data, c)
      && AllocationChanges.Touches(chunk * CHUNK, c, previous.clusterSize, CHUNK)
  }

  /** The blocks that the allocation changes yield. */
  ghost predicate AreReallocated(
    blocks: set<nat>, previous: AllocationChanges.AllocationBitmap, current: AllocationChanges.AllocationBitmap)
    requires |previous.data| == |current.data|
  {
    forall x: nat :: x in blocks <==>
      && x % BLOCK == 0
      && exists c: nat ::
           && c < previous.clusterCount && AllocationChanges.BitDiffers(previous.data, current.data, c)
           && AllocationChanges.Touches(x, c, previous.clusterSize, BLOCK)
  }

  /** A cluster shares a byte with a chunk exactly when it shares one with a block of the chunk. */
  lemma ClusterTouchesChunkIff(c: nat, clusterSize: nat, chunk: nat)
    ensures AllocationChanges.Touches(chunk * CHUNK, c, clusterSize, CHUNK) <==>
            exists x: nat :: x % BLOCK == 0 && x / CHUNK == chunk && AllocationChanges.Touches(x, c, clusterSize, BLOCK)
  {
    if AllocationChanges.Touches(chunk * CHUNK, c, clusterSize, CHUNK) {
      assert (c + 1) * clusterSize == c * clusterSize + clusterSize;
      var x := SharedBlock(c * clusterSize, (c + 1) * clusterSize, chunk);
      assert AllocationChanges.Touches(x, c, clusterSize, BLOCK);
    }
    if x: nat :| x % BLOCK == 0 && x / CHUNK == chunk && AllocationChanges.Touches(x, c, clusterSize, BLOCK) {
      BlockIsInsideChunk(x, chunk);
    }
  }

  lemma SharedBlock(from: nat, past: nat, chunk: nat) returns (x: nat)
    requires chunk * CHUNK < past && from < chunk * CHUNK + CHUNK && from < past
    ensures x % BLOCK == 0 && x / CHUNK == chunk && x < past && from < x + BLOCK
  {
    var start := chunk * CHUNK;
    var shared := if from < start then start else from;
    QuotientRange(shared, chunk, CHUNK);
    BlockStaysInChunk(shared);
    MultipleIsAligned(shared / BLOCK, BLOCK);
    x := BlockStart(shared);
  }

  lemma BlockIsInsideChunk(x: nat, chunk: nat)
    requires x % BLOCK == 0 && x / CHUNK == chunk
    ensures chunk * CHUNK <= x && x + BLOCK <= chunk * CHUNK + CHUNK
  {
    QuotientRange(x, chunk, CHUNK);
    assert chunk * CHUNK + CHUNK == (256 * chunk + 256) * BLOCK;
    MultipleIsAligned(256 * chunk + 256, BLOCK);
    AlignedOrder(x + BLOCK, chunk * CHUNK + CHUNK, BLOCK);
  }

  /** The allocation changes make a chunk dirty exactly when a reallocated cluster reaches into it. */
  lemma ReallocatedChunkIff(
    previous: AllocationChanges.AllocationBitmap, current: AllocationChanges.AllocationBitmap, blocks: set<nat>,
    chunk: nat)
    requires |previous.data| == |current.data|
    requires AreReallocated(blocks, previous, current)
    ensures ChunkHasBlock(blocks, chunk) <==> ChunkIsReallocated(previous, current, chunk)
  {
    if x :| x in blocks && x / CHUNK == chunk {
      var c: nat :|
        && c < previous.clusterCount && AllocationChanges.BitDiffers(previous.data, current.data, c)
        && AllocationChanges.Touches(x, c, previous.clusterSize, BLOCK);
      ClusterTouchesChunkIff(c, previous.clusterSize, chunk);
    }
    if ChunkIsReallocated(previous, current, chunk) {
      var c: nat :|
        && c < previous.clusterCount && AllocationChanges.BitDiffers(previous.data, current.data, c)
        && AllocationChanges.Touches(chunk * CHUNK, c, previous.clusterSize, CHUNK);
      ClusterTouchesChunkIff(c, previous.clusterSize, chunk);
      var x: nat :| x % BLOCK == 0 && x / CHUNK == chunk &&
        AllocationChanges.Touches(x, c, previous.clusterSize, BLOCK);
      assert x in blocks;
    }
  }

  lemma ChunkOfUnion(named: set<nat>, changed: set<nat>, svi: set<nat>, chunk: nat)
    ensures ChunkHasBlock(named + changed + svi, chunk) <==>
            ChunkHasBlock(named, chunk) || ChunkHasBlock(changed, chunk) || ChunkHasBlock(svi, chunk)
  {
    if b :| b in named + changed + svi && b / CHUNK == chunk {}
    if b :| b in named && b / CHUNK == chunk { assert b in named + changed + svi; }
    if b :| b in changed && b / CHUNK == chunk { assert b in named + changed + svi; }
    if b :| b in svi && b / CHUNK == chunk { assert b in named + changed + svi; }
  }

  /** What the backup has to read again. */
  ghost predicate ChunkIsDirty(
    descriptors: seq<Descriptor>, volumeSize: nat, previous: AllocationChanges.AllocationBitmap,
    current: AllocationChanges.AllocationBitmap, svi: set<nat>, chunk: nat)
    requires |previous.data| == |current.data|
  {
    || ChunkIsNamed(descriptors, volumeSize, chunk)
    || ChunkIsReallocated(previous, current, chunk)
    || ChunkHasBlock(svi, chunk)
  }

  lemma UnionIsDirty(
    descriptors: seq<Descriptor>, volumeSize: nat, previous: AllocationChanges.AllocationBitmap,
    current: AllocationChanges.AllocationBitmap, changed: set<nat>, svi: set<nat>, chunk: nat)
    requires |previous.data| == |current.data| && AreReallocated(changed, previous, current)
    ensures ChunkHasBlock(NamedBlocks(descriptors, volumeSize) + changed + svi, chunk) <==>
            ChunkIsDirty(descriptors, volumeSize, previous, current, svi, chunk)
  {
    ChunkOfUnion(NamedBlocks(descriptors, volumeSize), changed, svi, chunk);
    NamedChunkIff(descriptors, volumeSize, chunk);
    ReallocatedChunkIff(previous, current, changed, chunk);
  }

  predicate SnapshotsFit(previous: AllocationChanges.Snapshot, current: AllocationChanges.Snapshot, volumeSize: nat) {
    && previous.length == current.length == volumeSize
    && previous.bitmap.clusterSize == current.bitmap.clusterSize
    && previous.bitmap.clusterCount == current.bitmap.clusterCount
  }

  /** What the written bitmap says of the volume: nothing is written when nothing is dirty. */
  ghost predicate Tells(bitmap: Option<seq<nat>>, volumeSize: nat, dirty: nat -> bool) {
    && (bitmap.Some? <==> exists chunk: nat :: dirty(chunk))
    && (bitmap.Some? ==> ChunkCount(volumeSize) <= 8 * |bitmap.value|)
    && (bitmap.Some? ==> forall chunk: nat :: BitIsSet(bitmap.value, chunk) <==> dirty(chunk))
  }

  method BitmapOfMap(map_: DirtyBlockMap, width: nat, ghost dirty: nat -> bool) returns (bitmap: Option<seq<nat>>)
    requires IsBlockSet(map_.blocks) && 0 < width <= 256
    requires forall chunk: nat :: dirty(chunk) <==> ChunkHasBlock(map_.blocks.Contents(), chunk)
    ensures Tells(bitmap, map_.volumeSize, dirty)
  {
    SizeIsMembers(map_.blocks.words, BLOCK);
    if map_.blocks.size == 0 { return None; }
    ghost var block :| block in map_.blocks.Contents();
    assert dirty(block / CHUNK);
    var bits := MakeDirtyBitmap(map_, width);
    return Some(bits);
  }

  /** The chunks that a backup of the current snapshot has to read again. */
  ghost function DirtyChunks(
    descriptors: seq<Descriptor>, volumeSize: nat, previous: AllocationChanges.AllocationBitmap,
    current: AllocationChanges.AllocationBitmap, svi: set<nat>): nat -> bool
    requires |previous.data| == |current.data|
  {
    (chunk: nat) => ChunkIsDirty(descriptors, volumeSize, previous, current, svi, chunk)
  }

  /**
   From two snapshots to the bitmap that is written: there is one exactly when
   the snapshots fit and something is dirty, and its bit for a chunk is set
   exactly when the chunk is dirty.
   */
  method PrepareDirtyBitmap(
    descriptors: seq<Descriptor>, volumeSize: nat, previous: AllocationChanges.Snapshot,
    current: AllocationChanges.Snapshot,
    sviBlocks: BitmapSet, width: nat) returns (bitmap: Option<seq<nat>>)
    requires AllocationChanges.Initialized(previous.bitmap) && AllocationChanges.Initialized(current.bitmap)
    requires IsBlockSet(sviBlocks) && 0 < width <= 256
    modifies sviBlocks
    ensures bitmap.Some? ==> SnapshotsFit(previous, current, volumeSize)
    ensures SnapshotsFit(previous, current, volumeSize) ==>
              Tells(bitmap, volumeSize,
                DirtyChunks(descriptors, volumeSize, previous.bitmap, current.bitmap, old(sviBlocks.Contents())))
  {
    ghost var svi := sviBlocks.Contents();
    var changes := AllocationChanges.ReadAllocationChangeBlocks(previous, current, BLOCK);
    if !changes.Ok? { return None; }
    ghost var changed := changes.value.Contents();
    var result := BuildDirtyBlockMap(descriptors, volumeSize, previous.length, changes.value, sviBlocks);
    if result.None? { return None; }
    ghost var dirty := DirtyChunks(descriptors, volumeSize, previous.bitmap, current.bitmap, svi);
    forall chunk: nat ensures dirty(chunk) <==> ChunkHasBlock(result.value.blocks.Contents(), chunk) {
      UnionIsDirty(descriptors, volumeSize, previous.bitmap, current.bitmap, changed, svi, chunk);
    }
    bitmap := BitmapOfMap(result.value, width, dirty);
  }
}
