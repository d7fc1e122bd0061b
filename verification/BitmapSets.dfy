/** `BitmapSet`: a set of block offsets stored as one bit a block in 64-bit words. */
module BitmapSets {
  import opened Arithmetic
  import opened Bits
  import opened Common

  const WORD_BITS: nat := 64

  /** Bit `k` of the bitmap, zero beyond the words. */
  predicate BitIn(words: seq<nat>, k: nat) { k / WORD_BITS < |words| && Bit(words[k / WORD_BITS], k % WORD_BITS) }

  ghost predicate AreWords(words: seq<nat>) { forall j :: 0 <= j < |words| ==> words[j] < Pow2(WORD_BITS) }

  function CountBits(words: seq<nat>): nat {
    if words == [] then 0 else CountBits(words[..|words| - 1]) + PopCount(words[|words| - 1])
  }

  function Zeros(n: nat): (words: seq<nat>)
    ensures |words| == n && forall j :: 0 <= j < n ==> words[j] == 0
  {
    seq(n, _ => 0)
  }

  /** `resize` to at least `n` words. */
  function Resized(words: seq<nat>, n: nat): seq<nat> { if n <= |words| then words else words + Zeros(n - |words|) }

  lemma {:induction false} CountOfZeros(words: seq<nat>, n: nat)
    ensures CountBits(words + Zeros(n)) == CountBits(words)
  {
    if n == 0 { assert words + Zeros(0) == words; }
    else {
      CountOfZeros(words, n - 1);
      assert (words + Zeros(n))[..|words| + n - 1] == words + Zeros(n - 1);
    }
  }

  lemma ResizedKeepsBits(words: seq<nat>, n: nat)
    requires AreWords(words)
    ensures AreWords(Resized(words, n)) && CountBits(Resized(words, n)) == CountBits(words) && |Resized(words, n)| >= n
    ensures forall k: nat :: BitIn(Resized(words, n), k) <==> BitIn(words, k)
  {
    if n > |words| { CountOfZeros(words, n - |words|); }
    forall k: nat ensures BitIn(Resized(words, n), k) <==> BitIn(words, k) { ZeroHasNoBits(k % WORD_BITS); }
  }

  lemma {:induction false} CountUpdate(words: seq<nat>, j: nat, w: nat)
    requires j < |words|
    ensures CountBits(words[j := w]) == CountBits(words) - PopCount(words[j]) + PopCount(w)
    decreases |words|
  {
    var n := |words| - 1;
    if j == n { assert words[j := w][..n] == words[..n]; }
    else {
      CountUpdate(words[..n], j, w);
      assert words[j := w][..n] == words[..n][j := w];
    }
  }

  /** `insert_bits`: the word gains the bits, and the count those it lacked. */
  function WithBits(words: seq<nat>, j: nat, bits: nat): seq<nat>
    requires j < |words|
  {
    words[j := Or(words[j], bits)]
  }

  lemma WithBitsAdds(words: seq<nat>, j: nat, bits: nat)
    requires j < |words| && AreWords(words) && bits < Pow2(WORD_BITS)
    ensures AreWords(WithBits(words, j, bits))
    ensures CountBits(WithBits(words, j, bits)) == CountBits(words) + PopCount(Without(bits, words[j]))
    ensures forall k: nat :: BitIn(WithBits(words, j, bits), k) <==>
            BitIn(words, k) || (k / WORD_BITS == j && Bit(bits, k % WORD_BITS))
  {
    OrBound(words[j], bits, WORD_BITS);
    CountUpdate(words, j, Or(words[j], bits));
    OrCounts(words[j], bits);
    forall k: nat
      ensures BitIn(WithBits(words, j, bits), k) <==>
              BitIn(words, k) || (k / WORD_BITS == j && Bit(bits, k % WORD_BITS))
    {
      OrBit(words[j], bits, k % WORD_BITS);
    }
  }

  // ----- Masks -----

  const ALL_BITS: nat := Pow2(WORD_BITS) - 1

  /** The bits of a word from `from` on. */
  function FirstMask(from: nat): nat { ALL_BITS * Pow2(from) % Pow2(WORD_BITS) }

  /** The bits of a word up to and including `to`. */
  function LastMask(to: nat): nat
    requires to < WORD_BITS
  {
    ShiftRight(ALL_BITS, WORD_BITS - 1 - to)
  }

  lemma FirstMaskBit(from: nat, i: nat)
    requires from < WORD_BITS
    ensures Bit(FirstMask(from), i) <==> from <= i < WORD_BITS
  {
    ShiftedOnesBit(WORD_BITS, from, i);
  }

  lemma LastMaskBit(to: nat, i: nat)
    requires to < WORD_BITS
    ensures Bit(LastMask(to), i) <==> i <= to
  {
    OnesShiftedRightBit(WORD_BITS, WORD_BITS - 1 - to, i);
  }

  lemma {:induction false} ShiftRightBound(w: nat, n: nat)
    ensures ShiftRight(w, n) <= w
    decreases n
  {
    if n > 0 { ShiftRightBound(w / 2, n - 1); }
  }

  lemma FirstMaskBound(from: nat)
    ensures FirstMask(from) < Pow2(WORD_BITS)
  {
  }

  // ----- The set -----

  /** The block starts in [first, limit). */
  ghost function BlockStarts(first: nat, limit: nat, blockSize: nat): set<nat>
    requires blockSize > 0
  {
    set x: nat | first <= x < limit && x % blockSize == 0
  }

  /** The offsets whose bits are set. */
  ghost function Members(words: seq<nat>, blockSize: nat): set<nat> {
    set k: nat | k < WORD_BITS * |words| && BitIn(words, k) :: k * blockSize
  }

  lemma MemberIff(words: seq<nat>, blockSize: nat, x: nat)
    requires blockSize > 0
    ensures x in Members(words, blockSize) <==> x % blockSize == 0 && BitIn(words, x / blockSize)
  {
    if x in Members(words, blockSize) {
      var k: nat :| k < WORD_BITS * |words| && BitIn(words, k) && x == k * blockSize;
      DivisionIsUnique(k, 0, blockSize);
    }
    if x % blockSize == 0 && BitIn(words, x / blockSize) { QuotientOfMultiple(x, blockSize); }
  }

  /** Block starts of a range, as bits. */
  lemma StartsAreBits(first: nat, limit: nat, blockSize: nat, x: nat)
    requires blockSize > 0 && first % blockSize == 0 && limit % blockSize == 0
    ensures x in BlockStarts(first, limit, blockSize) <==>
            x % blockSize == 0 && first / blockSize <= x / blockSize < limit / blockSize
  {
    QuotientOfMultiple(first, blockSize);
    QuotientOfMultiple(limit, blockSize);
    BoundaryIsCrossed(x, blockSize, first / blockSize);
    BoundaryIsCrossed(x, blockSize, limit / blockSize);
  }

  class BitmapSet {
    const blockSize: nat
    var words: seq<nat>
    var size: nat

    /** The count is that of the bits. */
    ghost predicate Valid()
      reads this
    {
      blockSize > 1 && AreWords(words) && size == CountBits(words)
    }

    ghost function Contents(): set<nat>
      reads this
    {
      Members(words, blockSize)
    }

    constructor (blockSize: nat)
      requires blockSize > 1
      ensures Valid() && Contents() == {} && this.blockSize == blockSize
    {
      this.blockSize, words, size := blockSize, [], 0;
    }

    method Resize(n: nat)
      requires Valid()
      modifies this`words
      ensures Valid() && words == Resized(old(words), n) && |words| >= n
      ensures forall k: nat :: BitIn(words, k) <==> BitIn(old(words), k)
    {
      ResizedKeepsBits(words, n);
      words := Resized(words, n);
    }

    method InsertBits(j: nat, bits: nat)
      requires Valid() && j < |words| && bits < Pow2(WORD_BITS)
      modifies this
      ensures Valid() && |words| == |old(words)|
      ensures forall k: nat :: BitIn(words, k) <==>
              BitIn(old(words), k) || (k / WORD_BITS == j && Bit(bits, k % WORD_BITS))
    {
      WithBitsAdds(words, j, bits);
      size := size + PopCount(Without(bits, words[j]));
      words := WithBits(words, j, bits);
    }

    /** Whole words between the first and the last. */
    method FillWords(first: nat, last: nat)
      requires Valid() && first <= last <= |words|
      modifies this
      ensures Valid() && |words| == |old(words)|
      ensures forall k: nat :: BitIn(words, k) <==> BitIn(old(words), k) || first <= k / WORD_BITS < last
    {
      for j := first to last
        invariant Valid() && |words| == |old(words)|
        invariant forall k: nat :: BitIn(words, k) <==> BitIn(old(words), k) || first <= k / WORD_BITS < j
      {
        InsertBits(j, ALL_BITS);
        forall i: nat | i < WORD_BITS ensures Bit(ALL_BITS, i) { OnesBit(WORD_BITS, i); }
      }
    }

    /**
     Inserts every block offset in [first, last): the masked bits of the first
     and the last word, and all bits of the words between them. A reversed or
     misaligned range would stop the process.
     */
    method InsertRange(first: nat, last: nat)
      requires Valid() && first <= last && first % blockSize == 0 && last % blockSize == 0
      modifies this
      ensures Valid() && Contents() == old(Contents()) + BlockStarts(first, last, blockSize)
    {
      var firstBit, limitBit := first / blockSize, last / blockSize;
      ghost var before := words;
      if firstBit < limitBit { InsertBitRange(firstBit, limitBit - 1); }
      RangeInserted(before, words, first, last, blockSize);
    }

    /** `insert_aligned`. */
    method Insert(value: nat) returns (inserted: bool)
      requires Valid() && value % blockSize == 0
      modifies this
      ensures Valid() && Contents() == old(Contents()) + {value} && inserted == (value !in old(Contents()))
    {
      var bit := value / blockSize;
      var index := bit / WORD_BITS;
      MemberIff(words, blockSize, value);
      ghost var before := words;
      if index >= |words| { Resize(index + 1); }
      PowerBit(bit % WORD_BITS, bit % WORD_BITS);
      SingleBitMask(words[index], bit % WORD_BITS);
      inserted := And(words[index], Pow2(bit % WORD_BITS)) == 0;
      if inserted {
        InsertBits(index, Pow2(bit % WORD_BITS));
        forall k: nat ensures Bit(Pow2(bit % WORD_BITS), k % WORD_BITS) <==> k % WORD_BITS == bit % WORD_BITS {
          PowerBit(bit % WORD_BITS, k % WORD_BITS);
        }
      }
      ValueInserted(before, words, value, blockSize);
    }

    /**
     Moves what this set lacks out of `source`; what both have stays in `source`. A set
     merged with itself stays as it is.
     */
    method Merge(source: BitmapSet)
      requires Valid() && source.Valid() && source.blockSize == blockSize
      modifies this, source
      ensures Valid() && Contents() == old(Contents()) + old(source.Contents())
      ensures source.Valid() && source.Contents() == old(source.Contents()) * old(Contents())
    {
      if source == this { return; }
      if source.size == 0 {
        EmptyHasNoMembers(source.words, blockSize);
        return;
      }
      ghost var before, given := words, source.words;
      Resize(|source.words|);
      ghost var resized := words;
      for j := 0 to |source.words|
        invariant Valid() && source.Valid() && |words| == |resized| && |source.words| == |given|
        invariant Merging(resized, given, words, source.words, j)
      {
        var d, w := words[j], source.words[j];
        MergeWord(words, source.words, j);
        MergingStep(resized, given, words, source.words, j);
        size := size + PopCount(Without(w, d));
        source.size := source.size - PopCount(Without(w, d));
        words := words[j := Or(d, w)];
        source.words := source.words[j := And(w, d)];
      }
      MergedMembers(before, resized, given, words, source.words, blockSize);
    }

    method InsertBitRange(firstBit: nat, lastBit: nat)
      requires Valid() && firstBit <= lastBit
      modifies this
      ensures Valid()
      ensures forall k: nat :: BitIn(words, k) <==> BitIn(old(words), k) || firstBit <= k <= lastBit
    {
      var firstWord, lastWord := firstBit / WORD_BITS, lastBit / WORD_BITS;
      Resize(lastWord + 1);
      var firstMask, lastMask := FirstMask(firstBit % WORD_BITS), LastMask(lastBit % WORD_BITS);
      MaskBits(firstBit, lastBit);
      if firstWord == lastWord {
        InsertBits(firstWord, And(firstMask, lastMask));
      } else {
        InsertBits(firstWord, firstMask);
        FillWords(firstWord + 1, lastWord);
        InsertBits(lastWord, lastMask);
      }
      forall k: nat ensures BitIn(words, k) <==> BitIn(old(words), k) || firstBit <= k <= lastBit {
        BitPosition(firstBit, k);
        BitPosition(k, lastBit);
      }
    }
  }

  /** The masks as ranges of bits. */
  lemma MaskBits(firstBit: nat, lastBit: nat)
    ensures var firstMask, lastMask := FirstMask(firstBit % WORD_BITS), LastMask(lastBit % WORD_BITS);
            && firstMask < Pow2(WORD_BITS) && lastMask < Pow2(WORD_BITS) && And(firstMask, lastMask) < Pow2(WORD_BITS)
            && (forall i: nat :: i < WORD_BITS ==> (Bit(firstMask, i) <==> firstBit % WORD_BITS <= i))
            && (forall i: nat :: i < WORD_BITS ==> (Bit(lastMask, i) <==> i <= lastBit % WORD_BITS))
            && (forall i: nat :: i < WORD_BITS ==>
                  (Bit(And(firstMask, lastMask), i) <==> firstBit % WORD_BITS <= i <= lastBit % WORD_BITS))
  {
    var firstMask, lastMask := FirstMask(firstBit % WORD_BITS), LastMask(lastBit % WORD_BITS);
    FirstMaskBound(firstBit % WORD_BITS);
    ShiftRightBound(ALL_BITS, WORD_BITS - 1 - lastBit % WORD_BITS);
    AndBound(firstMask, lastMask);
    forall i: nat | i < WORD_BITS
      ensures Bit(firstMask, i) <==> firstBit % WORD_BITS <= i
      ensures Bit(lastMask, i) <==> i <= lastBit % WORD_BITS
      ensures Bit(And(firstMask, lastMask), i) <==> firstBit % WORD_BITS <= i <= lastBit % WORD_BITS
    {
      FirstMaskBit(firstBit % WORD_BITS, i);
      LastMaskBit(lastBit % WORD_BITS, i);
      AndBit(firstMask, lastMask, i);
    }
  }

  /** Bits are ordered by word, and within a word by position. */
  lemma BitPosition(a: nat, b: nat)
    ensures a <= b <==>
            a / WORD_BITS < b / WORD_BITS || (a / WORD_BITS == b / WORD_BITS && a % WORD_BITS <= b % WORD_BITS)
  {
  }

  lemma RangeInserted(before: seq<nat>, after: seq<nat>, first: nat, last: nat, blockSize: nat)
    requires blockSize > 0 && first <= last && first % blockSize == 0 && last % blockSize == 0
    requires forall k: nat :: BitIn(after, k) <==> BitIn(before, k) || first / blockSize <= k < last / blockSize
    ensures Members(after, blockSize) == Members(before, blockSize) + BlockStarts(first, last, blockSize)
  {
    forall x: nat
      ensures x in Members(after, blockSize) <==>
              x in Members(before, blockSize) || x in BlockStarts(first, last, blockSize)
    {
      MemberIff(after, blockSize, x);
      MemberIff(before, blockSize, x);
      StartsAreBits(first, last, blockSize, x);
    }
  }

  lemma SingleBitMask(w: nat, i: nat)
    requires i < WORD_BITS
    ensures Pow2(i) < Pow2(WORD_BITS)
    ensures And(w, Pow2(i)) == 0 <==> !Bit(w, i)
  {
    PowersGrow(i, WORD_BITS);
    AndWithPower(w, i);
  }

  lemma {:induction false} PowersGrow(a: nat, b: nat)
    requires a < b
    ensures Pow2(a) < Pow2(b)
    decreases b
  {
    if a < b - 1 { PowersGrow(a, b - 1); }
  }

  lemma {:induction false} AndWithPower(w: nat, i: nat)
    ensures And(w, Pow2(i)) == if Bit(w, i) then Pow2(i) else 0
    decreases i
  {
    if w == 0 { ZeroHasNoBits(i); }
    else if i > 0 { AndWithPower(w / 2, i - 1); }
    else { assert Pow2(0) / 2 == 0; }
  }

  lemma ValueInserted(before: seq<nat>, after: seq<nat>, value: nat, blockSize: nat)
    requires blockSize > 0 && value % blockSize == 0
    requires forall k: nat :: BitIn(after, k) <==> BitIn(before, k) || k == value / blockSize
    ensures Members(after, blockSize) == Members(before, blockSize) + {value}
  {
    forall x: nat ensures x in Members(after, blockSize) <==> x in Members(before, blockSize) || x == value {
      MemberIff(after, blockSize, x);
      MemberIff(before, blockSize, x);
      if x % blockSize == 0 && x / blockSize == value / blockSize {
        QuotientOfMultiple(x, blockSize);
        QuotientOfMultiple(value, blockSize);
      }
    }
  }

  // ----- Merging -----

  lemma {:induction false} NoBitsCounted(words: seq<nat>, j: nat)
    requires CountBits(words) == 0 && j < |words|
    ensures PopCount(words[j]) == 0
    decreases |words|
  {
    if j < |words| - 1 { NoBitsCounted(words[..|words| - 1], j); }
  }

  lemma EmptyHasNoMembers(words: seq<nat>, blockSize: nat)
    requires CountBits(words) == 0
    ensures Members(words, blockSize) == {}
  {
    forall k: nat | k < WORD_BITS * |words| ensures !BitIn(words, k) {
      NoBitsCounted(words, k / WORD_BITS);
      if Bit(words[k / WORD_BITS], k % WORD_BITS) { SomeBitCounts(words[k / WORD_BITS], k % WORD_BITS); }
    }
  }

  /** The first `j` words have been merged. */
  ghost predicate Merging(resized: seq<nat>, given: seq<nat>, words: seq<nat>, rest: seq<nat>, j: nat) {
    && j <= |given| == |rest| && |given| <= |resized| == |words|
    && (forall i :: 0 <= i < j ==> words[i] == Or(resized[i], given[i]) && rest[i] == And(given[i], resized[i]))
    && (forall i :: j <= i < |given| ==> rest[i] == given[i])
    && (forall i :: j <= i < |words| ==> words[i] == resized[i])
  }

  lemma MergingStep(resized: seq<nat>, given: seq<nat>, words: seq<nat>, rest: seq<nat>, j: nat)
    requires Merging(resized, given, words, rest, j) && j < |given|
    ensures Merging(resized, given, words[j := Or(words[j], rest[j])], rest[j := And(rest[j], words[j])], j + 1)
  {
  }

  /** What one word gains the other loses. */
  lemma MergeWord(words: seq<nat>, rest: seq<nat>, j: nat)
    requires AreWords(words) && AreWords(rest) && j < |words| && j < |rest|
    ensures AreWords(words[j := Or(words[j], rest[j])]) && AreWords(rest[j := And(rest[j], words[j])])
    ensures CountBits(words[j := Or(words[j], rest[j])]) == CountBits(words) + PopCount(Without(rest[j], words[j]))
    ensures CountBits(rest[j := And(rest[j], words[j])]) == CountBits(rest) - PopCount(Without(rest[j], words[j]))
  {
    OrBound(words[j], rest[j], WORD_BITS);
    AndBound(rest[j], words[j]);
    OrCounts(words[j], rest[j]);
    AndCounts(rest[j], words[j]);
    CountUpdate(words, j, Or(words[j], rest[j]));
    CountUpdate(rest, j, And(rest[j], words[j]));
  }

  lemma MergedBits(before: seq<nat>, resized: seq<nat>, given: seq<nat>, words: seq<nat>, rest: seq<nat>, k: nat)
    requires Merging(resized, given, words, rest, |given|) && (BitIn(resized, k) <==> BitIn(before, k))
    ensures BitIn(words, k) <==> BitIn(before, k) || BitIn(given, k)
    ensures BitIn(rest, k) <==> BitIn(given, k) && BitIn(before, k)
  {
    var i := k / WORD_BITS;
    if i < |given| {
      OrBit(resized[i], given[i], k % WORD_BITS);
      AndBit(given[i], resized[i], k % WORD_BITS);
    }
  }

  lemma MergedMembers(
    before: seq<nat>, resized: seq<nat>, given: seq<nat>, words: seq<nat>, rest: seq<nat>, blockSize: nat)
    requires blockSize > 0 && Merging(resized, given, words, rest, |given|)
    requires forall k: nat :: BitIn(resized, k) <==> BitIn(before, k)
    ensures Members(words, blockSize) == Members(before, blockSize) + Members(given, blockSize)
    ensures Members(rest, blockSize) == Members(given, blockSize) * Members(before, blockSize)
  {
    forall x: nat
      ensures x in Members(words, blockSize) <==> x in Members(before, blockSize) || x in Members(given, blockSize)
      ensures x in Members(rest, blockSize) <==> x in Members(given, blockSize) && x in Members(before, blockSize)
    {
      MemberIff(words, blockSize, x);
      MemberIff(rest, blockSize, x);
      MemberIff(before, blockSize, x);
      MemberIff(given, blockSize, x);
      MergedBits(before, resized, given, words, rest, x / blockSize);
    }
  }

  // ----- The storage as bytes -----

  /** Byte `j` of a little-endian word. */
  function ByteOf(w: nat, j: nat): nat { ShiftRight(w, 8 * j) % 256 }

  function StorageBytes(words: seq<nat>): (bytes: seq<nat>)
    ensures |bytes| == 8 * |words| && AreBytes(bytes)
  {
    seq(8 * |words|, (j: nat) requires j < 8 * |words| => ByteOf(words[j / 8], j % 8))
  }

  /** Seen as bytes, the bitmap has the same bits. */
  lemma StorageBit(words: seq<nat>, k: nat)
    ensures k / 8 < |StorageBytes(words)| <==> k / WORD_BITS < |words|
    ensures k / 8 < |StorageBytes(words)| ==> (Bit(StorageBytes(words)[k / 8], k % 8) <==> BitIn(words, k))
  {
    if k / WORD_BITS < |words| {
      var w, j := words[k / WORD_BITS], k / 8 % 8;
      LowByteBit(ShiftRight(w, 8 * j), k % 8);
      ShiftRightBit(w, 8 * j, k % 8);
      assert 8 * j + k % 8 == k % WORD_BITS && k / 8 / 8 == k / WORD_BITS;
    }
  }

  // ----- The count is the number of members -----

  /** How many of the first `n` bits of a word are set. */
  function OnesIn(w: nat, n: nat): nat { if n == 0 then 0 else OnesIn(w, n - 1) + if Bit(w, n - 1) then 1 else 0 }

  lemma {:induction false} OnesShift(w: nat, n: nat)
    requires n > 0
    ensures OnesIn(w, n) == w % 2 + OnesIn(w / 2, n - 1)
  {
    if n > 1 { OnesShift(w, n - 1); }
    else { assert OnesIn(w, 1) == OnesIn(w, 0) + if Bit(w, 0) then 1 else 0; }
  }

  lemma {:induction false} PopCountIsOnes(w: nat, n: nat)
    requires w < Pow2(n)
    ensures PopCount(w) == OnesIn(w, n)
    decreases n
  {
    if n > 0 {
      OnesShift(w, n);
      PopCountIsOnes(w / 2, n - 1);
    }
  }

  /** How many of the first `n` bits of the bitmap are set. */
  function OnesUpTo(words: seq<nat>, n: nat): nat {
    if n == 0 then 0 else OnesUpTo(words, n - 1) + if BitIn(words, n - 1) then 1 else 0
  }

  lemma {:induction false} OnesOfWord(words: seq<nat>, j: nat, i: nat)
    requires j < |words| && i <= WORD_BITS
    ensures OnesUpTo(words, WORD_BITS * j + i) == OnesUpTo(words, WORD_BITS * j) + OnesIn(words[j], i)
    decreases i
  {
    if i > 0 {
      OnesOfWord(words, j, i - 1);
      var k := WORD_BITS * j + i - 1;
      assert k / WORD_BITS == j && k % WORD_BITS == i - 1;
    }
  }

  lemma {:induction false} CountIsOnes(words: seq<nat>, j: nat)
    requires AreWords(words) && j <= |words|
    ensures OnesUpTo(words, WORD_BITS * j) == CountBits(words[..j])
    decreases j
  {
    if j > 0 {
      CountIsOnes(words, j - 1);
      OneMoreWord(words, j - 1, WORD_BITS);
      assert words[..j][..j - 1] == words[..j - 1];
    }
  }

  lemma OneMoreWord(words: seq<nat>, j: nat, n: nat)
    requires AreWords(words) && j < |words| && n == WORD_BITS
    ensures OnesUpTo(words, WORD_BITS * j + n) == OnesUpTo(words, WORD_BITS * j) + PopCount(words[j])
  {
    OnesOfWord(words, j, n);
    PopCountIsOnes(words[j], n);
  }

  ghost function MembersUpTo(words: seq<nat>, blockSize: nat, n: nat): set<nat> {
    set k: nat | k < n && BitIn(words, k) :: k * blockSize
  }

  lemma {:induction false} OnesIsSize(words: seq<nat>, blockSize: nat, n: nat)
    requires blockSize > 0
    ensures |MembersUpTo(words, blockSize, n)| == OnesUpTo(words, n)
    decreases n
  {
    if n == 0 { assert MembersUpTo(words, blockSize, 0) == {}; }
    else {
      OnesIsSize(words, blockSize, n - 1);
      var earlier := MembersUpTo(words, blockSize, n - 1);
      NotYetMember(words, blockSize, n - 1);
      if BitIn(words, n - 1) { assert MembersUpTo(words, blockSize, n) == earlier + {(n - 1) * blockSize}; }
      else { assert MembersUpTo(words, blockSize, n) == earlier; }
    }
  }

  lemma NotYetMember(words: seq<nat>, blockSize: nat, n: nat)
    requires blockSize > 0
    ensures n * blockSize !in MembersUpTo(words, blockSize, n)
  {
    forall k: nat | k < n ensures k * blockSize != n * blockSize { ProductOrder(k + 1, n, blockSize); }
  }

  /** The count kept by insertion and merging is the number of members. */
  lemma SizeIsMembers(words: seq<nat>, blockSize: nat)
    requires AreWords(words) && blockSize > 0
    ensures CountBits(words) == |Members(words, blockSize)|
  {
    var n := WORD_BITS * |words|;
    CountIsOnes(words, |words|);
    assert words[..|words|] == words;
    OnesIsSize(words, blockSize, n);
    assert MembersUpTo(words, blockSize, n) == Members(words, blockSize);
  }
}
