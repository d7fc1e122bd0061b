/** Machine words as natural numbers: bits, bitwise operators, and the carry that runs through a run of ones. */
module Bits {
  import opened Arithmetic

  function Bit(w: nat, i: nat): bool
    decreases i
  {
    if i == 0 then w % 2 == 1 else Bit(w / 2, i - 1)
  }

  function And(a: nat, b: nat): nat {
    if a == 0 || b == 0 then 0 else (if a % 2 == 1 && b % 2 == 1 then 1 else 0) + 2 * And(a / 2, b / 2)
  }

  function Xor(a: nat, b: nat): nat
    decreases a + b
  {
    if a + b == 0 then 0 else (if a % 2 != b % 2 then 1 else 0) + 2 * Xor(a / 2, b / 2)
  }

  function Or(a: nat, b: nat): nat
    decreases a + b
  {
    if a + b == 0 then 0 else (if a % 2 == 1 || b % 2 == 1 then 1 else 0) + 2 * Or(a / 2, b / 2)
  }

  function Pow2(n: nat): (p: nat)
    ensures p > 0
  {
    if n == 0 then 1 else 2 * Pow2(n - 1)
  }

  function PopCount(w: nat): nat { if w == 0 then 0 else w % 2 + PopCount(w / 2) }

  /** The number of zero bits below the lowest set bit. */
  function TrailingZeros(w: nat): nat
    requires w != 0
  {
    if w % 2 == 1 then 0 else 1 + TrailingZeros(w / 2)
  }

  lemma {:induction false} ZeroHasNoBits(i: nat)
    ensures !Bit(0, i)
  {
    if i > 0 { ZeroHasNoBits(i - 1); }
  }

  lemma {:induction false} AndBit(a: nat, b: nat, i: nat)
    ensures Bit(And(a, b), i) <==> Bit(a, i) && Bit(b, i)
    decreases i
  {
    if a == 0 || b == 0 { ZeroHasNoBits(i); }
    else if i > 0 { AndBit(a / 2, b / 2, i - 1); }
  }

  lemma {:induction false} XorBit(a: nat, b: nat, i: nat)
    ensures Bit(Xor(a, b), i) <==> Bit(a, i) != Bit(b, i)
    decreases i
  {
    if a + b == 0 { ZeroHasNoBits(i); }
    else if i > 0 { XorBit(a / 2, b / 2, i - 1); }
  }

  lemma {:induction false} OrBit(a: nat, b: nat, i: nat)
    ensures Bit(Or(a, b), i) <==> Bit(a, i) || Bit(b, i)
    decreases i
  {
    if a + b == 0 { ZeroHasNoBits(i); }
    else if i > 0 { OrBit(a / 2, b / 2, i - 1); }
  }

  lemma {:induction false} OrBound(a: nat, b: nat, n: nat)
    requires a < Pow2(n) && b < Pow2(n)
    ensures Or(a, b) < Pow2(n)
    decreases n
  {
    if n > 0 { OrBound(a / 2, b / 2, n - 1); }
  }

  lemma {:induction false} OrIsZero(a: nat, b: nat)
    ensures Or(a, b) == 0 <==> a == 0 && b == 0
    decreases a + b
  {
    if a + b > 0 { OrIsZero(a / 2, b / 2); }
  }

  /** A power of two has one bit. */
  lemma {:induction false} PowerBit(n: nat, i: nat)
    ensures Bit(Pow2(n), i) <==> i == n
    decreases n
  {
    if n == 0 {
      if i > 0 { ZeroHasNoBits(i - 1); }
    } else if i > 0 { PowerBit(n - 1, i - 1); }
  }

  lemma {:induction false} XorBound(a: nat, b: nat, n: nat)
    requires a < Pow2(n) && b < Pow2(n)
    ensures Xor(a, b) < Pow2(n)
    decreases n
  {
    if n > 0 { XorBound(a / 2, b / 2, n - 1); }
  }

  lemma {:induction false} AndBound(a: nat, b: nat)
    ensures And(a, b) <= a
    decreases a
  {
    if a > 0 && b > 0 { AndBound(a / 2, b / 2); }
  }

  /** A number above the low n bits is shifted up by n, and leaves them alone. */
  lemma {:induction false} LowBits(b: nat, w: nat, n: nat, i: nat)
    requires b < Pow2(n)
    ensures i < n ==> (Bit(b + Pow2(n) * w, i) <==> Bit(b, i))
    ensures i >= n ==> (Bit(b + Pow2(n) * w, i) <==> Bit(w, i - n))
    decreases n
  {
    if n > 0 {
      var half := Pow2(n - 1) * w;
      DoubleProduct(Pow2(n - 1), w);
      HalfOfSum(b, half);
      LowBits(b / 2, w, n - 1, if i == 0 then 0 else i - 1);
    }
  }

  lemma DoubleProduct(p: nat, w: nat)
    ensures (2 * p) * w == 2 * (p * w)
  {
  }

  lemma HalfOfSum(b: nat, half: nat)
    ensures (b + 2 * half) / 2 == b / 2 + half && (b + 2 * half) % 2 == b % 2
  {
  }

  lemma {:induction false} TrailingZerosIsLowestBit(w: nat, i: nat)
    requires w != 0
    ensures Bit(w, TrailingZeros(w)) && (i < TrailingZeros(w) ==> !Bit(w, i))
    decreases w
  {
    if w % 2 == 0 { TrailingZerosIsLowestBit(w / 2, if i == 0 then 0 else i - 1); }
  }

  lemma {:induction false} HighBitsAreZero(w: nat, n: nat, i: nat)
    requires w < Pow2(n) && n <= i
    ensures !Bit(w, i)
    decreases n
  {
    if n == 0 { ZeroHasNoBits(i); } else { HighBitsAreZero(w / 2, n - 1, i - 1); }
  }

  /** Adding one turns the low run of ones into zeros and sets the bit above it. */
  lemma {:induction false} IncrementCarries(w: nat, i: nat)
    ensures var limit := TrailingZeros(w + 1);
            && (i < limit ==> Bit(w, i) && !Bit(w + 1, i))
            && (i == limit ==> !Bit(w, i) && Bit(w + 1, i))
            && (i > limit ==> (Bit(w, i) <==> Bit(w + 1, i)))
    decreases w
  {
    if w % 2 == 1 {
      assert (w + 1) / 2 == w / 2 + 1;
      IncrementCarries(w / 2, if i == 0 then 0 else i - 1);
    } else {
      assert (w + 1) / 2 == w / 2;
    }
  }

  /** Adding at the lowest set bit does the same to the lowest run, wherever it starts. */
  lemma {:induction false} CarryThroughRun(w: nat, i: nat)
    requires w != 0
    ensures var first := TrailingZeros(w); var sum := w + Pow2(first); var limit := TrailingZeros(sum);
            && first < limit
            && (first <= i < limit ==> Bit(w, i))
            && (i == limit ==> !Bit(w, i))
            && (i < limit ==> !Bit(sum, i))
            && (i > limit ==> (Bit(w, i) <==> Bit(sum, i)))
    decreases w
  {
    if w % 2 == 1 {
      IncrementCarries(w, i);
      IncrementCarries(w, 0);
    } else {
      assert (w + Pow2(TrailingZeros(w))) / 2 == w / 2 + Pow2(TrailingZeros(w / 2));
      CarryThroughRun(w / 2, if i == 0 then 0 else i - 1);
    }
  }

  lemma {:induction false} RoundUpStaysBelow(w: nat, n: nat)
    requires 0 < w < Pow2(n)
    ensures w + Pow2(TrailingZeros(w)) <= Pow2(n)
    decreases w
  {
    if w % 2 == 0 { RoundUpStaysBelow(w / 2, n - 1); }
  }

  lemma {:induction false} TrailingZerosOfPower(n: nat)
    ensures Pow2(n) > 0 && TrailingZeros(Pow2(n)) == n
  {
    if n > 0 { TrailingZerosOfPower(n - 1); }
  }

  lemma {:induction false} TrailingZerosBelow(w: nat, n: nat)
    requires 0 < w < Pow2(n)
    ensures TrailingZeros(w) < n
    decreases n
  {
    if w % 2 == 0 { TrailingZerosBelow(w / 2, n - 1); }
  }

  // ----- Masks and shifts -----

  /** The bits of `a` that `b` lacks. */
  function Without(a: nat, b: nat): nat {
    if a == 0 then 0 else (if a % 2 == 1 && b % 2 == 0 then 1 else 0) + 2 * Without(a / 2, b / 2)
  }

  /** Setting bits adds as many as were not set before. */
  lemma {:induction false} OrCounts(a: nat, b: nat)
    ensures PopCount(Or(a, b)) == PopCount(a) + PopCount(Without(b, a))
    decreases a + b
  {
    if a + b > 0 {
      OrCounts(a / 2, b / 2);
      OrCountsLowBit(a, b);
      if b > 0 { WithoutCountsLowBit(b, a); }
    }
  }

  lemma {:induction false} OrCountsLowBit(a: nat, b: nat)
    requires a + b > 0
    ensures PopCount(Or(a, b)) == (if a % 2 == 1 || b % 2 == 1 then 1 else 0) + PopCount(Or(a / 2, b / 2))
  {
    CountOneMore(if a % 2 == 1 || b % 2 == 1 then 1 else 0, Or(a / 2, b / 2));
  }

  lemma {:induction false} WithoutCountsLowBit(a: nat, b: nat)
    requires a > 0
    ensures PopCount(Without(a, b)) == (if a % 2 == 1 && b % 2 == 0 then 1 else 0) + PopCount(Without(a / 2, b / 2))
  {
    CountOneMore(if a % 2 == 1 && b % 2 == 0 then 1 else 0, Without(a / 2, b / 2));
  }

  /** Bits are kept or dropped. */
  lemma {:induction false} AndCounts(a: nat, b: nat)
    ensures PopCount(a) == PopCount(And(a, b)) + PopCount(Without(a, b))
    decreases a
  {
    if a > 0 {
      AndCounts(a / 2, b / 2);
      CountOneMore(if a % 2 == 1 && b % 2 == 0 then 1 else 0, Without(a / 2, b / 2));
      if b > 0 { CountOneMore(if a % 2 == 1 && b % 2 == 1 then 1 else 0, And(a / 2, b / 2)); }
    }
  }

  lemma CountOneMore(low: nat, high: nat)
    requires low < 2
    ensures PopCount(low + 2 * high) == low + PopCount(high)
  {
    assert (low + 2 * high) % 2 == low && (low + 2 * high) / 2 == high;
  }

  lemma {:induction false} OnesBit(n: nat, i: nat)
    ensures Bit(Pow2(n) - 1, i) <==> i < n
    decreases n
  {
    if n == 0 { ZeroHasNoBits(i); }
    else if i > 0 {
      assert (Pow2(n) - 1) / 2 == Pow2(n - 1) - 1;
      OnesBit(n - 1, i - 1);
    }
  }

  lemma {:induction false} PowerSum(a: nat, b: nat)
    ensures Pow2(a + b) == Pow2(a) * Pow2(b)
    decreases a
  {
    if a > 0 {
      PowerSum(a - 1, b);
      DoubleProduct(Pow2(a - 1), Pow2(b));
    }
  }

  /** A shift to the right, bit by bit. */
  function ShiftRight(w: nat, n: nat): nat
    decreases n
  {
    if n == 0 then w else ShiftRight(w / 2, n - 1)
  }

  lemma {:induction false} ShiftRightBit(w: nat, n: nat, i: nat)
    ensures Bit(ShiftRight(w, n), i) <==> Bit(w, n + i)
    decreases n
  {
    if n > 0 { ShiftRightBit(w / 2, n - 1, i); }
  }

  lemma ByteIsLow(b: nat, w: nat, i: nat)
    requires b < 256
    ensures i < 8 ==> (Bit(b + 256 * w, i) <==> Bit(b, i))
    ensures i >= 8 ==> (Bit(b + 256 * w, i) <==> Bit(w, i - 8))
  {
    LowBits(b, w, 8, i);
  }

  lemma LowByteBit(w: nat, i: nat)
    requires i < 8
    ensures Bit(w % 256, i) <==> Bit(w, i)
  {
    ByteIsLow(w % 256, w / 256, i);
  }

  /** An n-bit register of ones shifted to the left: the bits from `shift` on. */
  lemma ShiftedOnesBit(n: nat, shift: nat, i: nat)
    requires shift <= n
    ensures Bit((Pow2(n) - 1) * Pow2(shift) % Pow2(n), i) <==> shift <= i < n
  {
    var w := Pow2(n - shift) - 1;
    ShiftedOnes(n, shift);
    LowBits(0, w, shift, i);
    ZeroHasNoBits(i);
    if shift <= i { OnesBit(n - shift, i - shift); }
  }

  lemma ShiftedOnes(n: nat, shift: nat)
    requires shift <= n
    ensures (Pow2(n) - 1) * Pow2(shift) % Pow2(n) == Pow2(shift) * (Pow2(n - shift) - 1)
  {
    PowerSum(n - shift, shift);
    OnesProduct(Pow2(n - shift), Pow2(shift), Pow2(n));
  }

  lemma OnesProduct(p: nat, q: nat, pq: nat)
    requires p > 0 && q > 0 && pq == p * q
    ensures (pq - 1) * q % pq == q * (p - 1)
  {
    var r := q * (p - 1);
    assert r == pq - q;
    assert (pq - 1) * q == (q - 1) * pq + r;
    DivisionIsUnique(q - 1, r, pq);
  }

  /** And shifted to the right: the low bits that remain. */
  lemma OnesShiftedRightBit(n: nat, shift: nat, i: nat)
    requires shift <= n
    ensures Bit(ShiftRight(Pow2(n) - 1, shift), i) <==> i < n - shift
  {
    ShiftRightBit(Pow2(n) - 1, shift, i);
    OnesBit(n, shift + i);
  }

  // ----- One iteration of the run scan on an n-bit register -----

  /** What the register holds after the addition: it wraps at 2^n. */
  function AfterRun(w: nat, n: nat): nat
    requires w != 0
  {
    (w + Pow2(TrailingZeros(w))) % Pow2(n)
  }

  function RunLimit(w: nat, n: nat): nat
    requires w != 0
  {
    if AfterRun(w, n) == 0 then n else TrailingZeros(AfterRun(w, n))
  }

  lemma Wraps(sum: nat, m: nat)
    requires 0 < m && sum <= m
    ensures sum % m == if sum == m then 0 else sum
  {
    if sum == m { assert m % m == 0; }
  }

  /** The addition either fits or is exactly 2^n, and then the limit is the top of the register. */
  lemma RunLimitIsUnwrapped(w: nat, n: nat)
    requires 0 < w < Pow2(n)
    ensures var sum := w + Pow2(TrailingZeros(w));
            && sum != 0 && RunLimit(w, n) == TrailingZeros(sum) <= n
            && (AfterRun(w, n) == sum || (AfterRun(w, n) == 0 && RunLimit(w, n) == n))
  {
    var sum := w + Pow2(TrailingZeros(w));
    RoundUpStaysBelow(w, n);
    Wraps(sum, Pow2(n));
    TrailingZerosOfPower(n);
    if sum < Pow2(n) { TrailingZerosBelow(sum, n); }
  }

  /**
   The carry trick: the lowest set bit and the limit it computes bound a maximal
   run of ones, also when the run reaches the top bit and the sum wraps to
   zero, and masking with the sum removes exactly that run.
   */
  lemma RunIsMaximal(w: nat, n: nat, i: nat)
    requires 0 < w < Pow2(n)
    ensures var first, limit := TrailingZeros(w), RunLimit(w, n);
            && first < limit <= n
            && (i < first ==> !Bit(w, i))
            && (first <= i < limit ==> Bit(w, i))
            && (i == limit ==> !Bit(w, i))
            && (Bit(And(w, AfterRun(w, n)), i) <==> Bit(w, i) && limit <= i)
  {
    TrailingZerosIsLowestBit(w, i);
    CarryThroughRun(w, i);
    RunLimitIsUnwrapped(w, n);
    AndBit(w, AfterRun(w, n), i);
    ZeroHasNoBits(i);
    if n <= i { HighBitsAreZero(w, n, i); }
  }

  lemma {:induction false} MaskingDropsBit(a: nat, b: nat, i: nat)
    ensures PopCount(And(a, b)) <= PopCount(a)
    ensures Bit(a, i) && !Bit(b, i) ==> PopCount(And(a, b)) < PopCount(a)
    decreases a
  {
    if a == 0 { ZeroHasNoBits(i); }
    else if b == 0 { if Bit(a, i) { SomeBitCounts(a, i); } }
    else { MaskingDropsBit(a / 2, b / 2, if i == 0 then 0 else i - 1); }
  }

  lemma {:induction false} SomeBitCounts(a: nat, i: nat)
    requires Bit(a, i)
    ensures PopCount(a) > 0
    decreases i
  {
    if i > 0 { SomeBitCounts(a / 2, i - 1); }
  }

  /** Each iteration removes at least one set bit, and never adds to the word. */
  lemma RunScanShrinks(w: nat, n: nat)
    requires 0 < w < Pow2(n)
    ensures PopCount(And(w, AfterRun(w, n))) < PopCount(w)
    ensures And(w, AfterRun(w, n)) < Pow2(n)
  {
    var first := TrailingZeros(w);
    RunIsMaximal(w, n, first);
    AndBit(w, AfterRun(w, n), first);
    MaskingDropsBit(w, AfterRun(w, n), first);
    AndBound(w, AfterRun(w, n));
  }

  datatype Run = Run(first: nat, limit: nat)

  /** The runs the scan yields, in the order it yields them. */
  function Runs(w: nat, n: nat): seq<Run>
    requires w < Pow2(n)
    decreases PopCount(w)
  {
    if w == 0 then []
    else
      RunScanShrinks(w, n);
      [Run(TrailingZeros(w), RunLimit(w, n))] + Runs(And(w, AfterRun(w, n)), n)
  }

  ghost predicate MaximalIn(bits: nat -> bool, r: Run) {
    && r.first < r.limit
    && (forall i: nat :: r.first <= i < r.limit ==> bits(i))
    && (r.first > 0 ==> !bits(r.first - 1)) && !bits(r.limit)
  }

  function BitsOf(w: nat): nat -> bool { (i: nat) => Bit(w, i) }

  ghost predicate IsMaximalRun(w: nat, r: Run) { MaximalIn(BitsOf(w), r) }

  lemma LowestRunSplitsOff(bits: nat -> bool, rest: nat -> bool, first: nat, limit: nat, r: Run)
    requires first < limit && !bits(limit)
    requires forall i: nat :: (i < first ==> !bits(i)) && (first <= i < limit ==> bits(i))
    requires forall i: nat :: rest(i) <==> bits(i) && limit <= i
    ensures MaximalIn(bits, r) <==> r == Run(first, limit) || MaximalIn(rest, r)
    ensures MaximalIn(rest, r) ==> limit < r.first
  {
    if MaximalIn(rest, r) { assert rest(r.first); }
    if MaximalIn(bits, r) {
      assert bits(r.first);
      if r.first < limit {
        assert r.first == first;
        assert r.limit <= limit;
      }
    }
  }

  lemma FirstRunSplitsOff(w: nat, n: nat, r: Run)
    requires 0 < w < Pow2(n)
    ensures var w' := And(w, AfterRun(w, n));
            && (IsMaximalRun(w, r) <==> r == Run(TrailingZeros(w), RunLimit(w, n)) || IsMaximalRun(w', r))
            && (IsMaximalRun(w', r) ==> RunLimit(w, n) < r.first)
  {
    var w' := And(w, AfterRun(w, n));
    var first, limit := TrailingZeros(w), RunLimit(w, n);
    var bits, rest := BitsOf(w), BitsOf(w');
    forall i: nat
      ensures (i < first ==> !bits(i)) && (first <= i < limit ==> bits(i)) && (i == limit ==> !bits(i))
      ensures rest(i) <==> bits(i) && limit <= i
    {
      RunIsMaximal(w, n, i);
    }
    RunIsMaximal(w, n, 0);
    LowestRunSplitsOff(bits, rest, first, limit, r);
  }

  /** The scan yields exactly the maximal runs of ones of the word, lowest first. */
  lemma {:induction false} RunsAreTheMaximalRuns(w: nat, n: nat, r: Run)
    requires w < Pow2(n)
    ensures r in Runs(w, n) <==> IsMaximalRun(w, r)
    ensures forall j, k :: 0 <= j < k < |Runs(w, n)| ==> Runs(w, n)[j].limit < Runs(w, n)[k].first
    decreases PopCount(w)
  {
    if w == 0 {
      ZeroHasNoBits(r.first);
      assert !BitsOf(0)(r.first);
    } else {
      RunScanShrinks(w, n);
      FirstRunSplitsOff(w, n, r);
      var rest := Runs(And(w, AfterRun(w, n)), n);
      RunsAreTheMaximalRuns(And(w, AfterRun(w, n)), n, r);
      forall k | 0 <= k < |rest| ensures RunLimit(w, n) < rest[k].first {
        RunsAreTheMaximalRuns(And(w, AfterRun(w, n)), n, rest[k]);
        FirstRunSplitsOff(w, n, rest[k]);
      }
    }
  }
}
