/**
 UTF-16 as the width detector decodes and encodes it: unpaired surrogates
 become U+FFFD, and decoding works from either end of the text.
 */
module Utf16 {

  type CodeUnit = u: nat | u < 0x10000

  predicate IsSurrogate(c: CodeUnit) { 0xD800 <= c < 0xE000 }

  predicate IsLeading(c: CodeUnit) { 0xD800 <= c < 0xDC00 }

  predicate IsTrailing(c: CodeUnit) { 0xDC00 <= c < 0xE000 }

  /** The masks the decoders test with: 0xF800 and 0xFC00 keep the high bits, 0x400 tells the halves apart. */
  lemma MasksAreRanges(c: CodeUnit)
    ensures c - c % 0x800 == 0xD800 <==> IsSurrogate(c)
    ensures c - c % 0x400 == 0xD800 <==> IsLeading(c)
    ensures c - c % 0x400 == 0xDC00 <==> IsTrailing(c)
    ensures IsSurrogate(c) ==> (c / 0x400 % 2 == 0 <==> IsLeading(c))
  {
    assert c == c / 0x800 * 0x800 + c % 0x800 && c == c / 0x400 * 0x400 + c % 0x400;
  }

  function Combine(c1: CodeUnit, c2: CodeUnit): int { c1 * 0x400 - 0x35FDC00 + c2 }

  /** One decoded code point and the position after it, or, backward, its start. */
  datatype Decoded = Decoded(codePoint: int, position: nat)

  /** `utf16NextOrFFFD`. */
  function Next(text: seq<CodeUnit>, i: nat): (d: Decoded)
    requires i < |text|
    ensures i < d.position <= |text| && d.position <= i + 2
  {
    var c := text[i];
    if !IsSurrogate(c) then Decoded(c, i + 1)
    else if IsLeading(c) && i + 1 != |text| && IsTrailing(text[i + 1]) then Decoded(Combine(c, text[i + 1]), i + 2)
    else Decoded(0xFFFD, i + 1)
  }

  /** `utf16PrevOrFFFD`. */
  function Prev(text: seq<CodeUnit>, i: nat): (d: Decoded)
    requires 0 < i <= |text|
    ensures d.position < i <= d.position + 2
  {
    var c := text[i - 1];
    if !IsSurrogate(c) then Decoded(c, i - 1)
    else if IsTrailing(c) && i - 1 != 0 && IsLeading(text[i - 2]) then Decoded(Combine(text[i - 2], c), i - 2)
    else Decoded(0xFFFD, i - 1)
  }

  // ----- Backward is forward, reversed -----

  datatype Visit = Visit(start: nat, codePoint: int)

  /** What stepping forward from `i` to `end` visits. */
  function Forward(text: seq<CodeUnit>, i: nat, end: nat): seq<Visit>
    requires end <= |text|
    decreases |text| - i
  {
    if i >= end then [] else [Visit(i, Next(text, i).codePoint)] + Forward(text, Next(text, i).position, end)
  }

  /** What stepping backward from `i` to `begin` visits. */
  function Backward(text: seq<CodeUnit>, i: nat, begin: nat): seq<Visit>
    requires i <= |text|
    decreases i
  {
    if i <= begin then []
    else [Visit(Prev(text, i).position, Prev(text, i).codePoint)] + Backward(text, Prev(text, i).position, begin)
  }

  function Reversed(s: seq<Visit>): seq<Visit> { if s == [] then [] else Reversed(s[1..]) + [s[0]] }

  /** Not between the two halves of a pair. */
  predicate IsBoundary(text: seq<CodeUnit>, i: nat) {
    i <= |text| && !(0 < i < |text| && IsLeading(text[i - 1]) && IsTrailing(text[i]))
  }

  /** From a boundary, a step forward leads to a boundary and a step back undoes it. */
  lemma PrevUndoesNext(text: seq<CodeUnit>, i: nat)
    requires i < |text| && IsBoundary(text, i)
    ensures var d := Next(text, i);
            && IsBoundary(text, d.position)
            && Prev(text, d.position) == Decoded(d.codePoint, i)
  {
  }

  /** A step back from beyond a boundary does not jump over it. */
  lemma PrevStopsAtBoundary(text: seq<CodeUnit>, k: nat, n: nat)
    requires k < n <= |text| && IsBoundary(text, k)
    ensures k <= Prev(text, n).position
  {
  }

  lemma {:induction false} BackwardSplits(text: seq<CodeUnit>, n: nat, k: nat, i: nat)
    requires i < k <= n <= |text| && IsBoundary(text, k)
    ensures Backward(text, n, i) == Backward(text, n, k) + Backward(text, k, i)
    decreases n
  {
    if n > k {
      PrevStopsAtBoundary(text, k, n);
      BackwardSplits(text, Prev(text, n).position, k, i);
    }
  }

  lemma {:induction false} BackwardFromReversesForward(text: seq<CodeUnit>, i: nat)
    requires IsBoundary(text, i)
    ensures Backward(text, |text|, i) == Reversed(Forward(text, i, |text|))
    decreases |text| - i
  {
    if i < |text| {
      var d := Next(text, i);
      PrevUndoesNext(text, i);
      BackwardFromReversesForward(text, d.position);
      BackwardSplits(text, |text|, d.position, i);
      assert Backward(text, i, i) == [];
      assert Backward(text, d.position, i) == [Visit(i, d.codePoint)];
      assert Forward(text, i, |text|)[1..] == Forward(text, d.position, |text|);
    }
  }

  /** For every text, well formed or not, both directions visit the same positions and code points. */
  lemma BackwardReversesForward(text: seq<CodeUnit>)
    ensures Backward(text, |text|, 0) == Reversed(Forward(text, 0, |text|))
  {
    BackwardFromReversesForward(text, 0);
  }

  // ----- Encoding -----

  /** The surrogate encoder of `_checkFallbackViaCache`; the low ten bits and 0xDC00 share no bit. */
  function Encode(codePoint: nat): (units: seq<CodeUnit>)
    requires codePoint <= 0x10FFFF
    ensures |units| == if codePoint <= 0xFFFF then 1 else 2
  {
    if codePoint <= 0xFFFF then [codePoint]
    else [codePoint / 0x400 + 0xD7C0, codePoint % 0x400 + 0xDC00]
  }

  /** Decoding gives the code point back from either end, exactly when it is not itself a surrogate. */
  lemma EncodeThenDecode(codePoint: nat)
    requires codePoint <= 0x10FFFF
    ensures var units := Encode(codePoint);
            && (Next(units, 0) == Decoded(codePoint, |units|) <==> !(0xD800 <= codePoint <= 0xDFFF))
            && (Prev(units, |units|) == Decoded(codePoint, 0) <==> !(0xD800 <= codePoint <= 0xDFFF))
            && (0xD800 <= codePoint <= 0xDFFF ==> Next(units, 0) == Decoded(0xFFFD, 1))
  {
    if codePoint > 0xFFFF {
      var units := Encode(codePoint);
      assert IsLeading(units[0]) && IsTrailing(units[1]);
      assert Combine(units[0], units[1]) == codePoint;
    }
  }

  /** And encoding what a pair decodes to gives the pair back. */
  lemma DecodeThenEncode(c1: CodeUnit, c2: CodeUnit)
    requires IsLeading(c1) && IsTrailing(c2)
    ensures 0x10000 <= Combine(c1, c2) <= 0x10FFFF && Encode(Combine(c1, c2)) == [c1, c2]
  {
    var high, low := c1 - 0xD7C0, c2 - 0xDC00;
    assert Combine(c1, c2) == high * 0x400 + low && low < 0x400;
    assert (high * 0x400 + low) / 0x400 == high && (high * 0x400 + low) % 0x400 == low;
  }

  /** The pair of a code point beyond the basic plane, after table 3-5 of section 3.9 of the Unicode Standard. */
  lemma PairIsStandard(codePoint: nat)
    requires 0x10000 <= codePoint <= 0x10FFFF
    ensures var rest := codePoint - 0x10000;
            var high, low := 0xD800 + rest / 0x400, 0xDC00 + rest % 0x400;
            && IsLeading(high) && IsTrailing(low)
            && Encode(codePoint) == [high, low] && Combine(high, low) == codePoint
  {
    var rest: nat := codePoint - 0x10000;
    assert codePoint / 0x400 == rest / 0x400 + 0x40 && codePoint % 0x400 == rest % 0x400;
  }

  // ----- Decoding is reading an encoding, or else U+FFFD -----

  predicate IsScalar(codePoint: int) { 0 <= codePoint <= 0x10FFFF && !(0xD800 <= codePoint <= 0xDFFF) }

  predicate StartsAt(text: seq<CodeUnit>, i: nat, codePoint: nat)
    requires IsScalar(codePoint)
  {
    var end := i + |Encode(codePoint)|;
    end <= |text| && text[i..end] == Encode(codePoint)
  }

  predicate EndsAt(text: seq<CodeUnit>, i: nat, codePoint: nat)
    requires IsScalar(codePoint)
  {
    var size := |Encode(codePoint)|;
    size <= i <= |text| && text[i - size..i] == Encode(codePoint)
  }

  /** The units of an encoding: one that is no surrogate, or a leading and a trailing one. */
  lemma EncodedUnits(codePoint: nat)
    requires IsScalar(codePoint)
    ensures var units := Encode(codePoint);
            if |units| == 1 then units[0] == codePoint && !IsSurrogate(units[0])
            else IsLeading(units[0]) && IsTrailing(units[1]) && Combine(units[0], units[1]) == codePoint
  {
    EncodeThenDecode(codePoint);
  }

  lemma UnitsStart(text: seq<CodeUnit>, i: nat, codePoint: nat)
    requires IsScalar(codePoint)
    ensures var units := Encode(codePoint);
            StartsAt(text, i, codePoint) <==>
            i + |units| <= |text| && text[i] == units[0] && (|units| == 2 ==> text[i + 1] == units[1])
  {
    var units := Encode(codePoint);
    if i + |units| <= |text| {
      assert text[i..i + |units|] == if |units| == 1 then [text[i]] else [text[i], text[i + 1]];
    }
  }

  lemma UnitsEnd(text: seq<CodeUnit>, i: nat, codePoint: nat)
    requires IsScalar(codePoint)
    ensures var units := Encode(codePoint);
            EndsAt(text, i, codePoint) <==>
            |units| <= i <= |text| && text[i - 1] == units[|units| - 1] && (|units| == 2 ==> text[i - 2] == units[0])
  {
    var units := Encode(codePoint);
    if |units| <= i <= |text| {
      assert text[i - |units|..i] == if |units| == 1 then [text[i - 1]] else [text[i - 2], text[i - 1]];
    }
  }

  /** A step forward reads whichever scalar value is encoded there, and replaces one unit where none is. */
  lemma NextReadsEncoding(text: seq<CodeUnit>, i: nat, codePoint: nat)
    requires i < |text| && IsScalar(codePoint)
    ensures StartsAt(text, i, codePoint) ==> Next(text, i) == Decoded(codePoint, i + |Encode(codePoint)|)
    ensures var d := Next(text, i);
            d == Decoded(0xFFFD, i + 1) || (d.codePoint >= 0 && IsScalar(d.codePoint) && StartsAt(text, i, d.codePoint))
  {
    EncodedUnits(codePoint);
    UnitsStart(text, i, codePoint);
    var d := Next(text, i);
    if IsSurrogate(text[i]) && d.position == i + 2 { DecodeThenEncode(text[i], text[i + 1]); }
    if d.position == i + 2 || !IsSurrogate(text[i]) {
      EncodedUnits(d.codePoint);
      UnitsStart(text, i, d.codePoint);
    }
  }

  /** And a step backward whichever ends there. */
  lemma PrevReadsEncoding(text: seq<CodeUnit>, i: nat, codePoint: nat)
    requires 0 < i <= |text| && IsScalar(codePoint)
    ensures EndsAt(text, i, codePoint) ==> Prev(text, i) == Decoded(codePoint, i - |Encode(codePoint)|)
    ensures var d := Prev(text, i);
            d == Decoded(0xFFFD, i - 1) || (d.codePoint >= 0 && IsScalar(d.codePoint) && EndsAt(text, i, d.codePoint))
  {
    EncodedUnits(codePoint);
    UnitsEnd(text, i, codePoint);
    var d := Prev(text, i);
    if IsSurrogate(text[i - 1]) && i == d.position + 2 { DecodeThenEncode(text[i - 2], text[i - 1]); }
    if i == d.position + 2 || !IsSurrogate(text[i - 1]) {
      EncodedUnits(d.codePoint);
      UnitsEnd(text, i, d.codePoint);
    }
  }

  // ----- Whole texts -----

  /** A code point and the number of units it takes. */
  datatype Scalar = Scalar(codePoint: int, units: nat)

  function Decode(text: seq<CodeUnit>): seq<Scalar> {
    if text == [] then []
    else
      var d := Next(text, 0);
      [Scalar(d.codePoint, d.position)] + Decode(text[d.position..])
  }

  predicate CutsPair(a: seq<CodeUnit>, b: seq<CodeUnit>) {
    a != [] && b != [] && IsLeading(a[|a| - 1]) && IsTrailing(b[0])
  }

  lemma NextInConcat(a: seq<CodeUnit>, b: seq<CodeUnit>)
    requires a != [] && !CutsPair(a, b)
    ensures Next(a + b, 0) == Next(a, 0) && !CutsPair(a[Next(a, 0).position..], b)
  {
    var position := Next(a, 0).position;
    if position < |a| { assert a[position..][|a| - position - 1] == a[|a| - 1]; }
  }

  lemma Prepend(first: Scalar, rest: seq<Scalar>, more: seq<Scalar>)
    ensures [first] + (rest + more) == [first] + rest + more
  {
  }

  /** Two texts decode as one unless the cut goes through a pair. */
  lemma {:induction false} DecodeConcat(a: seq<CodeUnit>, b: seq<CodeUnit>)
    requires !CutsPair(a, b)
    ensures Decode(a + b) == Decode(a) + Decode(b)
    decreases |a|
  {
    if a == [] { assert a + b == b; }
    else {
      var d := Next(a, 0);
      NextInConcat(a, b);
      DecodeConcat(a[d.position..], b);
      assert (a + b)[d.position..] == a[d.position..] + b;
      Prepend(Scalar(d.codePoint, d.position), Decode(a[d.position..]), Decode(b));
    }
  }

  lemma {:induction false} DecodeLength(text: seq<CodeUnit>)
    ensures TotalUnits(Decode(text)) == |text|
  {
    if text != [] {
      DecodeLength(text[Next(text, 0).position..]); assert Decode(text)[1..] == Decode(text[Next(text, 0).position..]);
    }
  }

  function TotalUnits(scalars: seq<Scalar>): nat {
    if scalars == [] then 0 else scalars[0].units + TotalUnits(scalars[1..])
  }

  lemma {:induction false} FewerScalars(a: seq<CodeUnit>, b: seq<CodeUnit>)
    requires CutsPair(a, b)
    ensures |Decode(a + b)| == |Decode(a)| + |Decode(b)| - 1
    decreases |a|
  {
    var d := Next(a, 0);
    if |a| == 1 {
      assert Next(a + b, 0).position == 2 && (a + b)[2..] == b[1..];
      assert Next(b, 0).position == 1;
      assert a[1..] == [];
    } else {
      assert Next(a + b, 0) == d;
      assert (a + b)[d.position..] == a[d.position..] + b;
      FewerScalars(a[d.position..], b);
    }
  }

  /** Exactly when cutting a text does not change how it decodes. */
  lemma DecodeConcatIff(a: seq<CodeUnit>, b: seq<CodeUnit>)
    ensures Decode(a + b) == Decode(a) + Decode(b) <==> !CutsPair(a, b)
  {
    if CutsPair(a, b) { FewerScalars(a, b); } else { DecodeConcat(a, b); }
  }
}
