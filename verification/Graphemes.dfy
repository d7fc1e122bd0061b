/**
 Grapheme segmentation that can stop at the end of one string and go on in the
 next: cutting a text into strings does not change its clusters.
 */
module Graphemes {
  import opened Common
  import opened Utf16

  /** What `ucdLookup` returns: a join class in the low four bits and a width in the top two. */
  type Property = p: nat | p < 256

  datatype Mode = Graphemes | Wcswidth

  datatype Detector = Detector(mode: Mode, lookup: int -> Property, ambiguousWidth: nat)

  // ----- Join rules -----

  const JOIN_RULES: seq<seq<nat>> := [
    [0x3CFFFCF, 0xFFFFFFF, 0x3CFFFCF, 0x3CFFF4F, 0x000000C, 0x3C0C3CF, 0x3CF0FCF, 0x3CF3FCF,
     0x3CF0FCF, 0x3CF3FCF, 0x30FFFCF, 0x3CFFFCF, 0x3CFFFCF, 0x0CFFFCF, 0x0000000, 0x0000000],
    [0x3CFFFCF, 0xFFFFFFF, 0x3CFFFCF, 0x3CFFFCF, 0x000000C, 0x3C0C3CF, 0x3CF0FCF, 0x3CF3FCF,
     0x3CF0FCF, 0x3CF3FCF, 0x30FFFCF, 0x3CFFFCF, 0x3CFFFCF, 0x0CFFFCF, 0x0000000, 0x0000000]]

  /** The two bits of `word` at position `2 * t`. */
  function Digit(word: nat, t: nat): (digit: nat)
    ensures digit < 4
    decreases t
  {
    if t == 0 then word % 4 else Digit(word / 4, t - 1)
  }

  /** `ucdGraphemeJoins`. */
  function Joins(state: nat, lead: Property, trail: Property): nat
    requires state <= 1
  {
    Digit(JOIN_RULES[state][lead % 16], trail % 16)
  }

  // The join classes, after the values of Grapheme_Cluster_Break and Indic_Conjunct_Break; 14 and 15 are not in use.
  const OTHER: nat := 0
  const CONTROL: nat := 1
  const EXTEND: nat := 2
  const REGIONAL: nat := 3
  const PREPEND: nat := 4
  const HANGUL_L: nat := 5
  const HANGUL_V: nat := 6
  const HANGUL_T: nat := 7
  const HANGUL_LV: nat := 8
  const HANGUL_LVT: nat := 9
  const LINKER: nat := 10
  const CONSONANT: nat := 11
  const PICTOGRAPHIC: nat := 12
  const ZWJ: nat := 13

  /** Rules GB6 to GB8: the order of jamo within a Hangul syllable. */
  predicate InSyllable(lead: nat, trail: nat) {
    || (lead == HANGUL_L && trail in {HANGUL_L, HANGUL_V, HANGUL_LV, HANGUL_LVT})
    || (lead in {HANGUL_V, HANGUL_LV} && trail in {HANGUL_V, HANGUL_T})
    || (lead in {HANGUL_T, HANGUL_LVT} && trail == HANGUL_T)
  }

  /**
   Whether two classes stay together by the rules of UAX #29, looking at two neighbours only:
   GB4 and GB5 (controls), GB9 (extenders and joiners), GB9b (Prepend), GB6 to GB8, GB9c (a
   linker before a consonant), GB11 (a joiner before a pictograph), GB12 and GB13 (regional
   indicators in pairs: `unpaired` says that the first of the two is not the second of a pair).
   */
  predicate StaysTogether(unpaired: bool, lead: nat, trail: nat) {
    || lead > ZWJ || trail > ZWJ
    || (&& lead != CONTROL && trail != CONTROL
        && (|| trail in {EXTEND, LINKER, ZWJ} || lead == PREPEND || InSyllable(lead, trail)
            || (lead == LINKER && trail == CONSONANT) || (lead == ZWJ && trail == PICTOGRAPHIC)
            || (lead == REGIONAL && trail == REGIONAL && unpaired)))
  }

  /** The digit, without recursion. */
  function DigitAt(word: nat, t: nat): nat {
    if t < 4 then QuadDigit(word, t) else if t < 8 then QuadDigit(word / 0x100, t - 4)
    else if t < 12 then QuadDigit(word / 0x100 / 0x100, t - 8) else QuadDigit(word / 0x100 / 0x100 / 0x100, t - 12)
  }

  function QuadDigit(word: nat, t: nat): nat {
    if t == 0 then word % 4 else if t == 1 then word / 4 % 4 else if t == 2 then word / 0x10 % 4 else word / 0x40 % 4
  }

  lemma {:induction false} DigitInQuad(word: nat, t: nat)
    ensures t < 4 ==> Digit(word, t) == QuadDigit(word, t)
    ensures t >= 4 ==> Digit(word, t) == Digit(word / 0x100, t - 4)
  {
    if t >= 1 { assert Digit(word, t) == Digit(word / 4, t - 1); }
    if t >= 2 { assert Digit(word, t) == Digit(word / 0x10, t - 2); }
    if t >= 3 { assert Digit(word, t) == Digit(word / 0x40, t - 3); }
  }

  lemma {:induction false} DigitIsAt(word: nat, t: nat)
    requires t < 16
    ensures Digit(word, t) == DigitAt(word, t)
  {
    DigitInQuad(word, t);
    if t >= 4 { DigitInQuad(word / 0x100, t - 4); }
    if t >= 8 { DigitInQuad(word / 0x100 / 0x100, t - 8); }
    if t >= 12 { DigitInQuad(word / 0x100 / 0x100 / 0x100, t - 12); }
  }

  lemma PlainRow(t: nat)
    requires t < 16
    ensures DigitAt(0x3CFFFCF, t) == if t > 13 || t in {2, 10, 13} then 0 else 3
  {
  }

  lemma ControlRow(t: nat)
    requires t < 16
    ensures DigitAt(0xFFFFFFF, t) == if t > 13 then 0 else 3
  {
  }

  lemma RegionalRow(t: nat)
    requires t < 16
    ensures DigitAt(0x3CFFF4F, t) == if t == 3 then 1 else if t > 13 || t in {2, 10, 13} then 0 else 3
  {
  }

  lemma PrependRow(t: nat)
    requires t < 16
    ensures DigitAt(0x000000C, t) == if t == 1 then 3 else 0
  {
  }

  lemma HangulLRow(t: nat)
    requires t < 16
    ensures DigitAt(0x3C0C3CF, t) == if t > 13 || t in {2, 5, 6, 8, 9, 10, 13} then 0 else 3
  {
  }

  lemma HangulVRow(t: nat)
    requires t < 16
    ensures DigitAt(0x3CF0FCF, t) == if t > 13 || t in {2, 6, 7, 10, 13} then 0 else 3
  {
  }

  lemma HangulTRow(t: nat)
    requires t < 16
    ensures DigitAt(0x3CF3FCF, t) == if t > 13 || t in {2, 7, 10, 13} then 0 else 3
  {
  }

  lemma LinkerRow(t: nat)
    requires t < 16
    ensures DigitAt(0x30FFFCF, t) == if t > 13 || t in {2, 10, 11, 13} then 0 else 3
  {
  }

  lemma JoinerRow(t: nat)
    requires t < 16
    ensures DigitAt(0x0CFFFCF, t) == if t > 13 || t in {2, 10, 12, 13} then 0 else 3
  {
  }

  /** Every row is the one that the rules call for. */
  lemma RowFollowsRules(state: nat, lead: nat, t: nat)
    requires state <= 1 && lead < 16 && t < 16
    ensures DigitAt(JOIN_RULES[state][lead], t) ==
            if !StaysTogether(state == 0, lead, t) then 3
            else if state == 0 && lead == REGIONAL && t == REGIONAL then 1 else 0
  {
    PlainRow(t); ControlRow(t); RegionalRow(t); PrependRow(t); HangulLRow(t);
    HangulVRow(t); HangulTRow(t); LinkerRow(t); JoinerRow(t);
    assert DigitAt(0, t) == 0;
  }

  /**
   The table is the rules: classes stay together exactly by `StaysTogether`, and the state after
   them is 1 exactly when a regional indicator has found its partner.
   */
  lemma JoinsIff(state: nat, lead: Property, trail: Property)
    requires state <= 1
    ensures Joins(state, lead, trail) ==
            if !StaysTogether(state == 0, lead % 16, trail % 16) then 3
            else if state == 0 && lead % 16 == REGIONAL && trail % 16 == REGIONAL then 1 else 0
  {
    RowFollowsRules(state, lead % 16, trail % 16);
    DigitIsAt(JOIN_RULES[state][lead % 16], trail % 16);
  }

  // ----- The reference: a left fold over code points -----

  function Clamp(width: nat): nat { if width > 2 then 2 else width }

  function CharacterWidth(d: Detector, codePoint: int): nat {
    var w: nat := d.lookup(codePoint) / 64;
    if w == 3 then d.ambiguousWidth else w
  }

  /** U+FE0F makes its cluster wide. */
  function GraphemeWidth(d: Detector, codePoint: int): nat {
    if codePoint == 0xFE0F then 2 else CharacterWidth(d, codePoint)
  }

  /** A cluster that may still grow. */
  datatype Open = Open(state: nat, last: Property, width: nat)

  function Start(d: Detector, codePoint: int): Open {
    if d.mode.Graphemes? then Open(0, d.lookup(codePoint), Clamp(GraphemeWidth(d, codePoint)))
    else Open(1, 0, CharacterWidth(d, codePoint))
  }

  /** The cluster with one more code point, or nothing when a boundary lies before it. */
  function Extend(d: Detector, o: Open, codePoint: int): Option<Open>
    requires o.state <= 1
  {
    if d.mode.Graphemes? then
      var joined := Joins(o.state, o.last, d.lookup(codePoint));
      if joined == 3 then None
      else Some(Open(joined, d.lookup(codePoint), Clamp(o.width + GraphemeWidth(d, codePoint))))
    else if CharacterWidth(d, codePoint) != 0 then None
    else Some(o)
  }

  /** States stay inside the join table, and grapheme widths stay at most two. */
  predicate Sane(d: Detector, o: Open) {
    o.state <= 1 && (d.mode.Graphemes? ==> o.width <= 2) && (d.mode.Wcswidth? ==> o.state == 1 && o.last == 0)
  }

  lemma StaysSane(d: Detector, o: Open, codePoint: int)
    requires Sane(d, o)
    ensures Sane(d, Start(d, codePoint))
    ensures Extend(d, o, codePoint).Some? ==> Sane(d, Extend(d, o, codePoint).value)
  {
    JoinsIff(o.state, o.last, d.lookup(codePoint));
  }

  datatype Piece = Piece(units: nat, width: nat)

  datatype Current = Current(units: nat, cluster: Open)

  datatype Segmentation = Segmentation(closed: seq<Piece>, current: Option<Current>)

  const NOTHING := Segmentation([], None)

  ghost predicate SaneSegmentation(d: Detector, g: Segmentation) {
    g.current.Some? ==> Sane(d, g.current.value.cluster)
  }

  function Feed(d: Detector, g: Segmentation, c: Scalar): (g': Segmentation)
    requires g.current.Some? ==> g.current.value.cluster.state <= 1
  {
    if g.current.None? then g.(current := Some(Current(c.units, Start(d, c.codePoint))))
    else
      var Current(units, cluster) := g.current.value;
      match Extend(d, cluster, c.codePoint)
      case Some(grown) => g.(current := Some(Current(units + c.units, grown)))
      case None => Segmentation(g.closed + [Piece(units, cluster.width)], Some(Current(c.units, Start(d, c.codePoint))))
  }

  lemma FeedStaysSane(d: Detector, g: Segmentation, c: Scalar)
    requires SaneSegmentation(d, g)
    ensures SaneSegmentation(d, Feed(d, g, c))
  {
    if g.current.Some? { StaysSane(d, g.current.value.cluster, c.codePoint); }
  }

  function Fold(d: Detector, g: Segmentation, scalars: seq<Scalar>): (g': Segmentation)
    requires SaneSegmentation(d, g)
    ensures SaneSegmentation(d, g')
    decreases |scalars|
  {
    if scalars == [] then g
    else
      FeedStaysSane(d, g, scalars[0]);
      Fold(d, Feed(d, g, scalars[0]), scalars[1..])
  }

  lemma {:induction false} FoldConcat(d: Detector, g: Segmentation, a: seq<Scalar>, b: seq<Scalar>)
    requires SaneSegmentation(d, g)
    ensures Fold(d, g, a + b) == Fold(d, Fold(d, g, a), b)
    decreases |a|
  {
    if a == [] { assert a + b == b; }
    else {
      FeedStaysSane(d, g, a[0]);
      FoldConcat(d, Feed(d, g, a[0]), a[1..], b);
      assert (a + b)[1..] == a[1..] + b;
    }
  }

  /** All clusters so far, the last of them still open. */
  function Clusters(g: Segmentation): seq<Piece> {
    if g.current.None? then g.closed else g.closed + [Piece(g.current.value.units, g.current.value.cluster.width)]
  }

  function TotalLength(pieces: seq<Piece>): nat {
    if pieces == [] then 0 else TotalLength(pieces[..|pieces| - 1]) + pieces[|pieces| - 1].units
  }

  lemma TotalLengthOneMore(pieces: seq<Piece>, p: Piece)
    ensures TotalLength(pieces + [p]) == TotalLength(pieces) + p.units
  {
    assert (pieces + [p])[..|pieces|] == pieces;
  }

  lemma FeedTiles(d: Detector, g: Segmentation, c: Scalar)
    requires SaneSegmentation(d, g)
    ensures TotalLength(Clusters(Feed(d, g, c))) == TotalLength(Clusters(g)) + c.units
  {
    var g' := Feed(d, g, c);
    if g.current.Some? { TotalLengthOneMore(g.closed, Piece(g.current.value.units, g.current.value.cluster.width)); }
    TotalLengthOneMore(g'.closed, Piece(g'.current.value.units, g'.current.value.cluster.width));
  }

  /** Clusters tile the text. */
  lemma {:induction false} FoldTiles(d: Detector, g: Segmentation, scalars: seq<Scalar>)
    requires SaneSegmentation(d, g)
    ensures TotalLength(Clusters(Fold(d, g, scalars))) == TotalLength(Clusters(g)) + TotalUnits(scalars)
    decreases |scalars|
  {
    if scalars != [] {
      FeedStaysSane(d, g, scalars[0]);
      FeedTiles(d, g, scalars[0]);
      FoldTiles(d, Feed(d, g, scalars[0]), scalars[1..]);
    }
  }

  ghost predicate Narrow(pieces: seq<Piece>) { forall i :: 0 <= i < |pieces| ==> pieces[i].width <= 2 }

  lemma {:induction false} FoldStaysNarrow(d: Detector, g: Segmentation, scalars: seq<Scalar>)
    requires SaneSegmentation(d, g) && d.mode.Graphemes? && Narrow(g.closed)
    ensures Narrow(Clusters(Fold(d, g, scalars)))
    decreases |scalars|
  {
    if scalars != [] {
      FeedStaysSane(d, g, scalars[0]);
      FoldStaysNarrow(d, Feed(d, g, scalars[0]), scalars[1..]);
    }
  }

  /** The clusters of a whole text. */
  function Segment(d: Detector, text: seq<CodeUnit>): seq<Piece> { Clusters(Fold(d, NOTHING, Decode(text))) }

  /** They tile the text, and in grapheme mode none is wider than two columns. */
  lemma SegmentTilesText(d: Detector, text: seq<CodeUnit>)
    ensures TotalLength(Segment(d, text)) == |text|
    ensures d.mode.Graphemes? ==> Narrow(Segment(d, text))
  {
    FoldTiles(d, NOTHING, Decode(text));
    DecodeLength(text);
    if d.mode.Graphemes? { FoldStaysNarrow(d, NOTHING, Decode(text)); }
  }

  // ----- One call: the next cluster of a text -----

  /** How much of the text an open cluster takes, how it then stands, and whether a boundary ended it. */
  datatype Reach = Reach(units: nat, cluster: Open, complete: bool)

  /** From the carried cluster on, or, without one, from the first code point of the text. */
  function Cluster(d: Detector, carried: Option<Open>, text: seq<CodeUnit>): (r: Reach)
    requires (carried.None? ==> text != []) && (carried.Some? ==> Sane(d, carried.value))
    ensures r.units <= |text| && (r.complete <==> r.units < |text|) && Sane(d, r.cluster)
    ensures carried.None? ==> r.units > 0
    decreases |text|
  {
    if text == [] then Reach(0, carried.value, false)
    else
      var next := Next(text, 0);
      if carried.None? then
        assert Sane(d, Start(d, next.codePoint));
        var r := Cluster(d, Some(Start(d, next.codePoint)), text[next.position..]);
        r.(units := r.units + next.position)
      else
        StaysSane(d, carried.value, next.codePoint);
        match Extend(d, carried.value, next.codePoint)
        case None => Reach(0, carried.value, true)
        case Some(grown) =>
          var r := Cluster(d, Some(grown), text[next.position..]);
          r.(units := r.units + next.position)
  }

  /** Call by call, what a caller sees of a text: the first piece belongs to the carried cluster, if there is one. */
  function Pieces(d: Detector, carried: Option<Open>, text: seq<CodeUnit>): seq<Piece>
    requires text != [] && (carried.Some? ==> Sane(d, carried.value))
    decreases |text|, if carried.Some? then 1 else 0
  {
    var r := Cluster(d, carried, text);
    [Piece(r.units, r.cluster.width)] + if r.complete then Pieces(d, None, text[r.units..]) else []
  }

  /** The cluster left open at the end of the text. */
  function Left(d: Detector, carried: Option<Open>, text: seq<CodeUnit>): (o: Open)
    requires text != [] && (carried.Some? ==> Sane(d, carried.value))
    ensures Sane(d, o)
    decreases |text|, if carried.Some? then 1 else 0
  {
    var r := Cluster(d, carried, text);
    if r.complete then Left(d, None, text[r.units..]) else r.cluster
  }

  /** The caller's reading: after an unfinished string the next piece continues the last one. */
  function Absorb(total: seq<Piece>, unfinished: bool, pieces: seq<Piece>): seq<Piece>
    requires pieces != [] && (unfinished ==> total != [])
  {
    if unfinished
      then total[..|total| - 1] + [Piece(total[|total| - 1].units + pieces[0].units, pieces[0].width)] + pieces[1..]
    else total + pieces
  }

  // ----- Calls against the reference -----

  /** One code point off the front. */
  lemma FoldFirst(d: Detector, g: Segmentation, text: seq<CodeUnit>)
    requires SaneSegmentation(d, g) && text != []
    ensures var next := Next(text, 0);
            var fed := Feed(d, g, Scalar(next.codePoint, next.position));
            SaneSegmentation(d, fed) && Fold(d, g, Decode(text)) == Fold(d, fed, Decode(text[next.position..]))
  {
    var next := Next(text, 0);
    FeedStaysSane(d, g, Scalar(next.codePoint, next.position));
    assert Decode(text)[1..] == Decode(text[next.position..]);
  }

  /** Having reached `r` from `units` units of an open cluster, the fold of the text goes on as `g`. */
  ghost predicate Continues(d: Detector, closed: seq<Piece>, units: nat, r: Reach, text: seq<CodeUnit>, g: Segmentation)
    requires r.units <= |text|
  {
    if r.complete
      then g == Fold(d, Segmentation(closed + [Piece(units + r.units, r.cluster.width)], None), Decode(text[r.units..]))
    else g == Segmentation(closed, Some(Current(units + r.units, r.cluster)))
  }

  lemma ContinuesLater(
    d: Detector, closed: seq<Piece>, units: nat, r: Reach, text: seq<CodeUnit>, k: nat, g: Segmentation)
    requires k <= |text| && r.units <= |text| - k && Continues(d, closed, units + k, r, text[k..], g)
    ensures Continues(d, closed, units, r.(units := r.units + k), text, g)
  {
    assert text[k..][r.units..] == text[r.units + k..];
  }

  lemma {:induction false} ExtentFolds(d: Detector, closed: seq<Piece>, units: nat, o: Open, text: seq<CodeUnit>)
    requires Sane(d, o)
    ensures Continues(d, closed, units, Cluster(d, Some(o), text), text,
            Fold(d, Segmentation(closed, Some(Current(units, o))), Decode(text)))
    decreases |text|
  {
    if text != [] {
      var g := Segmentation(closed, Some(Current(units, o)));
      var next := Next(text, 0);
      StaysSane(d, o, next.codePoint);
      FoldFirst(d, g, text);
      match Extend(d, o, next.codePoint)
      case None =>
        FoldFirst(d, Segmentation(closed + [Piece(units, o.width)], None), text);
        assert text[0..] == text;
      case Some(grown) =>
        ExtentFolds(d, closed, units + next.position, grown, text[next.position..]);
        ContinuesLater(d, closed, units, Cluster(d, Some(grown), text[next.position..]), text, next.position,
          Fold(d, g, Decode(text)));
    }
  }

  function Carried(g: Segmentation): Option<Open> { if g.current.Some? then Some(g.current.value.cluster) else None }

  function CarriedUnits(g: Segmentation): nat { if g.current.Some? then g.current.value.units else 0 }

  /** A cluster that begins in the text, from its first code point on. */
  lemma {:induction false} FreshCluster(d: Detector, text: seq<CodeUnit>, next: Decoded, o: Open)
    requires text != [] && next == Next(text, 0) && o == Start(d, next.codePoint)
    ensures Sane(d, o) && next.position <= |text|
    ensures var r := Cluster(d, Some(o), text[next.position..]);
            Cluster(d, None, text) == r.(units := r.units + next.position)
  {
  }

  lemma {:induction false} FreshClusterFolds(d: Detector, closed: seq<Piece>, text: seq<CodeUnit>)
    requires text != []
    ensures Continues(d, closed, 0, Cluster(d, None, text), text, Fold(d, Segmentation(closed, None), Decode(text)))
  {
    var next := Next(text, 0);
    var o := Start(d, next.codePoint);
    FreshCluster(d, text, next, o);
    FoldFirst(d, Segmentation(closed, None), text);
    ExtentFolds(d, closed, next.position, o, text[next.position..]);
    ContinuesLater(d, closed, 0, Cluster(d, Some(o), text[next.position..]), text, next.position,
      Fold(d, Segmentation(closed, None), Decode(text)));
  }

  lemma {:induction false} ClusterFolds(d: Detector, g: Segmentation, text: seq<CodeUnit>)
    requires SaneSegmentation(d, g) && text != []
    ensures Continues(d, g.closed, CarriedUnits(g), Cluster(d, Carried(g), text), text, Fold(d, g, Decode(text)))
  {
    if g.current.Some? { ExtentFolds(d, g.closed, g.current.value.units, g.current.value.cluster, text); }
    else { FreshClusterFolds(d, g.closed, text); }
  }

  /** What the calls on a string have to report, after `g`. */
  ghost predicate AreReported(
    d: Detector, g: Segmentation, text: seq<CodeUnit>, g': Segmentation, pieces: seq<Piece>, left: Open)
    requires SaneSegmentation(d, g) && pieces != []
  {
    && g' == Fold(d, g, Decode(text)) && Clusters(g') == Absorb(Clusters(g), g.current.Some?, pieces)
    && Carried(g') == Some(left)
  }

  lemma {:induction false} LastPieceIsReported(
    d: Detector, g: Segmentation, text: seq<CodeUnit>, r: Reach, piece: Piece)
    requires SaneSegmentation(d, g) && text != [] && r == Cluster(d, Carried(g), text) && !r.complete
    requires piece == Piece(CarriedUnits(g) + r.units, r.cluster.width)
    ensures AreReported(d, g, text, Fold(d, g, Decode(text)), [Piece(r.units, r.cluster.width)], r.cluster)
  {
    ClusterFolds(d, g, text);
    AbsorbPieces(g, [Piece(r.units, r.cluster.width)], piece, []);
  }

  /** A cluster that ends in the text leaves the fold over the rest of it to do. */
  lemma {:induction false} FoldAfterCluster(d: Detector, g: Segmentation, text: seq<CodeUnit>, r: Reach, piece: Piece)
    requires SaneSegmentation(d, g) && text != [] && r == Cluster(d, Carried(g), text) && r.complete
    requires piece == Piece(CarriedUnits(g) + r.units, r.cluster.width)
    ensures Fold(d, g, Decode(text)) == Fold(d, Segmentation(g.closed + [piece], None), Decode(text[r.units..]))
  {
    ClusterFolds(d, g, text);
  }

  lemma {:induction false} AbsorbsOn(g: Segmentation, clusters: seq<Piece>, units: nat, piece: Piece, rest: seq<Piece>)
    requires rest != [] && piece.units == CarriedUnits(g) + units
    requires clusters == Absorb(Clusters(Segmentation(g.closed + [piece], None)), false, rest)
    ensures clusters == Absorb(Clusters(g), g.current.Some?, [Piece(units, piece.width)] + rest)
  {
    AbsorbPieces(g, [Piece(units, piece.width)] + rest, piece, rest);
  }

  lemma {:induction false} FirstPieceIsReported(
    d: Detector, g: Segmentation, text: seq<CodeUnit>, r: Reach, piece: Piece, g': Segmentation, rest: seq<Piece>,
    left: Open)
    requires SaneSegmentation(d, g) && rest != []
    requires piece == Piece(CarriedUnits(g) + r.units, r.cluster.width) && r.units <= |text|
    requires Fold(d, g, Decode(text)) == Fold(d, Segmentation(g.closed + [piece], None), Decode(text[r.units..]))
    requires AreReported(d, Segmentation(g.closed + [piece], None), text[r.units..], g', rest, left)
    ensures AreReported(d, g, text, g', [Piece(r.units, r.cluster.width)] + rest, left)
  {
    AbsorbsOn(g, Clusters(g'), r.units, piece, rest);
  }

  /** Read as `Absorb` reads them, the pieces of one string carry the reference on. */
  lemma {:induction false} PiecesFold(d: Detector, g: Segmentation, text: seq<CodeUnit>)
    requires SaneSegmentation(d, g) && text != []
    ensures AreReported(d, g, text, Fold(d, g, Decode(text)), Pieces(d, Carried(g), text), Left(d, Carried(g), text))
    decreases |text|, if g.current.Some? then 1 else 0
  {
    var r := Cluster(d, Carried(g), text);
    var piece := Piece(CarriedUnits(g) + r.units, r.cluster.width);
    if r.complete {
      var g1, rest := Segmentation(g.closed + [piece], None), text[r.units..];
      PiecesFold(d, g1, rest);
      FoldAfterCluster(d, g, text, r, piece);
      FirstPieceIsReported(d, g, text, r, piece, Fold(d, g1, Decode(rest)), Pieces(d, None, rest), Left(d, None, rest));
    } else {
      LastPieceIsReported(d, g, text, r, piece);
    }
  }

  lemma AbsorbPieces(g: Segmentation, pieces: seq<Piece>, piece: Piece, rest: seq<Piece>)
    requires CarriedUnits(g) <= piece.units && pieces == [Piece(piece.units - CarriedUnits(g), piece.width)] + rest
    ensures Absorb(Clusters(g), g.current.Some?, pieces) == g.closed + [piece] + rest
  {
    if g.current.Some? { assert Clusters(g)[..|Clusters(g)| - 1] == g.closed && pieces[1..] == rest; }
  }

  // ----- The state a caller keeps between calls -----

  /** A string view: an address and the code units there. */
  datatype View = View(address: nat, text: seq<CodeUnit>)

  class GraphemeState {
    var beg: nat
    var len: nat
    var width: nat
    var state: int
    var last: Property

    constructor ()
      ensures beg == 0 && len == 0 && state == 0
    {
      beg, len, width, state, last := 0, 0, 0, 0, 0;
    }

    /** The stored state is flipped, so that zero means that no cluster is open. */
    ghost predicate Carries(d: Detector, carried: Option<Open>)
      reads this
    {
      match carried
      case None => state == 0
      case Some(o) =>
        && Sane(d, o) && width == o.width
        && if d.mode.Graphemes? then state == 0 - o.state - 1 && last == o.last else state == 1
    }
  }

  /** `resetIfOutOfRange`: an address inside the view, or just behind it, is kept. */
  function Resume(view: View, pointer: nat): (i: nat)
    ensures i <= |view.text|
  {
    if pointer < view.address || pointer > view.address + |view.text| then 0 else pointer - view.address
  }

  /** A new string is read from its beginning exactly when the old cluster did not end inside it or right behind it. */
  lemma RestartsIff(view: View, pointer: nat)
    ensures Resume(view, pointer) == 0 <==> !(view.address < pointer <= view.address + |view.text|)
  {
  }

  lemma NextOfSuffix(text: seq<CodeUnit>, i: nat)
    requires i < |text|
    ensures Next(text, i).codePoint == Next(text[i..], 0).codePoint
    ensures Next(text, i).position == i + Next(text[i..], 0).position
    ensures text[i..][Next(text[i..], 0).position..] == text[Next(text, i).position..]
  {
  }

  /** The reach of the cluster that stands as `o` at `at`, counted from `begin`. */
  function ReachFrom(d: Detector, o: Open, text: seq<CodeUnit>, begin: nat, at: nat): Reach
    requires Sane(d, o) && begin <= at <= |text|
  {
    var r := Cluster(d, Some(o), text[at..]);
    r.(units := r.units + (at - begin))
  }

  lemma ReachStep(d: Detector, o: Open, text: seq<CodeUnit>, begin: nat, at: nat)
    requires Sane(d, o) && begin <= at < |text|
    ensures match Extend(d, o, Next(text, at).codePoint)
            case None => ReachFrom(d, o, text, begin, at) == Reach(at - begin, o, true)
            case Some(grown) =>
              && Sane(d, grown)
              && ReachFrom(d, o, text, begin, at) == ReachFrom(d, grown, text, begin, Next(text, at).position)
  {
    NextOfSuffix(text, at);
    StaysSane(d, o, Next(text, at).codePoint);
  }

  /** `_graphemeNext`. */
  method GraphemeNext(d: Detector, s: GraphemeState, view: View, ghost carried: Option<Open>) returns (more: bool)
    requires d.mode.Graphemes? && s.Carries(d, carried)
    modifies s
    ensures var i := Resume(view, old(s.beg + s.len));
            if i == |view.text| then
              && !more && s.beg == old(s.beg) && s.len == old(s.len) && s.width == old(s.width)
              && s.Carries(d, carried)
            else
              var r := Cluster(d, carried, view.text[i..]);
              && s.beg == view.address + i && s.len == r.units && s.width == r.cluster.width
              && s.Carries(d, if r.complete then None else Some(r.cluster)) && more == r.complete
  {
    var text, end := view.text, |view.text|;
    var clusterBeg := Resume(view, s.beg + s.len);
    var clusterEnd := clusterBeg;
    if clusterEnd >= end { return false; }
    var width: nat, state, lead := s.width, s.state, s.last;
    ghost var o;
    if state == 0 {
      var next := Next(text, clusterEnd);
      NextOfSuffix(text, clusterEnd);
      lead := d.lookup(next.codePoint);
      width := GraphemeWidth(d, next.codePoint);
      clusterEnd := next.position;
      o := Start(d, next.codePoint);
    } else {
      state := -state - 1;
      o := carried.value;
    }
    ghost var r := Cluster(d, carried, text[clusterBeg..]);
    var done := false;
    while clusterEnd < end
      invariant clusterBeg <= clusterEnd <= end && !done
      invariant Sane(d, o) && o.state == state && o.last == lead && o.width == Clamp(width)
      invariant r == ReachFrom(d, o, text, clusterBeg, clusterEnd)
    {
      var next := Next(text, clusterEnd);
      var trail := d.lookup(next.codePoint);
      ReachStep(d, o, text, clusterBeg, clusterEnd);
      var joined := Joins(state, lead, trail);
      if joined == 3 {
        done := true;
        break;
      }
      o := Extend(d, o, next.codePoint).value;
      state, lead, width, clusterEnd := joined, trail, width + GraphemeWidth(d, next.codePoint), next.position;
    }
    s.beg, s.len, s.width := view.address + clusterBeg, clusterEnd - clusterBeg, Clamp(width);
    if done { s.state, s.last := 0, 0; } else { s.state, s.last := -state - 1, lead; }
    more := clusterEnd < end;
  }

  /** `_graphemeNextWcswidth`. */
  method GraphemeNextWcswidth(
    d: Detector, s: GraphemeState, view: View, ghost carried: Option<Open>) returns (more: bool)
    requires d.mode.Wcswidth? && s.Carries(d, carried)
    modifies s
    ensures var i := Resume(view, old(s.beg + s.len));
            if i == |view.text| then
              && !more && s.beg == old(s.beg) && s.len == old(s.len) && s.width == old(s.width)
              && s.Carries(d, carried)
            else
              var r := Cluster(d, carried, view.text[i..]);
              && s.beg == view.address + i && s.len == r.units && s.width == r.cluster.width
              && s.Carries(d, if r.complete then None else Some(r.cluster)) && more == r.complete
  {
    var text, end := view.text, |view.text|;
    var clusterBeg := Resume(view, s.beg + s.len);
    if clusterBeg >= end { return false; }
    var clusterEnd := clusterBeg;
    var width, state := s.width, s.state;
    if state == 0 { width := 0; }
    ghost var o := if carried.Some? then carried.value else Start(d, Next(text, clusterBeg).codePoint);
    ghost var r := Cluster(d, carried, text[clusterBeg..]);
    NextOfSuffix(text, clusterBeg);
    while true
      invariant clusterBeg <= clusterEnd < end && Sane(d, o)
      invariant state == 0 || (state == 1 && o.width == width && r == ReachFrom(d, o, text, clusterBeg, clusterEnd))
      invariant state == 0 ==>
        carried.None? && clusterEnd == clusterBeg && width == 0 && o == Start(d, Next(text, clusterBeg).codePoint)
      decreases end - clusterEnd
    {
      var next := Next(text, clusterEnd);
      var w := CharacterWidth(d, next.codePoint);
      if state != 0 { ReachStep(d, o, text, clusterBeg, clusterEnd); }
      if state != 0 && w != 0 {
        state := 0;
        break;
      }
      width, state, clusterEnd := width + w, 1, next.position;
      if clusterEnd >= end { break; }
    }
    s.beg, s.len, s.width, s.state := view.address + clusterBeg, clusterEnd - clusterBeg, width, state;
    more := clusterEnd < end;
  }

  method GraphemeNextInMode(d: Detector, s: GraphemeState, view: View, ghost carried: Option<Open>) returns (more: bool)
    requires s.Carries(d, carried)
    modifies s
    ensures var i := Resume(view, old(s.beg + s.len));
            if i == |view.text| then
              && !more && s.beg == old(s.beg) && s.len == old(s.len) && s.width == old(s.width)
              && s.Carries(d, carried)
            else
              var r := Cluster(d, carried, view.text[i..]);
              && s.beg == view.address + i && s.len == r.units && s.width == r.cluster.width
              && s.Carries(d, if r.complete then None else Some(r.cluster)) && more == r.complete
  {
    if d.mode.Graphemes? { more := GraphemeNext(d, s, view, carried); }
    else { more := GraphemeNextWcswidth(d, s, view, carried); }
  }

  /** The old cluster does not end inside the view. */
  predicate Restarts(view: View, pointer: nat) { !(view.address < pointer <= view.address + |view.text|) }

  lemma PiecesUnfold(d: Detector, carried: Option<Open>, text: seq<CodeUnit>, at: nat, r: Reach)
    requires at < |text| && (carried.Some? ==> Sane(d, carried.value)) && r == Cluster(d, carried, text[at..])
    ensures var piece := Piece(r.units, r.cluster.width);
            if r.complete then
              && Pieces(d, carried, text[at..]) == [piece] + Pieces(d, None, text[at + r.units..])
              && Left(d, carried, text[at..]) == Left(d, None, text[at + r.units..])
            else
              Pieces(d, carried, text[at..]) == [piece] && Left(d, carried, text[at..]) == r.cluster
  {
    assert text[at..][r.units..] == text[at + r.units..];
  }

  /** One call, in terms of the cluster it finds at `at`. */
  method NextPiece(d: Detector, s: GraphemeState, view: View, ghost carried: Option<Open>, ghost at: nat)
    returns (more: bool, piece: Piece, ghost r: Reach)
    requires s.Carries(d, carried) && at < |view.text| && Resume(view, s.beg + s.len) == at
    modifies s
    ensures r == Cluster(d, carried, view.text[at..]) && piece == Piece(r.units, r.cluster.width) && more == r.complete
    ensures s.beg + s.len == view.address + at + r.units && Resume(view, s.beg + s.len) == at + r.units
    ensures s.Carries(d, if r.complete then None else Some(r.cluster))
  {
    r := Cluster(d, carried, view.text[at..]);
    more := GraphemeNextInMode(d, s, view, carried);
    piece := Piece(s.len, s.width);
  }

  /** The calls from `at` on report these pieces and leave this cluster open. */
  ghost predicate Reports(
    d: Detector, carried: Option<Open>, text: seq<CodeUnit>, at: nat, pieces: seq<Piece>, left: Open)
  {
    && at < |text| && (carried.Some? ==> Sane(d, carried.value))
    && pieces == Pieces(d, carried, text[at..]) && left == Left(d, carried, text[at..])
  }

  lemma ReportsLast(d: Detector, carried: Option<Open>, text: seq<CodeUnit>, at: nat, r: Reach, piece: Piece)
    requires at < |text| && (carried.Some? ==> Sane(d, carried.value)) && r == Cluster(d, carried, text[at..])
    requires !r.complete && piece == Piece(r.units, r.cluster.width)
    ensures Reports(d, carried, text, at, [piece], r.cluster)
  {
    PiecesUnfold(d, carried, text, at, r);
  }

  lemma ReportsMore(
    d: Detector, carried: Option<Open>, text: seq<CodeUnit>, at: nat, r: Reach, piece: Piece, rest: seq<Piece>,
    left: Open)
    requires at < |text| && (carried.Some? ==> Sane(d, carried.value)) && r == Cluster(d, carried, text[at..])
    requires r.complete && piece == Piece(r.units, r.cluster.width) && Reports(d, None, text, at + r.units, rest, left)
    ensures Reports(d, carried, text, at, [piece] + rest, left)
  {
    PiecesUnfold(d, carried, text, at, r);
  }

  /** Calls until the end of the string, and collects every cluster reported. */
  method SegmentFrom(d: Detector, s: GraphemeState, view: View, ghost carried: Option<Open>, ghost at: nat)
    returns (pieces: seq<Piece>, ghost left: Open)
    requires s.Carries(d, carried) && at < |view.text| && Resume(view, s.beg + s.len) == at
    modifies s
    ensures Reports(d, carried, view.text, at, pieces, left)
    ensures s.Carries(d, Some(left)) && s.beg + s.len == view.address + |view.text|
    decreases |view.text| - at, if carried.Some? then 1 else 0, 1
  {
    var more, piece;
    ghost var r;
    more, piece, r := NextPiece(d, s, view, carried, at);
    if more {
      pieces, left := SegmentAfter(d, s, view, carried, at, r, piece);
    } else {
      ReportsLast(d, carried, view.text, at, r, piece);
      pieces, left := [piece], r.cluster;
    }
  }

  /** The rest of the string after a cluster that a boundary ended. */
  method SegmentAfter(
    d: Detector, s: GraphemeState, view: View, ghost carried: Option<Open>, ghost at: nat, ghost r: Reach,
    piece: Piece)
    returns (pieces: seq<Piece>, ghost left: Open)
    requires at < |view.text| && (carried.Some? ==> Sane(d, carried.value)) && r == Cluster(d, carried, view.text[at..])
    requires r.complete && piece == Piece(r.units, r.cluster.width) && at + r.units < |view.text|
    requires carried.None? ==> r.units > 0
    requires s.Carries(d, None) && Resume(view, s.beg + s.len) == at + r.units
    modifies s
    ensures Reports(d, carried, view.text, at, pieces, left)
    ensures s.Carries(d, Some(left)) && s.beg + s.len == view.address + |view.text|
    decreases |view.text| - at, if carried.Some? then 1 else 0, 0
  {
    var rest;
    rest, left := SegmentFrom(d, s, view, None, at + r.units);
    ReportsMore(d, carried, view.text, at, r, piece, rest, left);
    pieces := [piece] + rest;
  }

  /** What the calls on a string report when the first of them resumes at `i`: nothing when that is the end. */
  function Reported(d: Detector, carried: Option<Open>, text: seq<CodeUnit>, i: nat): seq<Piece>
    requires i <= |text| && (carried.Some? ==> Sane(d, carried.value))
  {
    if i == |text| then [] else Pieces(d, carried, text[i..])
  }

  function StillOpen(d: Detector, carried: Option<Open>, text: seq<CodeUnit>, i: nat): Option<Open>
    requires i <= |text| && (carried.Some? ==> Sane(d, carried.value))
  {
    if i == |text| then carried else Some(Left(d, carried, text[i..]))
  }

  /** A call that resumes at the end of the string returns false and leaves the state alone, so it reports nothing. */
  method SegmentString(
    d: Detector, s: GraphemeState, view: View, ghost carried: Option<Open>) returns (pieces: seq<Piece>)
    requires s.Carries(d, carried) && view.text != []
    modifies s
    ensures var i := Resume(view, old(s.beg + s.len));
            pieces == Reported(d, carried, view.text, i) && s.Carries(d, StillOpen(d, carried, view.text, i))
    ensures s.beg + s.len == view.address + |view.text|
  {
    var i := Resume(view, s.beg + s.len);
    if i == |view.text| { return []; }
    ghost var left;
    pieces, left := SegmentFrom(d, s, view, carried, i);
  }

  /** The caller's reading, also of a string about which nothing was reported. */
  function AbsorbAll(total: seq<Piece>, unfinished: bool, pieces: seq<Piece>): seq<Piece>
    requires unfinished ==> total != []
  {
    if pieces == [] then total else Absorb(total, unfinished, pieces)
  }

  /** The reference carried on over what was read of the string. */
  function FoldRest(d: Detector, g: Segmentation, text: seq<CodeUnit>, i: nat): (g': Segmentation)
    requires SaneSegmentation(d, g) && i <= |text|
    ensures SaneSegmentation(d, g')
  {
    Fold(d, g, Decode(text[i..]))
  }

  lemma ReportedFold(d: Detector, g: Segmentation, text: seq<CodeUnit>, i: nat)
    requires SaneSegmentation(d, g) && i <= |text|
    ensures Clusters(FoldRest(d, g, text, i)) ==
            AbsorbAll(Clusters(g), g.current.Some?, Reported(d, Carried(g), text, i))
    ensures Carried(FoldRest(d, g, text, i)) == StillOpen(d, Carried(g), text, i)
    ensures TotalLength(Clusters(FoldRest(d, g, text, i))) == TotalLength(Clusters(g)) + |text| - i
  {
    if i < |text| { PiecesFold(d, g, text[i..]); } else { assert text[i..] == []; }
    FoldTiles(d, g, Decode(text[i..]));
    DecodeLength(text[i..]);
  }

  /**
   What the calls on a nonempty string report carries the clusters of the text
   so far on to those of the longer text exactly when the last cluster did not
   end inside the string or right behind it.
   */
  lemma ReportCarriesOnIff(d: Detector, g: Segmentation, view: View, pointer: nat)
    requires SaneSegmentation(d, g) && view.text != []
    ensures AbsorbAll(Clusters(g), g.current.Some?, Reported(d, Carried(g), view.text, Resume(view, pointer)))
            == Clusters(Fold(d, g, Decode(view.text)))
            <==> Restarts(view, pointer)
  {
    var i := Resume(view, pointer);
    RestartsIff(view, pointer);
    ReportedFold(d, g, view.text, i);
    ReportedFold(d, g, view.text, 0);
    assert view.text[0..] == view.text;
  }

  /** A buffer filled again with a string of the same length: the second string vanishes. */
  lemma ReusedBufferVanishes(
    d: Detector, carried: Option<Open>, address: nat, first: seq<CodeUnit>, second: seq<CodeUnit>)
    requires (carried.Some? ==> Sane(d, carried.value)) && |first| == |second| > 0
    ensures var end := address + |first|;
            && !Restarts(View(address, second), end)
            && Reported(d, carried, second, Resume(View(address, second), end)) == []
  {
  }

  // ----- A text in several strings -----

  function Concat(views: seq<View>): seq<CodeUnit> {
    if views == [] then [] else Concat(views[..|views| - 1]) + views[|views| - 1].text
  }

  /** No cut goes through a surrogate pair. */
  ghost predicate CutsNoPair(views: seq<View>) {
    forall k :: 0 <= k < |views| ==> !CutsPair(Concat(views[..k]), views[k].text)
  }

  /** Where the state says that the last cluster ended: behind the last string that was not empty. */
  function LastEnd(views: seq<View>): nat {
    if views == [] then 0
    else
      var last := views[|views| - 1];
      if last.text == [] then LastEnd(views[..|views| - 1]) else last.address + |last.text|
  }

  /** Every string that is not empty is read from its beginning. */
  ghost predicate AllRestart(views: seq<View>) {
    forall k :: 0 <= k < |views| && views[k].text != [] ==> Restarts(views[k], LastEnd(views[..k]))
  }

  lemma OneMoreView(d: Detector, views: seq<View>, k: nat)
    requires k < |views| && CutsNoPair(views)
    ensures Fold(d, NOTHING, Decode(Concat(views[..k + 1]))) ==
            Fold(d, Fold(d, NOTHING, Decode(Concat(views[..k]))), Decode(views[k].text))
    ensures |Concat(views[..k + 1])| == |Concat(views[..k])| + |views[k].text|
    ensures LastEnd(views[..k + 1]) == if views[k].text == [] then LastEnd(views[..k])
            else views[k].address + |views[k].text|
  {
    assert views[..k + 1][..k] == views[..k];
    DecodeConcat(Concat(views[..k]), views[k].text);
    FoldConcat(d, NOTHING, Decode(Concat(views[..k])), Decode(views[k].text));
  }

  lemma AllRestartOneMore(views: seq<View>, k: nat)
    requires k < |views|
    ensures AllRestart(views[..k + 1]) <==>
            AllRestart(views[..k]) && (views[k].text != [] ==> Restarts(views[k], LastEnd(views[..k])))
  {
    var more := views[..k + 1];
    forall j | 0 <= j < k ensures more[j] == views[j] && more[..j] == views[..k][..j] == views[..j] { }
    assert more[k] == views[k] && more[..k] == views[..k];
    forall j | 0 <= j < k ensures views[..k][j] == views[j] { }
  }

  /** One more string, its first piece read as the rest of an unfinished cluster. */
  method SegmentNext(
    d: Detector, s: GraphemeState, view: View, total: seq<Piece>, ghost g: Segmentation) returns (more: seq<Piece>)
    requires SaneSegmentation(d, g) && total == Clusters(g) && s.Carries(d, Carried(g)) && view.text != []
    modifies s
    ensures var g' := FoldRest(d, g, view.text, Resume(view, old(s.beg + s.len)));
            more == Clusters(g') && s.Carries(d, Carried(g'))
    ensures s.beg + s.len == view.address + |view.text|
  {
    ReportedFold(d, g, view.text, Resume(view, s.beg + s.len));
    var unfinished := s.state != 0;
    var pieces := SegmentString(d, s, view, Carried(g));
    more := AbsorbAll(total, unfinished, pieces);
  }

  /** The reference carried on over what the calls read of the first `k` strings. */
  function ReadStrings(d: Detector, views: seq<View>, k: nat): (g: Segmentation)
    requires k <= |views|
    ensures SaneSegmentation(d, g)
    decreases k
  {
    if k == 0 then NOTHING
    else
      var g := ReadStrings(d, views, k - 1);
      if views[k - 1].text == [] then g
      else FoldRest(d, g, views[k - 1].text, Resume(views[k - 1], LastEnd(views[..k - 1])))
  }

  /** What was read tiles the clusters so far; it is all of the text exactly when all strings restarted. */
  ghost predicate Progress(d: Detector, views: seq<View>, k: nat, g: Segmentation) {
    && k <= |views| && SaneSegmentation(d, g)
    && TotalLength(Clusters(g)) <= |Concat(views[..k])|
    && (TotalLength(Clusters(g)) == |Concat(views[..k])| <==> AllRestart(views[..k]))
    && (AllRestart(views[..k]) ==> g == Fold(d, NOTHING, Decode(Concat(views[..k]))))
  }

  lemma ProgressOneMore(d: Detector, views: seq<View>, k: nat, g: Segmentation, g': Segmentation)
    requires k < |views| && CutsNoPair(views) && Progress(d, views, k, g)
    requires g' == if views[k].text == [] then g
             else FoldRest(d, g, views[k].text, Resume(views[k], LastEnd(views[..k])))
    ensures Progress(d, views, k + 1, g')
  {
    var text := views[k].text;
    var i := Resume(views[k], LastEnd(views[..k]));
    OneMoreView(d, views, k);
    AllRestartOneMore(views, k);
    RestartsIff(views[k], LastEnd(views[..k]));
    ReportedFold(d, g, text, i);
    assert i == 0 ==> text[i..] == text;
  }

  lemma {:induction false} StringProgress(d: Detector, views: seq<View>, k: nat, g: Segmentation)
    returns (g': Segmentation)
    requires k < |views| && CutsNoPair(views) && g == ReadStrings(d, views, k) && Progress(d, views, k, g)
    ensures g' == ReadStrings(d, views, k + 1) && Progress(d, views, k + 1, g')
  {
    g' := ReadStrings(d, views, k + 1);
    ReadOneMore(d, views, k, g, g');
    ProgressOneMore(d, views, k, g, g');
  }

  lemma ReadStringsProgress(d: Detector, views: seq<View>) returns (g: Segmentation)
    requires CutsNoPair(views)
    ensures g == ReadStrings(d, views, |views|) && Progress(d, views, |views|, g)
  {
    g := NOTHING;
    NoProgressYet(d, views);
    for k := 0 to |views|
      invariant g == ReadStrings(d, views, k) && Progress(d, views, k, g)
    {
      g := StringProgress(d, views, k, g);
    }
  }

  lemma NoProgressYet(d: Detector, views: seq<View>)
    ensures Progress(d, views, 0, NOTHING)
  {
    assert views[..0] == [];
  }

  lemma ReadOneMore(d: Detector, views: seq<View>, k: nat, before: Segmentation, after: Segmentation)
    requires k < |views| && before == ReadStrings(d, views, k) && after == ReadStrings(d, views, k + 1)
    ensures after == if views[k].text == [] then before
            else FoldRest(d, before, views[k].text, Resume(views[k], LastEnd(views[..k])))
  {
  }

  /**
   Cutting a text into strings, in either mode, changes neither its clusters
   nor their widths, exactly when every string restarts.
   */
  lemma ReadStringsIff(d: Detector, views: seq<View>)
    requires CutsNoPair(views)
    ensures Clusters(ReadStrings(d, views, |views|)) == Segment(d, Concat(views)) <==> AllRestart(views)
  {
    var g := ReadStringsProgress(d, views);
    assert views[..|views|] == views;
    SegmentTilesText(d, Concat(views));
  }

  /** The clusters and widths reported string by string, read as one text. */
  method SegmentStrings(d: Detector, views: seq<View>) returns (total: seq<Piece>)
    ensures total == Clusters(ReadStrings(d, views, |views|))
    ensures CutsNoPair(views) ==> (total == Segment(d, Concat(views)) <==> AllRestart(views))
  {
    var s := new GraphemeState();
    total := [];
    for k := 0 to |views|
      invariant fresh(s) && total == Clusters(ReadStrings(d, views, k))
      invariant s.Carries(d, Carried(ReadStrings(d, views, k))) && s.beg + s.len == LastEnd(views[..k])
    {
      total := SegmentView(d, s, views, k, total);
    }
    if CutsNoPair(views) { ReadStringsIff(d, views); }
    assert views[..|views|] == views;
  }

  lemma LastEndOneMore(views: seq<View>, k: nat)
    requires k < |views|
    ensures LastEnd(views[..k + 1]) == if views[k].text == [] then LastEnd(views[..k])
            else views[k].address + |views[k].text|
  {
    assert views[..k + 1][..k] == views[..k];
  }

  method SegmentView(
    d: Detector, s: GraphemeState, views: seq<View>, k: nat, total: seq<Piece>) returns (more: seq<Piece>)
    requires k < |views| && total == Clusters(ReadStrings(d, views, k))
    requires s.Carries(d, Carried(ReadStrings(d, views, k))) && s.beg + s.len == LastEnd(views[..k])
    modifies s
    ensures more == Clusters(ReadStrings(d, views, k + 1))
    ensures s.Carries(d, Carried(ReadStrings(d, views, k + 1))) && s.beg + s.len == LastEnd(views[..k + 1])
  {
    LastEndOneMore(views, k);
    if views[k].text == [] { return total; }
    more := SegmentNext(d, s, views[k], total, ReadStrings(d, views, k));
  }

  /** Passed in one string, a text yields its clusters directly. */
  lemma OneStringYieldsSegment(d: Detector, text: seq<CodeUnit>)
    requires text != []
    ensures Pieces(d, None, text) == Segment(d, text)
    ensures Carried(Fold(d, NOTHING, Decode(text))) == Some(Left(d, None, text))
  {
    PiecesFold(d, NOTHING, text);
  }

  lemma SecondStringContinues(d: Detector, g: Segmentation, o: Open, text: seq<CodeUnit>)
    requires SaneSegmentation(d, g) && text != [] && Carried(g) == Some(o) && Sane(d, o)
    ensures Clusters(Fold(d, g, Decode(text))) == Absorb(Clusters(g), true, Pieces(d, Some(o), text))
  {
    PiecesFold(d, g, text);
  }

  /** Cut in two, a text yields the same clusters as in one piece, the cut cluster read as `Absorb` reads it. */
  lemma CutsDoNotMatter(d: Detector, a: seq<CodeUnit>, b: seq<CodeUnit>)
    requires !CutsPair(a, b) && a != [] && b != []
    ensures Pieces(d, None, a + b) == Absorb(Pieces(d, None, a), true, Pieces(d, Some(Left(d, None, a)), b))
  {
    var g := Fold(d, NOTHING, Decode(a));
    DecodeConcat(a, b);
    FoldConcat(d, NOTHING, Decode(a), Decode(b));
    OneStringYieldsSegment(d, a);
    OneStringYieldsSegment(d, a + b);
    SecondStringContinues(d, g, Left(d, None, a), b);
  }

  // ----- Widths in wcswidth mode -----

  /** The ambiguous class, whose width is configured. */
  predicate IsAmbiguous(d: Detector, codePoint: int) { d.lookup(codePoint) / 64 == 3 }

  predicate FitsTwo(d: Detector, codePoint: int) { d.ambiguousWidth <= 2 || !IsAmbiguous(d, codePoint) }

  lemma WidthOfClass(d: Detector, codePoint: int)
    ensures CharacterWidth(d, codePoint) <= 2 <==> FitsTwo(d, codePoint)
    ensures !FitsTwo(d, codePoint) ==> CharacterWidth(d, codePoint) != 0
  {
  }

  ghost predicate AllFit(d: Detector, scalars: seq<Scalar>) {
    forall n :: 0 <= n < |scalars| ==> FitsTwo(d, scalars[n].codePoint)
  }

  ghost predicate HasAmbiguous(d: Detector, scalars: seq<Scalar>) {
    exists n :: 0 <= n < |scalars| && IsAmbiguous(d, scalars[n].codePoint)
  }

  lemma AllFitSplits(d: Detector, scalars: seq<Scalar>)
    requires scalars != []
    ensures AllFit(d, scalars) <==> FitsTwo(d, scalars[0].codePoint) && AllFit(d, scalars[1..])
  {
    if AllFit(d, scalars[1..]) {
      forall n | 0 < n < |scalars|
        ensures FitsTwo(d, scalars[n].codePoint) <==> FitsTwo(d, scalars[1..][n - 1].codePoint)
      {
      }
    }
  }

  lemma AllFitIff(d: Detector, scalars: seq<Scalar>)
    ensures AllFit(d, scalars) <==> d.ambiguousWidth <= 2 || !HasAmbiguous(d, scalars)
  {
    if AllFit(d, scalars) && d.ambiguousWidth > 2 {
      forall n | 0 <= n < |scalars| ensures !IsAmbiguous(d, scalars[n].codePoint) {
        assert FitsTwo(d, scalars[n].codePoint);
      }
    }
  }

  /** A wcswidth cluster is as wide as its leading character, and a character that is too wide always leads one. */
  lemma {:induction false} FoldIsNarrowIff(d: Detector, g: Segmentation, scalars: seq<Scalar>)
    requires SaneSegmentation(d, g) && d.mode.Wcswidth?
    ensures Narrow(Clusters(Fold(d, g, scalars))) <==> Narrow(Clusters(g)) && AllFit(d, scalars)
    decreases |scalars|
  {
    if scalars != [] {
      FeedStaysSane(d, g, scalars[0]);
      FeedIsNarrowIff(d, g, scalars[0]);
      FoldIsNarrowIff(d, Feed(d, g, scalars[0]), scalars[1..]);
      AllFitSplits(d, scalars);
    }
  }

  lemma FeedIsNarrowIff(d: Detector, g: Segmentation, c: Scalar)
    requires SaneSegmentation(d, g) && d.mode.Wcswidth?
    ensures Narrow(Clusters(Feed(d, g, c))) <==> Narrow(Clusters(g)) && FitsTwo(d, c.codePoint)
  {
    WidthOfClass(d, c.codePoint);
    var g' := Feed(d, g, c);
    if g.current.Some? { NarrowOneMore(g.closed, Piece(g.current.value.units, g.current.value.cluster.width)); }
    NarrowOneMore(g'.closed, Piece(g'.current.value.units, g'.current.value.cluster.width));
  }

  lemma NarrowOneMore(pieces: seq<Piece>, p: Piece)
    ensures Narrow(pieces + [p]) <==> Narrow(pieces) && p.width <= 2
  {
    if Narrow(pieces + [p]) {
      assert (pieces + [p])[|pieces|] == p;
      forall i | 0 <= i < |pieces| ensures pieces[i].width <= 2 { assert (pieces + [p])[i] == pieces[i]; }
    }
  }

  /**
   In wcswidth mode no cluster of a text is wider than two exactly when the
   ambiguous width is at most two or the text has no ambiguous code point.
   */
  lemma WcswidthIsNarrowIff(d: Detector, text: seq<CodeUnit>)
    requires d.mode.Wcswidth?
    ensures Narrow(Segment(d, text)) <==> d.ambiguousWidth <= 2 || !HasAmbiguous(d, Decode(text))
  {
    FoldIsNarrowIff(d, NOTHING, Decode(text));
    AllFitIff(d, Decode(text));
  }

  /** One ambiguous character, with an ambiguous width of three. */
  lemma WideClusterInWcswidth()
    ensures var d := Detector(Wcswidth, _ => 0xC0, 3);
            Segment(d, [0xA1]) == [Piece(1, 3)] && !Narrow(Segment(d, [0xA1]))
  {
    var d := Detector(Wcswidth, _ => 0xC0, 3);
    var text: seq<CodeUnit> := [0xA1];
    assert text[1..] == [];
    assert Decode(text) == [Scalar(0xA1, 1)];
    assert Decode(text)[1..] == [];
    assert Segment(d, text) == [Piece(1, 3)];
    assert Segment(d, text)[0].width == 3;
  }
}
