/**
 Where clusters begin and how wide they are, said of the code points of a text without
 following a state from one to the next.
 */
module GraphemeBoundaries {
  import opened Common
  import opened Utf16
  import opened Graphemes

  // ----- The reference -----

  function Class(d: Detector, s: Scalar): nat { d.lookup(s.codePoint) % 16 }

  /** How many regional indicators stand directly before position `n`. */
  function RegionalRun(d: Detector, scalars: seq<Scalar>, n: nat): nat
    requires n <= |scalars|
  {
    if n == 0 || Class(d, scalars[n - 1]) != REGIONAL then 0 else 1 + RegionalRun(d, scalars, n - 1)
  }

  /** The columns of one code point: zero, one, two, or the configured ambiguous width. */
  function Columns(d: Detector, codePoint: int): nat {
    var p := d.lookup(codePoint);
    if d.mode.Graphemes? && codePoint == 0xFE0F then 2
    else if p < 0x40 then 0 else if p < 0x80 then 1 else if p < 0xC0 then 2 else d.ambiguousWidth
  }

  /** A cluster begins at code point `n`. */
  predicate Begins(d: Detector, scalars: seq<Scalar>, n: nat)
    requires n < |scalars|
  {
    || n == 0
    || if d.mode.Wcswidth? then Columns(d, scalars[n].codePoint) != 0
       else !StaysTogether(
               RegionalRun(d, scalars, n) % 2 == 1, Class(d, scalars[n - 1]), Class(d, scalars[n]))
  }

  function UnitsBetween(scalars: seq<Scalar>, a: nat, b: nat): nat
    requires a <= b <= |scalars|
  {
    if a == b then 0 else UnitsBetween(scalars, a, b - 1) + scalars[b - 1].units
  }

  function ColumnsBetween(d: Detector, scalars: seq<Scalar>, a: nat, b: nat): nat
    requires a <= b <= |scalars|
  {
    if a == b then 0 else ColumnsBetween(d, scalars, a, b - 1) + Columns(d, scalars[b - 1].codePoint)
  }

  /** The code points from `a` to `b` as one cluster; in grapheme mode it is at most two columns wide. */
  function PieceBetween(d: Detector, scalars: seq<Scalar>, a: nat, b: nat): Piece
    requires a <= b <= |scalars|
  {
    var columns := ColumnsBetween(d, scalars, a, b);
    Piece(UnitsBetween(scalars, a, b), if d.mode.Graphemes? && columns > 2 then 2 else columns)
  }

  /** `starts` lists, in order, exactly the positions below `n` at which a cluster begins. */
  ghost predicate AreStarts(d: Detector, scalars: seq<Scalar>, n: nat, starts: seq<nat>)
    requires n <= |scalars|
  {
    && (forall k :: 0 <= k < |starts| ==> starts[k] < n)
    && (forall j, k :: 0 <= j < k < |starts| ==> starts[j] < starts[k])
    && (forall m: nat :: m < n ==> (m in starts <==> Begins(d, scalars, m)))
  }

  /** The pieces reach from each start to the next one. */
  ghost predicate ReachFrom(d: Detector, scalars: seq<Scalar>, starts: seq<nat>, closed: seq<Piece>)
    requires |starts| == |closed| + 1
    requires forall k :: 0 <= k < |starts| ==> starts[k] <= |scalars|
    requires forall j, k :: 0 <= j < k < |starts| ==> starts[j] < starts[k]
  {
    forall k :: 0 <= k < |closed| ==> closed[k] == PieceBetween(d, scalars, starts[k], starts[k + 1])
  }

  // ----- The fold keeps to it -----

  /** The open cluster remembers the last class and whether a pair of regional indicators is complete. */
  predicate Remembers(d: Detector, scalars: seq<Scalar>, n: nat, o: Open)
    requires 0 < n <= |scalars|
  {
    d.mode.Graphemes? ==>
      && o.last == d.lookup(scalars[n - 1].codePoint)
      && o.state == (if RegionalRun(d, scalars, n) > 0 && RegionalRun(d, scalars, n) % 2 == 0 then 1 else 0)
  }

  ghost predicate Follows(d: Detector, scalars: seq<Scalar>, n: nat, g: Segmentation, starts: seq<nat>)
    requires 0 < n <= |scalars|
  {
    && g.current.Some? && Sane(d, g.current.value.cluster) && AreStarts(d, scalars, n, starts)
    && |starts| == |g.closed| + 1 && ReachFrom(d, scalars, starts, g.closed)
    && Remembers(d, scalars, n, g.current.value.cluster)
    && Piece(g.current.value.units, g.current.value.cluster.width) ==
       PieceBetween(d, scalars, starts[|starts| - 1], n)
  }

  lemma ColumnsAreWidths(d: Detector, codePoint: int)
    ensures Columns(d, codePoint) ==
            if d.mode.Graphemes? then GraphemeWidth(d, codePoint) else CharacterWidth(d, codePoint)
  {
  }

  /** A boundary lies before the next code point exactly when the open cluster cannot grow. */
  lemma ExtendsIff(d: Detector, scalars: seq<Scalar>, n: nat, o: Open)
    requires 0 < n < |scalars| && Sane(d, o) && Remembers(d, scalars, n, o)
    ensures var grown := Extend(d, o, scalars[n].codePoint);
            && (grown.None? <==> Begins(d, scalars, n))
            && (grown.Some? ==> Remembers(d, scalars, n + 1, grown.value))
            && (grown.None? ==> Remembers(d, scalars, n + 1, Start(d, scalars[n].codePoint)))
  {
    ColumnsAreWidths(d, scalars[n].codePoint);
    if d.mode.Graphemes? { JoinsIff(o.state, o.last, d.lookup(scalars[n].codePoint)); }
  }

  lemma PieceOfOne(d: Detector, scalars: seq<Scalar>, n: nat)
    requires n < |scalars|
    ensures PieceBetween(d, scalars, n, n + 1) == Piece(scalars[n].units, Start(d, scalars[n].codePoint).width)
  {
    ColumnsAreWidths(d, scalars[n].codePoint);
    assert UnitsBetween(scalars, n, n) == 0 && ColumnsBetween(d, scalars, n, n) == 0;
  }

  lemma PieceGrows(d: Detector, scalars: seq<Scalar>, a: nat, n: nat, o: Open)
    requires a <= n < |scalars| && Sane(d, o) && Extend(d, o, scalars[n].codePoint).Some?
    requires o.width == PieceBetween(d, scalars, a, n).width
    ensures PieceBetween(d, scalars, a, n + 1) ==
            Piece(PieceBetween(d, scalars, a, n).units + scalars[n].units,
                  Extend(d, o, scalars[n].codePoint).value.width)
  {
    ColumnsAreWidths(d, scalars[n].codePoint);
  }

  lemma StartsGrow(d: Detector, scalars: seq<Scalar>, n: nat, starts: seq<nat>)
    requires n < |scalars| && AreStarts(d, scalars, n, starts)
    ensures AreStarts(d, scalars, n + 1, if Begins(d, scalars, n) then starts + [n] else starts)
  {
  }

  lemma FollowsOneMore(d: Detector, scalars: seq<Scalar>, n: nat, g: Segmentation, starts: seq<nat>)
    returns (starts': seq<nat>)
    requires 0 < n < |scalars| && Follows(d, scalars, n, g, starts)
    ensures Follows(d, scalars, n + 1, Feed(d, g, scalars[n]), starts')
  {
    var Current(units, cluster) := g.current.value;
    StaysSane(d, cluster, scalars[n].codePoint);
    ExtendsIff(d, scalars, n, cluster);
    StartsGrow(d, scalars, n, starts);
    if Begins(d, scalars, n) {
      starts' := starts + [n];
      PieceOfOne(d, scalars, n);
    } else {
      starts' := starts;
      PieceGrows(d, scalars, starts[|starts| - 1], n, cluster);
    }
  }

  lemma {:induction false} FoldFollows(d: Detector, scalars: seq<Scalar>, n: nat) returns (starts: seq<nat>)
    requires 0 < n <= |scalars|
    ensures Follows(d, scalars, n, Fold(d, NOTHING, scalars[..n]), starts)
    decreases n
  {
    var last := scalars[n - 1];
    FoldConcat(d, NOTHING, scalars[..n - 1], [last]);
    assert scalars[..n] == scalars[..n - 1] + [last];
    FoldOne(d, Fold(d, NOTHING, scalars[..n - 1]), last);
    if n == 1 {
      assert scalars[..0] == [];
      starts := [0];
      StaysSane(d, Start(d, last.codePoint), last.codePoint);
      PieceOfOne(d, scalars, 0);
    } else {
      starts := FoldFollows(d, scalars, n - 1);
      starts := FollowsOneMore(d, scalars, n - 1, Fold(d, NOTHING, scalars[..n - 1]), starts);
    }
  }

  lemma FoldOne(d: Detector, g: Segmentation, s: Scalar)
    requires SaneSegmentation(d, g)
    ensures Fold(d, g, [s]) == Feed(d, g, s)
  {
    FeedStaysSane(d, g, s);
    assert Fold(d, Feed(d, g, s), [s][1..]) == Feed(d, g, s);
  }

  /**
   Of every text: the clusters begin at exactly the code points where the rules put a boundary,
   each reaches to the next, and its width is the sum of its code points' columns, in grapheme
   mode at most two.
   */
  lemma SegmentIff(d: Detector, text: seq<CodeUnit>) returns (starts: seq<nat>)
    ensures var scalars, pieces := Decode(text), Segment(d, text);
            && AreStarts(d, scalars, |scalars|, starts) && |pieces| == |starts|
            && forall k :: 0 <= k < |pieces| ==>
                 pieces[k] == PieceBetween(d, scalars, starts[k],
                                           if k + 1 < |starts| then starts[k + 1] else |scalars|)
  {
    var scalars := Decode(text);
    if scalars == [] { starts := []; }
    else {
      starts := FoldFollows(d, scalars, |scalars|);
      assert scalars[..|scalars|] == scalars;
    }
  }
}
