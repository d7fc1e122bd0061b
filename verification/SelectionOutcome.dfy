/**
 What the pipeline of passes comes to, said of the writers as they were before it: which
 writers are dropped, and which components are added to the backup.
 */
module SelectionOutcome {
  import opened ComponentSelection

  /** The component or something below it was excluded, is named, or leaves the shadow set. */
  predicate Tainted(f: Folding, list: seq<string>, volumes: seq<string>, w: Writer, i: nat)
    requires i < |w.components|
  {
    exists j :: 0 <= j < |w.components| && (j == i || IsAncestorOf(f, w.components[i], w.components[j]))
                && (|| w.components[j].isExcluded || ComponentIsNamed(f, w, w.components[j], list)
                    || LeavesShadowSet(f, w.components[j], volumes))
  }

  /** A component that may be added by itself. */
  predicate StandsAlone(c: Component) { c.isSelectable || c.isTopLevel }

  /** The four reasons for which a writer takes no part in the backup. */
  predicate IsDropped(f: Folding, list: seq<string>, volumes: seq<string>, w: Writer) {
    || w.isExcluded || IsNamed(f, w, list)
    || (forall i :: 0 <= i < |w.components| ==>
          w.components[i].isExcluded || ComponentIsNamed(f, w, w.components[i], list))
    || (forall i :: 0 <= i < |w.components| && StandsAlone(w.components[i]) ==> Tainted(f, list, volumes, w, i))
    || (exists i :: 0 <= i < |w.components| && w.components[i].isTopLevel && !w.components[i].isSelectable
                    && Tainted(f, list, volumes, w, i))
  }

  /** A component is added when it may be, and nothing above it may be. */
  predicate IsChosen(f: Folding, list: seq<string>, volumes: seq<string>, w: Writer, i: nat)
    requires i < |w.components|
  {
    && StandsAlone(w.components[i]) && !Tainted(f, list, volumes, w, i)
    && forall j :: 0 <= j < |w.components| && IsAncestorOf(f, w.components[j], w.components[i]) ==>
         !StandsAlone(w.components[j]) || Tainted(f, list, volumes, w, j)
  }

  lemma BeforeClosureIsDropped(f: Folding, list: seq<string>, volumes: seq<string>, w: Writer)
    ensures BeforeClosure(f, list, volumes, w).isExcluded <==>
            || w.isExcluded || IsNamed(f, w, list)
            || forall i :: 0 <= i < |w.components| ==>
                 w.components[i].isExcluded || ComponentIsNamed(f, w, w.components[i], list)
  {
    var cs := DirectPass(f, list, w).components;
    if !IsNamed(f, w, list) {
      forall i | 0 <= i < |w.components|
        ensures |cs| == |w.components|
        ensures cs[i].isExcluded <==> w.components[i].isExcluded || ComponentIsNamed(f, w, w.components[i], list)
      {
      }
    }
  }

  lemma SameAncestries(f: Folding, a: Component, b: Component, a': Component, b': Component)
    requires a.fullPath == a'.fullPath && b.fullPath == b'.fullPath
    ensures IsAncestorOf(f, a, b) <==> IsAncestorOf(f, a', b')
  {
    SameAncestry(f, a, b, b');
    SameAncestry(f, b', a, a');
  }

  lemma ClosureIs(f: Folding, list: seq<string>, volumes: seq<string>, w: Writer, i: nat)
    requires i < |w.components| && !BeforeClosure(f, list, volumes, w).isExcluded
    ensures var r := ClosurePass(f, BeforeClosure(f, list, volumes, w));
            && !r.isExcluded && |r.components| == |w.components| && SamePlace(w.components[i], r.components[i])
            && r.components[i].isExplicitlyIncluded == w.components[i].isExplicitlyIncluded
            && (r.components[i].isExcluded <==> Tainted(f, list, volumes, w, i))
  {
    var cs := BeforeClosure(f, list, volumes, w).components;
    forall j | 0 <= j < |w.components|
      ensures |cs| == |w.components|
      ensures cs[j].isExcluded <==> ExcludedByItself(f, list, volumes, w, w.components[j])
      ensures IsAncestorOf(f, cs[i], cs[j]) <==> IsAncestorOf(f, w.components[i], w.components[j])
    {
      BeforeClosureIs(f, list, volumes, w, i);
      BeforeClosureIs(f, list, volumes, w, j);
      SameAncestries(f, cs[i], cs[j], w.components[i], w.components[j]);
    }
    BeforeClosureIs(f, list, volumes, w, i);
  }

  /**
   A writer is dropped exactly for one of the four reasons: it was excluded or is named, all its
   components were excluded or are named, nothing that may be added by itself is clean, or a
   top-level component that cannot be selected is tainted.
   */
  lemma WriterIsDroppedIff(f: Folding, list: seq<string>, volumes: seq<string>, w: Writer)
    ensures Pipeline(f, list, volumes, w).isExcluded <==> IsDropped(f, list, volumes, w)
  {
    BeforeClosureIsDropped(f, list, volumes, w);
    if !BeforeClosure(f, list, volumes, w).isExcluded {
      forall i | 0 <= i < |w.components|
        ensures var r := ClosurePass(f, BeforeClosure(f, list, volumes, w));
                && |r.components| == |w.components| && SamePlace(w.components[i], r.components[i])
                && (r.components[i].isExcluded <==> Tainted(f, list, volumes, w, i))
      {
        ClosureIs(f, list, volumes, w, i);
      }
      ClosedWriterIsDroppedIff(f, list, volumes, w, ClosurePass(f, BeforeClosure(f, list, volumes, w)));
    }
  }

  lemma ClosedWriterIsDroppedIff(f: Folding, list: seq<string>, volumes: seq<string>, w: Writer, r: Writer)
    requires !r.isExcluded && |r.components| == |w.components|
    requires forall i :: 0 <= i < |w.components| ==>
               && SamePlace(w.components[i], r.components[i])
               && (r.components[i].isExcluded <==> Tainted(f, list, volumes, w, i))
    ensures WriterPass(r).isExcluded <==>
            || (forall i :: 0 <= i < |w.components| && StandsAlone(w.components[i]) ==> Tainted(f, list, volumes, w, i))
            || (exists i :: 0 <= i < |w.components| && w.components[i].isTopLevel && !w.components[i].isSelectable
                            && Tainted(f, list, volumes, w, i))
  {
    forall i | 0 <= i < |w.components|
      ensures CanBeExplicitlyIncluded(r.components[i]) <==>
              StandsAlone(w.components[i]) && !Tainted(f, list, volumes, w, i)
    {
    }
  }

  /** In a writer that takes part, exactly the chosen components are explicit. */
  lemma ExplicitIff(f: Folding, list: seq<string>, volumes: seq<string>, w: Writer, i: nat)
    requires NothingMarked(w) && !IsDropped(f, list, volumes, w) && i < |w.components|
    ensures |Pipeline(f, list, volumes, w).components| == |w.components|
    ensures Pipeline(f, list, volumes, w).components[i].isExplicitlyIncluded <==> IsChosen(f, list, volumes, w, i)
  {
    WriterIsDroppedIff(f, list, volumes, w);
    PipelineMarks(f, list, volumes, w);
    var cs := ClosurePass(f, BeforeClosure(f, list, volumes, w)).components;
    forall j | 0 <= j < |w.components|
      ensures |cs| == |w.components|
      ensures CanBeExplicitlyIncluded(cs[j]) <==>
              StandsAlone(w.components[j]) && !Tainted(f, list, volumes, w, j)
      ensures IsAncestorOf(f, cs[j], cs[i]) <==> IsAncestorOf(f, w.components[j], w.components[i])
    {
      ClosureIs(f, list, volumes, w, i);
      ClosureIs(f, list, volumes, w, j);
      SameAncestries(f, cs[j], cs[i], w.components[j], w.components[i]);
    }
    ClosureIs(f, list, volumes, w, i);
  }

  /** A clean component that may be added is chosen, or lies below one that is. */
  lemma {:induction false} CleanIsCovered(f: Folding, list: seq<string>, volumes: seq<string>, w: Writer, i: nat)
    requires i < |w.components| && StandsAlone(w.components[i]) && !Tainted(f, list, volumes, w, i)
    ensures exists j :: 0 <= j < |w.components| && IsChosen(f, list, volumes, w, j)
                        && (j == i || IsAncestorOf(f, w.components[j], w.components[i]))
    decreases |w.components[i].fullPath|
  {
    if !IsChosen(f, list, volumes, w, i) {
      var j :| 0 <= j < |w.components| && IsAncestorOf(f, w.components[j], w.components[i])
               && StandsAlone(w.components[j]) && !Tainted(f, list, volumes, w, j);
      CleanIsCovered(f, list, volumes, w, j);
      var k :| 0 <= k < |w.components| && IsChosen(f, list, volumes, w, k)
               && (k == j || IsAncestorOf(f, w.components[k], w.components[j]));
      if k != j { AncestryIsTransitive(f, w.components[k], w.components[j], w.components[i]); }
    }
  }

  lemma {:induction false} ExplicitPlacesIff(cs: seq<Component>, writer: nat, n: nat, p: Place)
    requires n <= |cs|
    ensures p in ExplicitPlaces(cs, writer, n) <==>
            p.writer == writer && p.component < n && cs[p.component].isExplicitlyIncluded
  {
    if n > 0 { ExplicitPlacesIff(cs, writer, n - 1, p); }
  }

  lemma {:induction false} WriterPlacesIff(w: Writer, writer: nat, p: Place)
    ensures p in (if w.isExcluded then [] else ExplicitPlaces(w.components, writer, |w.components|)) <==>
            && p.writer == writer && !w.isExcluded && p.component < |w.components|
            && w.components[p.component].isExplicitlyIncluded
  {
    ExplicitPlacesIff(w.components, writer, |w.components|, p);
  }

  predicate IsAdded(writers: seq<Writer>, p: Place)
    requires p.writer < |writers|
  {
    && !writers[p.writer].isExcluded && p.component < |writers[p.writer].components|
    && writers[p.writer].components[p.component].isExplicitlyIncluded
  }

  /** What is in a list that grows part by part. */
  lemma {:induction false} InSomePart<T>(whole: nat -> seq<T>, parts: nat -> seq<T>, n: nat, x: T)
    requires whole(0) == [] && forall k: nat :: k < n ==> whole(k + 1) == whole(k) + parts(k)
    ensures x in whole(n) <==> exists k: nat :: k < n && x in parts(k)
  {
    if n > 0 {
      InSomePart(whole, parts, n - 1, x);
      assert whole(n - 1 + 1) == whole(n - 1) + parts(n - 1);
    }
  }

  function Added(writers: seq<Writer>): nat -> seq<Place> {
    (n: nat) => if n <= |writers| then AddedPlaces(writers, n) else []
  }

  function Part(writers: seq<Writer>): nat -> seq<Place> {
    (n: nat) =>
      if n >= |writers| || writers[n].isExcluded then []
      else ExplicitPlaces(writers[n].components, n, |writers[n].components|)
  }

  lemma AddedGrows(writers: seq<Writer>, k: nat)
    requires k < |writers|
    ensures Added(writers)(k + 1) == Added(writers)(k) + Part(writers)(k)
  {
  }

  lemma PartIff(writers: seq<Writer>, k: nat, p: Place)
    requires k < |writers|
    ensures p in Part(writers)(k) <==> p.writer == k && IsAdded(writers, p)
  {
    WriterPlacesIff(writers[k], k, p);
  }

  lemma AddedPlacesIff(writers: seq<Writer>, p: Place)
    ensures p in Added(writers)(|writers|) <==> p.writer < |writers| && IsAdded(writers, p)
  {
    forall k: nat | k < |writers| ensures Added(writers)(k + 1) == Added(writers)(k) + Part(writers)(k) {
      AddedGrows(writers, k);
    }
    forall k: nat | k < |writers| ensures p in Part(writers)(k) <==> p.writer == k && IsAdded(writers, p) {
      PartIff(writers, k, p);
    }
    assert Added(writers)(0) == [];
    InSomePart(Added(writers), Part(writers), |writers|, p);
    if p.writer < |writers| && IsAdded(writers, p) { assert p in Part(writers)(p.writer); }
  }

  /**
   After every pass, a component is added exactly when its writer is not dropped and the
   component is chosen, both said of the writers before the first pass.
   */
  lemma AddedIff(
    f: Folding, list: seq<string>, volumes: seq<string>, before: seq<Writer>, after: seq<Writer>, p: Place)
    requires |after| == |before|
    requires forall k :: 0 <= k < |before| ==>
               NothingMarked(before[k]) && after[k] == Pipeline(f, list, volumes, before[k])
    ensures p in AddedPlaces(after, |after|) <==>
            && p.writer < |before| && p.component < |before[p.writer].components|
            && !IsDropped(f, list, volumes, before[p.writer])
            && IsChosen(f, list, volumes, before[p.writer], p.component)
  {
    AddedPlacesIff(after, p);
    assert Added(after)(|after|) == AddedPlaces(after, |after|);
    if p.writer < |before| {
      var w := before[p.writer];
      WriterIsDroppedIff(f, list, volumes, w);
      if !IsDropped(f, list, volumes, w) {
        SameCount(f, list, volumes, w);
        if p.component < |w.components| { ExplicitIff(f, list, volumes, w, p.component); }
      }
    }
  }

  lemma SameCount(f: Folding, list: seq<string>, volumes: seq<string>, w: Writer)
    ensures |Pipeline(f, list, volumes, w).components| == |w.components|
  {
  }
}
