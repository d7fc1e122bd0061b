/**
 The selection of VSS components for a backup: a pipeline of passes over each
 writer's components, which form a forest by path prefix.
 */
module ComponentSelection {

  datatype Component = Component(
    fullPath: string, isSelectable: bool, isTopLevel: bool, affectedVolumes: seq<string>,
    isExcluded: bool, isExplicitlyIncluded: bool)

  datatype Writer = Writer(name: string, id: string, instanceId: string, components: seq<Component>, isExcluded: bool)

  /** How the case-insensitive comparison folds a character. */
  type Folding = char -> char

  function Fold(f: Folding, s: string): (t: string)
    ensures |t| == |s| && forall i :: 0 <= i < |s| ==> t[i] == f(s[i])
  {
    seq(|s|, i requires 0 <= i < |s| => f(s[i]))
  }

  predicate IsEqual(f: Folding, a: string, b: string) { Fold(f, a) == Fold(f, b) }

  method FindStringInList(f: Folding, s: string, list: seq<string>) returns (found: bool)
    ensures found <==> Listed(f, s, list)
  {
    for i := 0 to |list|
      invariant forall j :: 0 <= j < i ==> !IsEqual(f, s, list[j])
    {
      if IsEqual(f, s, list[i]) { return true; }
    }
    return false;
  }

  predicate Listed(f: Folding, s: string, list: seq<string>) { exists j :: 0 <= j < |list| && IsEqual(f, s, list[j]) }

  // ----- The forest -----

  function AppendBackslash(s: string): string { if s != "" && s[|s| - 1] == '\\' then s else s + "\\" }

  function Prefix(s: string, n: nat): string { if n <= |s| then s[..n] else s }

  predicate IsAncestorOf(f: Folding, a: Component, d: Component) {
    && |d.fullPath| > |a.fullPath|
    && IsEqual(f, AppendBackslash(a.fullPath), Prefix(AppendBackslash(d.fullPath), |AppendBackslash(a.fullPath)|))
  }

  lemma FoldedPrefix(f: Folding, a: string, d: string)
    ensures IsEqual(f, a, Prefix(d, |a|)) <==> |a| <= |d| && Fold(f, a) == Fold(f, d)[..|a|]
  {
    if |a| <= |d| { assert Fold(f, d[..|a|]) == Fold(f, d)[..|a|]; }
    else { assert |Fold(f, Prefix(d, |a|))| < |Fold(f, a)|; }
  }

  lemma AncestryIsTransitive(f: Folding, a: Component, b: Component, c: Component)
    requires IsAncestorOf(f, a, b) && IsAncestorOf(f, b, c)
    ensures IsAncestorOf(f, a, c)
  {
    var x, y, z := AppendBackslash(a.fullPath), AppendBackslash(b.fullPath), AppendBackslash(c.fullPath);
    FoldedPrefix(f, x, y);
    FoldedPrefix(f, y, z);
    FoldedPrefix(f, x, z);
    assert Fold(f, z)[..|x|] == Fold(f, z)[..|y|][..|x|];
  }

  lemma AncestryIsIrreflexive(f: Folding, a: Component, b: Component)
    requires IsAncestorOf(f, a, b)
    ensures a.fullPath != b.fullPath && !IsAncestorOf(f, b, a)
  {
  }

  predicate CanBeExplicitlyIncluded(c: Component) { !c.isExcluded && (c.isSelectable || c.isTopLevel) }

  // ----- The passes, each as one simultaneous change -----

  predicate IsNamed(f: Folding, w: Writer, list: seq<string>) {
    Listed(f, w.name, list) || Listed(f, w.id, list) || Listed(f, w.instanceId, list)
  }

  predicate ComponentIsNamed(f: Folding, w: Writer, c: Component, list: seq<string>) {
    || Listed(f, w.name + ":" + c.fullPath, list)
    || Listed(f, w.id + ":" + c.fullPath, list)
    || Listed(f, w.instanceId + ":" + c.fullPath, list)
  }

  /** Excludes the components that `exclude` names, by position. */
  function Excluding(cs: seq<Component>, exclude: nat -> bool): (result: seq<Component>)
    ensures |result| == |cs|
    ensures forall i :: 0 <= i < |cs| ==> result[i] == if exclude(i) then cs[i].(isExcluded := true) else cs[i]
  {
    seq(|cs|, (i: nat) requires i < |cs| => if exclude(i) then cs[i].(isExcluded := true) else cs[i])
  }

  predicate AllExcluded(cs: seq<Component>) { forall i :: 0 <= i < |cs| ==> cs[i].isExcluded }

  function DirectPass(f: Folding, list: seq<string>, w: Writer): Writer {
    if IsNamed(f, w, list) then w.(isExcluded := true)
    else
      var cs := Excluding(w.components, (i: nat) => i < |w.components| &&
        ComponentIsNamed(f, w, w.components[i], list));
      w.(components := cs, isExcluded := w.isExcluded || AllExcluded(cs))
  }

  predicate LeavesShadowSet(f: Folding, c: Component, volumes: seq<string>) {
    exists v :: 0 <= v < |c.affectedVolumes| && !Listed(f, c.affectedVolumes[v], volumes)
  }

  function ShadowPass(f: Folding, volumes: seq<string>, w: Writer): Writer {
    if w.isExcluded then w
    else
      w.(components :=
           Excluding(w.components, (i: nat) => i < |w.components| && LeavesShadowSet(f, w.components[i], volumes)))
  }

  predicate HasExcludedDescendant(f: Folding, cs: seq<Component>, c: Component) {
    exists j :: 0 <= j < |cs| && IsAncestorOf(f, c, cs[j]) && cs[j].isExcluded
  }

  function ClosurePass(f: Folding, w: Writer): Writer {
    if w.isExcluded then w
    else
      var cs := w.components;
      w.(components := Excluding(cs, (i: nat) => i < |cs| && HasExcludedDescendant(f, cs, cs[i])))
  }

  function WriterPass(w: Writer): Writer {
    if w.isExcluded then w
    else w.(isExcluded :=
              || (forall i :: 0 <= i < |w.components| ==> !CanBeExplicitlyIncluded(w.components[i]))
              || (exists i ::
                    && 0 <= i < |w.components| && w.components[i].isTopLevel
                    && !w.components[i].isSelectable && w.components[i].isExcluded))
  }

  predicate HasIncludableAncestor(f: Folding, cs: seq<Component>, c: Component) {
    exists j :: 0 <= j < |cs| && IsAncestorOf(f, cs[j], c) && CanBeExplicitlyIncluded(cs[j])
  }

  function Marked(f: Folding, cs: seq<Component>, c: Component): Component {
    if CanBeExplicitlyIncluded(c) then c.(isExplicitlyIncluded := !HasIncludableAncestor(f, cs, c)) else c
  }

  function ExplicitPass(f: Folding, w: Writer): (w': Writer)
    ensures |w'.components| == |w.components|
  {
    if w.isExcluded then w
    else w.(components :=
      seq(|w.components|, (i: nat) requires i < |w.components| => Marked(f, w.components, w.components[i])))
  }

  function Pipeline(f: Folding, list: seq<string>, volumes: seq<string>, w: Writer): Writer {
    ExplicitPass(f, WriterPass(ClosurePass(f, ShadowPass(f, volumes, DirectPass(f, list, w)))))
  }

  // ----- One in-place pass reaches the closure -----

  /** The components `cs` after the in-place pass has handled the first `n`. */
  ghost predicate Closing(f: Folding, before: seq<Component>, cs: seq<Component>, n: nat) {
    && n <= |before| == |cs|
    && (forall k :: 0 <= k < n ==>
          cs[k] == if HasExcludedDescendant(f, before, before[k]) then before[k].(isExcluded := true) else before[k])
    && (forall k :: n <= k < |cs| ==> cs[k] == before[k])
  }

  lemma EarlierExclusionStays(f: Folding, before: seq<Component>, cs: seq<Component>, n: nat)
    requires n < |before| && Closing(f, before, cs, n) && HasExcludedDescendant(f, before, before[n])
    ensures HasExcludedDescendant(f, cs, before[n])
  {
    var j :| 0 <= j < |before| && IsAncestorOf(f, before[n], before[j]) && before[j].isExcluded;
    assert cs[j].fullPath == before[j].fullPath && cs[j].isExcluded;
  }

  lemma ExclusionHasOrigin(f: Folding, before: seq<Component>, c: Component, j: nat)
    requires j < |before| && IsAncestorOf(f, c, before[j])
    requires before[j].isExcluded || HasExcludedDescendant(f, before, before[j])
    ensures HasExcludedDescendant(f, before, c)
  {
    if !before[j].isExcluded {
      var l :| 0 <= l < |before| && IsAncestorOf(f, before[j], before[l]) && before[l].isExcluded;
      AncestryIsTransitive(f, c, before[j], before[l]);
    }
  }

  lemma SameAncestry(f: Folding, a: Component, b: Component, b': Component)
    requires b.fullPath == b'.fullPath
    ensures IsAncestorOf(f, a, b) <==> IsAncestorOf(f, a, b')
    ensures IsAncestorOf(f, b, a) <==> IsAncestorOf(f, b', a)
  {
  }

  /** Components excluded by the pass so far add nothing that was not excluded below them before. */
  lemma EarlierExclusionsAddNothing(f: Folding, before: seq<Component>, cs: seq<Component>, n: nat)
    requires n < |before| && Closing(f, before, cs, n)
    ensures HasExcludedDescendant(f, cs, before[n]) <==> HasExcludedDescendant(f, before, before[n])
  {
    if HasExcludedDescendant(f, before, before[n]) { EarlierExclusionStays(f, before, cs, n); }
    if j :| 0 <= j < |cs| && IsAncestorOf(f, before[n], cs[j]) && cs[j].isExcluded {
      SameAncestry(f, before[n], before[j], cs[j]);
      ExclusionHasOrigin(f, before, before[n], j);
    }
  }

  /** The in-place loops of `DiscoverAllExcludedComponents` for one writer. */
  method CloseExclusions(f: Folding, before: seq<Component>) returns (cs: seq<Component>)
    ensures cs == Excluding(before, (i: nat) => i < |before| && HasExcludedDescendant(f, before, before[i]))
  {
    cs := before;
    for i := 0 to |before|
      invariant |cs| == |before| && Closing(f, before, cs, i)
    {
      var found := FindExcludedDescendant(f, cs, cs[i]);
      ClosingStep(f, before, cs, i);
      if found { cs := cs[i := cs[i].(isExcluded := true)]; }
    }
    ClosedIsExcluding(f, before, cs);
  }

  lemma ClosingStep(f: Folding, before: seq<Component>, cs: seq<Component>, i: nat)
    requires i < |before| && Closing(f, before, cs, i)
    ensures Closing(f, before, if HasExcludedDescendant(f, cs, cs[i]) then cs[i := cs[i].(isExcluded := true)]
            else cs, i + 1)
  {
    EarlierExclusionsAddNothing(f, before, cs, i);
  }

  lemma ClosedIsExcluding(f: Folding, before: seq<Component>, cs: seq<Component>)
    requires Closing(f, before, cs, |before|)
    ensures cs == Excluding(before, (i: nat) => i < |before| && HasExcludedDescendant(f, before, before[i]))
  {
  }

  method FindExcludedDescendant(f: Folding, cs: seq<Component>, c: Component) returns (found: bool)
    ensures found <==> HasExcludedDescendant(f, cs, c)
  {
    for j := 0 to |cs|
      invariant forall k :: 0 <= k < j ==> !(IsAncestorOf(f, c, cs[k]) && cs[k].isExcluded)
    {
      if IsAncestorOf(f, c, cs[j]) && cs[j].isExcluded { return true; }
    }
    return false;
  }

  // ----- The properties of the whole selection -----

  /** Excluded before, named by the caller, or touching a volume outside the shadow set. */
  predicate ExcludedByItself(f: Folding, list: seq<string>, volumes: seq<string>, w: Writer, c: Component) {
    c.isExcluded || ComponentIsNamed(f, w, c, list) || LeavesShadowSet(f, c, volumes)
  }

  /** The writer as the closure pass finds it. */
  function BeforeClosure(f: Folding, list: seq<string>, volumes: seq<string>, w: Writer): Writer {
    ShadowPass(f, volumes, DirectPass(f, list, w))
  }

  predicate SamePlace(c: Component, c': Component) {
    && c'.fullPath == c.fullPath && c'.isSelectable == c.isSelectable && c'.isTopLevel == c.isTopLevel
    && c'.affectedVolumes == c.affectedVolumes
  }

  lemma BeforeClosureIs(f: Folding, list: seq<string>, volumes: seq<string>, w: Writer, i: nat)
    requires i < |w.components| && !BeforeClosure(f, list, volumes, w).isExcluded
    ensures var w' := BeforeClosure(f, list, volumes, w);
            && |w'.components| == |w.components|
            && SamePlace(w.components[i], w'.components[i])
            && w'.components[i].isExplicitlyIncluded == w.components[i].isExplicitlyIncluded
            && (w'.components[i].isExcluded <==> ExcludedByItself(f, list, volumes, w, w.components[i]))
  {
  }

  lemma PipelineIs(f: Folding, list: seq<string>, volumes: seq<string>, w: Writer, i: nat)
    requires i < |w.components| && !Pipeline(f, list, volumes, w).isExcluded
    ensures var w', r := BeforeClosure(f, list, volumes, w), Pipeline(f, list, volumes, w);
            && !w'.isExcluded && |r.components| == |w.components| == |w'.components|
            && SamePlace(w.components[i], r.components[i])
            && (r.components[i].isExcluded <==>
                  w'.components[i].isExcluded || HasExcludedDescendant(f, w'.components, w'.components[i]))
  {
    BeforeClosureIs(f, list, volumes, w, i);
  }

  /**
   One in-place pass closes the exclusion upward: a component ends up excluded
   exactly when it, or something below it, was excluded by itself.
   */
  lemma ExcludedIff(f: Folding, list: seq<string>, volumes: seq<string>, w: Writer, i: nat)
    requires i < |w.components| && !Pipeline(f, list, volumes, w).isExcluded
    ensures |Pipeline(f, list, volumes, w).components| == |w.components|
    ensures Pipeline(f, list, volumes, w).components[i].isExcluded <==>
            exists j :: 0 <= j < |w.components| && (j == i || IsAncestorOf(f, w.components[i], w.components[j]))
                        && ExcludedByItself(f, list, volumes, w, w.components[j])
  {
    PipelineIs(f, list, volumes, w, i);
    var cs := BeforeClosure(f, list, volumes, w).components;
    forall j | 0 <= j < |w.components|
      ensures cs[j].isExcluded <==> ExcludedByItself(f, list, volumes, w, w.components[j])
      ensures IsAncestorOf(f, cs[i], cs[j]) <==> IsAncestorOf(f, w.components[i], w.components[j])
    {
      BeforeClosureIs(f, list, volumes, w, i);
      BeforeClosureIs(f, list, volumes, w, j);
      SameAncestry(f, cs[i], cs[j], w.components[j]);
      SameAncestry(f, w.components[j], cs[i], w.components[i]);
    }
  }

  /** What is below a component that is not excluded is not excluded and stays inside the shadow set. */
  lemma IncludedIsClosed(f: Folding, list: seq<string>, volumes: seq<string>, w: Writer, i: nat, j: nat)
    requires i < |w.components| && j < |w.components| && !Pipeline(f, list, volumes, w).isExcluded
    requires |Pipeline(f, list, volumes, w).components| == |w.components|
    requires !Pipeline(f, list, volumes, w).components[i].isExcluded
    requires j == i || IsAncestorOf(f, w.components[i], w.components[j])
    ensures !Pipeline(f, list, volumes, w).components[j].isExcluded && !LeavesShadowSet(f, w.components[j], volumes)
  {
    ExcludedIff(f, list, volumes, w, i);
    ExcludedIff(f, list, volumes, w, j);
    if k :| 0 <= k < |w.components| && (k == j || IsAncestorOf(f, w.components[j], w.components[k]))
            && ExcludedByItself(f, list, volumes, w, w.components[k])
    {
      if j != i && k != j { AncestryIsTransitive(f, w.components[i], w.components[j], w.components[k]); }
    }
  }

  predicate HasExplicitAncestor(f: Folding, cs: seq<Component>, c: Component) {
    exists j :: 0 <= j < |cs| && IsAncestorOf(f, cs[j], c) && cs[j].isExplicitlyIncluded
  }

  /** The components of a writer that the last pass has marked. */
  ghost predicate IsMarked(f: Folding, cs: seq<Component>, marked: seq<Component>) {
    && |marked| == |cs|
    && (forall i :: 0 <= i < |cs| ==> SamePlace(cs[i], marked[i]) && marked[i].isExcluded == cs[i].isExcluded)
    && (forall i :: 0 <= i < |cs| ==>
          (marked[i].isExplicitlyIncluded <==> CanBeExplicitlyIncluded(cs[i]) && !HasIncludableAncestor(f, cs, cs[i])))
  }

  lemma IncludableAncestorIs(f: Folding, cs: seq<Component>, marked: seq<Component>, i: nat) returns (j: nat)
    requires IsMarked(f, cs, marked) && i < |cs| && HasIncludableAncestor(f, cs, cs[i])
    ensures j < |cs| && IsAncestorOf(f, marked[j], marked[i]) && CanBeExplicitlyIncluded(marked[j])
    ensures |marked[j].fullPath| < |marked[i].fullPath|
  {
    j :| 0 <= j < |cs| && IsAncestorOf(f, cs[j], cs[i]) && CanBeExplicitlyIncluded(cs[j]);
    SameAncestry(f, cs[j], cs[i], marked[i]);
    SameAncestry(f, marked[i], cs[j], marked[j]);
  }

  /** Every includable component is explicit or lies below an explicit one. */
  lemma {:induction false} IncludableIsCovered(f: Folding, cs: seq<Component>, marked: seq<Component>, i: nat)
    requires IsMarked(f, cs, marked) && i < |cs| && CanBeExplicitlyIncluded(marked[i])
    ensures marked[i].isExplicitlyIncluded || HasExplicitAncestor(f, marked, marked[i])
    decreases |marked[i].fullPath|
  {
    if HasIncludableAncestor(f, cs, cs[i]) {
      var j := IncludableAncestorIs(f, cs, marked, i);
      IncludableIsCovered(f, cs, marked, j);
      CoveredThroughAncestor(f, marked, i, j);
    }
  }

  lemma CoveredThroughAncestor(f: Folding, marked: seq<Component>, i: nat, j: nat)
    requires i < |marked| && j < |marked| && IsAncestorOf(f, marked[j], marked[i])
    requires marked[j].isExplicitlyIncluded || HasExplicitAncestor(f, marked, marked[j])
    ensures HasExplicitAncestor(f, marked, marked[i])
  {
    if !marked[j].isExplicitlyIncluded {
      var k :| 0 <= k < |marked| && IsAncestorOf(f, marked[k], marked[j]) && marked[k].isExplicitlyIncluded;
      AncestryIsTransitive(f, marked[k], marked[j], marked[i]);
    }
  }

  /** No explicit component lies below another. */
  lemma ExplicitIsAntichain(f: Folding, cs: seq<Component>, marked: seq<Component>, i: nat, j: nat)
    requires IsMarked(f, cs, marked) && i < |cs| && j < |cs| && marked[i].isExplicitlyIncluded
    requires marked[j].isExplicitlyIncluded
    ensures !IsAncestorOf(f, marked[i], marked[j])
  {
    SameAncestry(f, marked[j], cs[i], marked[i]);
    SameAncestry(f, cs[i], cs[j], marked[j]);
  }

  ghost predicate NothingMarked(w: Writer) {
    forall i :: 0 <= i < |w.components| ==> !w.components[i].isExplicitlyIncluded
  }

  lemma PipelineMarks(f: Folding, list: seq<string>, volumes: seq<string>, w: Writer)
    requires NothingMarked(w) && !Pipeline(f, list, volumes, w).isExcluded
    ensures IsMarked(f, ClosurePass(f, BeforeClosure(f, list, volumes, w)).components,
            Pipeline(f, list, volumes, w).components)
  {
    var w4 := WriterPass(ClosurePass(f, BeforeClosure(f, list, volumes, w)));
    forall i | 0 <= i < |w.components|
      ensures !w4.components[i].isExplicitlyIncluded && |w4.components| == |w.components|
    {
      PipelineIs(f, list, volumes, w, i);
      BeforeClosureIs(f, list, volumes, w, i);
    }
  }

  lemma ExcludedWritersStayUnmarked(f: Folding, list: seq<string>, volumes: seq<string>, w: Writer)
    requires NothingMarked(w) && Pipeline(f, list, volumes, w).isExcluded
    ensures NothingMarked(Pipeline(f, list, volumes, w))
  {
  }

  /**
   The selection in a writer that was not excluded: an explicit component and
   everything below it is not excluded and touches only shadowed volumes; no
   explicit component is below another; and whatever could be included is
   explicit or below an explicit component.
   */
  lemma SelectionTheorem(f: Folding, list: seq<string>, volumes: seq<string>, w: Writer)
    requires NothingMarked(w) && !Pipeline(f, list, volumes, w).isExcluded
    ensures var cs := Pipeline(f, list, volumes, w).components;
            && |cs| == |w.components|
            && (forall i, j ::
                  && 0 <= i < |cs| && 0 <= j < |cs| && cs[i].isExplicitlyIncluded
                  && (j == i || IsAncestorOf(f, cs[i], cs[j])) ==>
                  !cs[j].isExcluded && !LeavesShadowSet(f, cs[j], volumes))
            && (forall i, j ::
                  0 <= i < |cs| && 0 <= j < |cs| && cs[i].isExplicitlyIncluded && cs[j].isExplicitlyIncluded ==>
                  !IsAncestorOf(f, cs[i], cs[j]))
            && (forall i :: 0 <= i < |cs| && CanBeExplicitlyIncluded(cs[i]) ==>
                  cs[i].isExplicitlyIncluded || HasExplicitAncestor(f, cs, cs[i]))
  {
    var cs := Pipeline(f, list, volumes, w).components;
    var before := ClosurePass(f, BeforeClosure(f, list, volumes, w)).components;
    PipelineMarks(f, list, volumes, w);
    forall i, j | 0 <= i < |cs| && 0 <= j < |cs| && cs[i].isExplicitlyIncluded &&
      (j == i || IsAncestorOf(f, cs[i], cs[j]))
      ensures !cs[j].isExcluded && !LeavesShadowSet(f, cs[j], volumes)
    {
      PlacesAgree(f, list, volumes, w, i, j);
      IncludedIsClosed(f, list, volumes, w, i, j);
    }
    forall i, j | 0 <= i < |cs| && 0 <= j < |cs| && cs[i].isExplicitlyIncluded && cs[j].isExplicitlyIncluded
      ensures !IsAncestorOf(f, cs[i], cs[j])
    {
      ExplicitIsAntichain(f, before, cs, i, j);
    }
    forall i | 0 <= i < |cs| && CanBeExplicitlyIncluded(cs[i])
      ensures cs[i].isExplicitlyIncluded || HasExplicitAncestor(f, cs, cs[i])
    {
      IncludableIsCovered(f, before, cs, i);
    }
  }

  lemma PlacesAgree(f: Folding, list: seq<string>, volumes: seq<string>, w: Writer, i: nat, j: nat)
    requires i < |w.components| && j < |w.components| && !Pipeline(f, list, volumes, w).isExcluded
    ensures var cs := Pipeline(f, list, volumes, w).components;
            && |cs| == |w.components| && SamePlace(w.components[j], cs[j])
            && (IsAncestorOf(f, cs[i], cs[j]) <==> IsAncestorOf(f, w.components[i], w.components[j]))
  {
    PipelineIs(f, list, volumes, w, i);
    PipelineIs(f, list, volumes, w, j);
    var cs := Pipeline(f, list, volumes, w).components;
    SameAncestry(f, cs[i], cs[j], w.components[j]);
    SameAncestry(f, w.components[j], cs[i], w.components[i]);
  }

  // ----- Top-level components -----

  predicate HasAncestor(f: Folding, cs: seq<Component>, c: Component) {
    exists j :: 0 <= j < |cs| && IsAncestorOf(f, cs[j], c)
  }

  ghost predicate TopLevelIsRoot(f: Folding, cs: seq<Component>) {
    forall i :: 0 <= i < |cs| ==> (cs[i].isTopLevel <==> !HasAncestor(f, cs, cs[i]))
  }

  /** The discovery loops of `VssWriter::Initialize`. */
  method DiscoverTopLevel(f: Folding, components: seq<Component>) returns (cs: seq<Component>)
    ensures |cs| == |components| && TopLevelIsRoot(f, cs)
    ensures forall i :: 0 <= i < |cs| ==> cs[i] == components[i].(isTopLevel := cs[i].isTopLevel)
  {
    cs := components;
    for i := 0 to |components|
      invariant |cs| == |components|
      invariant forall k :: 0 <= k < |cs| ==> cs[k] == components[k].(isTopLevel := cs[k].isTopLevel)
      invariant forall k :: 0 <= k < i ==> (cs[k].isTopLevel <==> !HasAncestor(f, components, components[k]))
    {
      var below := FindAncestor(f, cs, cs[i]);
      SameRoots(f, components, cs, i);
      cs := cs[i := cs[i].(isTopLevel := !below)];
    }
    forall i | 0 <= i < |cs| ensures HasAncestor(f, cs, cs[i]) <==> HasAncestor(f, components, components[i]) {
      SameRoots(f, components, cs, i);
    }
  }

  method FindAncestor(f: Folding, cs: seq<Component>, c: Component) returns (found: bool)
    ensures found <==> HasAncestor(f, cs, c)
  {
    found := false;
    for j := 0 to |cs|
      invariant found <==> exists k :: 0 <= k < j && IsAncestorOf(f, cs[k], c)
    {
      if IsAncestorOf(f, cs[j], c) { found := true; }
    }
  }

  lemma SameRoots(f: Folding, a: seq<Component>, b: seq<Component>, i: nat)
    requires |a| == |b| && i < |a| && forall k :: 0 <= k < |a| ==> a[k].fullPath == b[k].fullPath
    ensures HasAncestor(f, a, a[i]) <==> HasAncestor(f, b, b[i])
  {
    forall k | 0 <= k < |a| ensures IsAncestorOf(f, a[k], a[i]) <==> IsAncestorOf(f, b[k], b[i]) {
      SameAncestry(f, a[k], a[i], b[i]);
      SameAncestry(f, b[i], a[k], b[k]);
    }
  }

  /** Above every component that is not top-level there is one that is. */
  lemma {:induction false} RootAbove(f: Folding, cs: seq<Component>, i: nat) returns (root: nat)
    requires TopLevelIsRoot(f, cs) && i < |cs| && !cs[i].isTopLevel
    ensures root < |cs| && cs[root].isTopLevel && IsAncestorOf(f, cs[root], cs[i])
    decreases |cs[i].fullPath|
  {
    root :| 0 <= root < |cs| && IsAncestorOf(f, cs[root], cs[i]);
    if !cs[root].isTopLevel {
      var j := root;
      root := RootAbove(f, cs, j);
      AncestryIsTransitive(f, cs[root], cs[j], cs[i]);
    }
  }

  /** With top-level components discovered, a component with nothing excluded above it is backed up. */
  lemma NothingExcludedAboveMeansCovered(f: Folding, cs: seq<Component>, marked: seq<Component>, i: nat)
    requires IsMarked(f, cs, marked) && TopLevelIsRoot(f, marked) && i < |marked| && !marked[i].isExcluded
    requires forall j :: 0 <= j < |marked| && IsAncestorOf(f, marked[j], marked[i]) ==> !marked[j].isExcluded
    ensures marked[i].isExplicitlyIncluded || HasExplicitAncestor(f, marked, marked[i])
  {
    if CanBeExplicitlyIncluded(marked[i]) { IncludableIsCovered(f, cs, marked, i); }
    else {
      var root := RootAbove(f, marked, i);
      IncludableIsCovered(f, cs, marked, root);
      CoveredThroughAncestor(f, marked, i, root);
    }
  }

  // ----- The passes as loops -----

  method ComponentNamed(f: Folding, w: Writer, c: Component, list: seq<string>) returns (named: bool)
    ensures named <==> ComponentIsNamed(f, w, c, list)
  {
    named := FindStringInList(f, w.name + ":" + c.fullPath, list);
    if !named { named := FindStringInList(f, w.id + ":" + c.fullPath, list); }
    if !named { named := FindStringInList(f, w.instanceId + ":" + c.fullPath, list); }
  }

  method ExcludeDirectly(f: Folding, w: Writer, list: seq<string>) returns (w': Writer)
    ensures w' == DirectPass(f, list, w)
  {
    var named := FindStringInList(f, w.name, list);
    if !named { named := FindStringInList(f, w.id, list); }
    if !named { named := FindStringInList(f, w.instanceId, list); }
    if named { return w.(isExcluded := true); }
    var cs := w.components;
    for i := 0 to |w.components|
      invariant |cs| == |w.components|
      invariant forall k :: 0 <= k < i ==>
        cs[k] == if ComponentIsNamed(f, w, w.components[k], list) then w.components[k].(isExcluded := true)
          else w.components[k]
      invariant forall k :: i <= k < |cs| ==> cs[k] == w.components[k]
    {
      named := ComponentNamed(f, w, cs[i], list);
      if named { cs := cs[i := cs[i].(isExcluded := true)]; }
    }
    var someLeft := false;
    for i := 0 to |cs|
      invariant someLeft <==> exists k :: 0 <= k < i && !cs[k].isExcluded
    {
      if !cs[i].isExcluded { someLeft := true; }
    }
    assert cs == Excluding(w.components, (i: nat) => i < |w.components| &&
      ComponentIsNamed(f, w, w.components[i], list));
    w' := w.(components := cs);
    if !someLeft { w' := w'.(isExcluded := true); }
  }

  method TouchesUnshadowed(f: Folding, c: Component, volumes: seq<string>) returns (touches: bool)
    ensures touches <==> LeavesShadowSet(f, c, volumes)
  {
    for v := 0 to |c.affectedVolumes|
      invariant forall k :: 0 <= k < v ==> Listed(f, c.affectedVolumes[k], volumes)
    {
      var shadowed := FindStringInList(f, c.affectedVolumes[v], volumes);
      if !shadowed { return true; }
    }
    return false;
  }

  method ExcludeUnshadowed(f: Folding, w: Writer, volumes: seq<string>) returns (w': Writer)
    ensures w' == ShadowPass(f, volumes, w)
  {
    if w.isExcluded { return w; }
    var cs := w.components;
    for i := 0 to |w.components|
      invariant |cs| == |w.components|
      invariant forall k :: 0 <= k < i ==>
        cs[k] == if LeavesShadowSet(f, w.components[k], volumes) then w.components[k].(isExcluded := true)
          else w.components[k]
      invariant forall k :: i <= k < |cs| ==> cs[k] == w.components[k]
    {
      if !cs[i].isExcluded {
        var touches := TouchesUnshadowed(f, cs[i], volumes);
        if touches { cs := cs[i := cs[i].(isExcluded := true)]; }
      }
    }
    assert cs == Excluding(w.components, (i: nat) => i < |w.components| &&
      LeavesShadowSet(f, w.components[i], volumes));
    w' := w.(components := cs);
  }

  method ExcludeWriter(w: Writer) returns (w': Writer)
    ensures w' == WriterPass(w)
  {
    if w.isExcluded { return w; }
    w' := w.(isExcluded := true);
    for i := 0 to |w.components|
      invariant forall k :: 0 <= k < i ==> !CanBeExplicitlyIncluded(w.components[k])
      invariant w' == w.(isExcluded := true)
    {
      if CanBeExplicitlyIncluded(w.components[i]) {
        w' := w.(isExcluded := false);
        break;
      }
    }
    if w'.isExcluded { return; }
    for i := 0 to |w.components|
      invariant forall k :: 0 <= k < i ==>
        !(w.components[k].isTopLevel && !w.components[k].isSelectable && w.components[k].isExcluded)
      invariant w' == w.(isExcluded := false)
    {
      if w.components[i].isTopLevel && !w.components[i].isSelectable && w.components[i].isExcluded {
        w' := w.(isExcluded := true);
        return;
      }
    }
  }

  /** The marks set so far do not change what can be included, so marking in place is marking at once. */
  method MarkExplicit(f: Folding, w: Writer) returns (w': Writer)
    ensures w' == ExplicitPass(f, w)
  {
    if w.isExcluded { return w; }
    var cs := w.components;
    for i := 0 to |w.components|
      invariant |cs| == |w.components|
      invariant forall k :: 0 <= k < i ==> cs[k] == Marked(f, w.components, w.components[k])
      invariant forall k :: i <= k < |cs| ==> cs[k] == w.components[k]
    {
      if CanBeExplicitlyIncluded(cs[i]) {
        cs := cs[i := cs[i].(isExplicitlyIncluded := true)];
        var below := FindIncludableAncestor(f, cs, cs[i]);
        MarksDoNotMatter(f, w.components, cs, i);
        if below { cs := cs[i := cs[i].(isExplicitlyIncluded := false)]; }
      }
    }
    w' := w.(components := cs);
    assert w'.components == ExplicitPass(f, w).components;
  }

  method FindIncludableAncestor(f: Folding, cs: seq<Component>, c: Component) returns (found: bool)
    ensures found <==> HasIncludableAncestor(f, cs, c)
  {
    for j := 0 to |cs|
      invariant forall k :: 0 <= k < j ==> !(IsAncestorOf(f, cs[k], c) && CanBeExplicitlyIncluded(cs[k]))
    {
      if IsAncestorOf(f, cs[j], c) && CanBeExplicitlyIncluded(cs[j]) { return true; }
    }
    return false;
  }

  lemma MarksDoNotMatter(f: Folding, a: seq<Component>, b: seq<Component>, i: nat)
    requires |a| == |b| && i < |a|
    requires forall k :: 0 <= k < |a| ==> b[k] == a[k].(isExplicitlyIncluded := b[k].isExplicitlyIncluded)
    ensures HasIncludableAncestor(f, a, a[i]) <==> HasIncludableAncestor(f, b, b[i])
  {
    forall k | 0 <= k < |a| ensures IsAncestorOf(f, a[k], a[i]) <==> IsAncestorOf(f, b[k], b[i]) {
      SameAncestry(f, a[k], a[i], b[i]);
      SameAncestry(f, b[i], a[k], b[k]);
    }
  }

  // ----- What is added, and what is told of the outcome -----

  /** A component of a writer, by position. */
  datatype Place = Place(writer: nat, component: nat)

  function ExplicitPlaces(cs: seq<Component>, writer: nat, n: nat): seq<Place>
    requires n <= |cs|
  {
    if n == 0 then []
    else ExplicitPlaces(cs, writer, n - 1) + if cs[n - 1].isExplicitlyIncluded then [Place(writer, n - 1)] else []
  }

  /** The components added to the backup: the explicit ones of the writers that are not excluded. */
  function AddedPlaces(writers: seq<Writer>, n: nat): seq<Place>
    requires n <= |writers|
  {
    if n == 0 then []
    else AddedPlaces(writers, n - 1)
         + if writers[n - 1].isExcluded then []
           else ExplicitPlaces(writers[n - 1].components, n - 1, |writers[n - 1].components|)
  }

  /** The components told of the outcome: the explicit ones of all writers. */
  function NotifiedPlaces(writers: seq<Writer>, n: nat): seq<Place>
    requires n <= |writers|
  {
    if n == 0 then []
    else NotifiedPlaces(writers, n - 1) + ExplicitPlaces(writers[n - 1].components, n - 1, |writers[n - 1].components|)
  }

  lemma {:induction false} UnmarkedHasNoPlaces(cs: seq<Component>, writer: nat, n: nat)
    requires n <= |cs| && forall i :: 0 <= i < |cs| ==> !cs[i].isExplicitlyIncluded
    ensures ExplicitPlaces(cs, writer, n) == []
  {
    if n > 0 { UnmarkedHasNoPlaces(cs, writer, n - 1); }
  }

  /** Whoever was added is notified, and nobody else. */
  lemma {:induction false} NotifiedAreAdded(writers: seq<Writer>, n: nat)
    requires n <= |writers| && forall k :: 0 <= k < |writers| && writers[k].isExcluded ==> NothingMarked(writers[k])
    ensures NotifiedPlaces(writers, n) == AddedPlaces(writers, n)
  {
    if n > 0 {
      NotifiedAreAdded(writers, n - 1);
      if writers[n - 1].isExcluded {
        UnmarkedHasNoPlaces(writers[n - 1].components, n - 1, |writers[n - 1].components|);
      }
    }
  }

  // ----- Requested components -----

  predicate MatchesComponent(f: Folding, w: Writer, c: Component, requested: string) {
    && !w.isExcluded && !c.isExcluded
    && (|| IsEqual(f, w.name + ":" + c.fullPath, requested) || IsEqual(f, w.id + ":" + c.fullPath, requested)
        || IsEqual(f, w.instanceId + ":" + c.fullPath, requested))
  }

  predicate MatchesWriter(f: Folding, w: Writer, requested: string) {
    !w.isExcluded &&
      (IsEqual(f, requested, w.name) || IsEqual(f, requested, w.id) || IsEqual(f, requested, w.instanceId))
  }

  predicate IsCovered(f: Folding, cs: seq<Component>, c: Component) {
    c.isExplicitlyIncluded || HasExplicitAncestor(f, cs, c)
  }

  method FindExplicitAncestor(f: Folding, cs: seq<Component>, c: Component) returns (found: bool)
    ensures found <==> HasExplicitAncestor(f, cs, c)
  {
    for j := 0 to |cs|
      invariant forall k :: 0 <= k < j ==> !(IsAncestorOf(f, cs[k], c) && cs[k].isExplicitlyIncluded)
    {
      if IsAncestorOf(f, cs[j], c) && cs[j].isExplicitlyIncluded { return true; }
    }
    return false;
  }

  /** The first component of that name, writer by writer, among those not excluded. */
  ghost predicate FirstMatch(f: Folding, writers: seq<Writer>, requested: string, a: nat, b: nat) {
    && a < |writers| && b < |writers[a].components|
    && MatchesComponent(f, writers[a], writers[a].components[b], requested)
    && (forall k :: 0 <= k < b ==> !MatchesComponent(f, writers[a], writers[a].components[k], requested))
    && (forall k :: 0 <= k < a ==> !AnyMatches(f, writers[k], requested))
  }

  predicate AnyMatches(f: Folding, w: Writer, requested: string) {
    exists b :: 0 <= b < |w.components| && MatchesComponent(f, w, w.components[b], requested)
  }

  lemma FirstMatchIsUnique(f: Folding, writers: seq<Writer>, requested: string, a: nat, b: nat, a': nat, b': nat)
    requires FirstMatch(f, writers, requested, a, b) && FirstMatch(f, writers, requested, a', b')
    ensures a == a' && b == b'
  {
    assert AnyMatches(f, writers[a], requested) && AnyMatches(f, writers[a'], requested);
  }

  ghost predicate ComponentIsIncluded(f: Folding, writers: seq<Writer>, requested: string) {
    exists a: nat, b: nat :: FirstMatch(f, writers, requested, a, b) &&
      IsCovered(f, writers[a].components, writers[a].components[b])
  }

  method FindComponent(f: Folding, w: Writer, requested: string) returns (b: nat)
    ensures b <= |w.components| && (forall k :: 0 <= k < b ==> !MatchesComponent(f, w, w.components[k], requested))
    ensures b < |w.components| ==> MatchesComponent(f, w, w.components[b], requested)
  {
    b := 0;
    while b < |w.components| && !MatchesComponent(f, w, w.components[b], requested)
      invariant b <= |w.components| && forall k :: 0 <= k < b ==> !MatchesComponent(f, w, w.components[k], requested)
    {
      b := b + 1;
    }
  }

  /** Accepted exactly when the first component of that name is explicit or below an explicit one. */
  method VerifyExplicitelyIncludedComponent(f: Folding, writers: seq<Writer>, requested: string) returns (ok: bool)
    ensures ok <==> ComponentIsIncluded(f, writers, requested)
  {
    for a := 0 to |writers|
      invariant forall k :: 0 <= k < a ==> !AnyMatches(f, writers[k], requested)
    {
      var cs := writers[a].components;
      var b := FindComponent(f, writers[a], requested);
      if b < |cs| {
        ok := cs[b].isExplicitlyIncluded;
        if !ok { ok := FindExplicitAncestor(f, cs, cs[b]); }
        assert FirstMatch(f, writers, requested, a, b);
        forall a': nat, b': nat | FirstMatch(f, writers, requested, a', b') ensures a' == a && b' == b {
          FirstMatchIsUnique(f, writers, requested, a, b, a', b');
        }
        return;
      }
    }
    NoMatchIsNotIncluded(f, writers, requested);
    return false;
  }

  lemma NoMatchIsNotIncluded(f: Folding, writers: seq<Writer>, requested: string)
    requires forall k :: 0 <= k < |writers| ==> !AnyMatches(f, writers[k], requested)
    ensures !ComponentIsIncluded(f, writers, requested)
  {
    forall a: nat, b: nat ensures !FirstMatch(f, writers, requested, a, b) {
      if a < |writers| { assert !AnyMatches(f, writers[a], requested); }
    }
  }

  /** Accepted exactly when the first writer of that name has no excluded component. */
  method VerifyExplicitelyIncludedWriter(f: Folding, writers: seq<Writer>, requested: string) returns (ok: bool)
    ensures ok <==> WriterIsIncluded(f, writers, requested)
  {
    for a := 0 to |writers|
      invariant forall k :: 0 <= k < a ==> !MatchesWriter(f, writers[k], requested)
    {
      if MatchesWriter(f, writers[a], requested) {
        for j := 0 to |writers[a].components|
          invariant forall k :: 0 <= k < j ==> !writers[a].components[k].isExcluded
        {
          if writers[a].components[j].isExcluded { return false; }
        }
        return true;
      }
    }
    return false;
  }

  ghost predicate WriterIsIncluded(f: Folding, writers: seq<Writer>, requested: string) {
    exists a ::
      && 0 <= a < |writers| && MatchesWriter(f, writers[a], requested)
      && (forall k :: 0 <= k < a ==> !MatchesWriter(f, writers[k], requested))
      && (forall j :: 0 <= j < |writers[a].components| ==> !writers[a].components[j].isExcluded)
  }

  /** A name with a colon asks for a component, any other for a whole writer. */
  ghost predicate IsHonoured(f: Folding, writers: seq<Writer>, requested: string) {
    if ':' in requested then ComponentIsIncluded(f, writers, requested) else WriterIsIncluded(f, writers, requested)
  }

  // ----- The client -----

  class VssClient {
    const fold: Folding
    var writers: seq<Writer>
    var added: seq<Place>

    constructor (fold: Folding, writers: seq<Writer>)
      ensures this.fold == fold && this.writers == writers && added == []
    {
      this.fold, this.writers, added := fold, writers, [];
    }

    method DiscoverDirectlyExcludedComponents(list: seq<string>)
      modifies this`writers
      ensures |writers| == |old(writers)|
      ensures forall k :: 0 <= k < |writers| ==> writers[k] == DirectPass(fold, list, old(writers)[k])
    {
      for i := 0 to |writers|
        invariant |writers| == |old(writers)|
        invariant forall k :: 0 <= k < |writers| ==>
          writers[k] == if k < i then DirectPass(fold, list, old(writers)[k]) else old(writers)[k]
      {
        var w := ExcludeDirectly(fold, writers[i], list);
        writers := writers[i := w];
      }
    }

    method DiscoverNonShadowedExcludedComponents(volumes: seq<string>)
      modifies this`writers
      ensures |writers| == |old(writers)|
      ensures forall k :: 0 <= k < |writers| ==> writers[k] == ShadowPass(fold, volumes, old(writers)[k])
    {
      for i := 0 to |writers|
        invariant |writers| == |old(writers)|
        invariant forall k :: 0 <= k < |writers| ==>
          writers[k] == if k < i then ShadowPass(fold, volumes, old(writers)[k]) else old(writers)[k]
      {
        var w := ExcludeUnshadowed(fold, writers[i], volumes);
        writers := writers[i := w];
      }
    }

    method DiscoverAllExcludedComponents()
      modifies this`writers
      ensures |writers| == |old(writers)|
      ensures forall k :: 0 <= k < |writers| ==> writers[k] == ClosurePass(fold, old(writers)[k])
    {
      for i := 0 to |writers|
        invariant |writers| == |old(writers)|
        invariant forall k :: 0 <= k < |writers| ==>
          writers[k] == if k < i then ClosurePass(fold, old(writers)[k]) else old(writers)[k]
      {
        if !writers[i].isExcluded {
          var cs := CloseExclusions(fold, writers[i].components);
          assert cs == ClosurePass(fold, writers[i]).components;
          writers := writers[i := writers[i].(components := cs)];
        }
      }
    }

    method DiscoverExcludedWriters()
      modifies this`writers
      ensures |writers| == |old(writers)|
      ensures forall k :: 0 <= k < |writers| ==> writers[k] == WriterPass(old(writers)[k])
    {
      for i := 0 to |writers|
        invariant |writers| == |old(writers)|
        invariant forall k :: 0 <= k < |writers| ==>
          writers[k] == if k < i then WriterPass(old(writers)[k]) else old(writers)[k]
      {
        var w := ExcludeWriter(writers[i]);
        writers := writers[i := w];
      }
    }

    method DiscoverExplicitelyIncludedComponents()
      modifies this`writers
      ensures |writers| == |old(writers)|
      ensures forall k :: 0 <= k < |writers| ==> writers[k] == ExplicitPass(fold, old(writers)[k])
    {
      for i := 0 to |writers|
        invariant |writers| == |old(writers)|
        invariant forall k :: 0 <= k < |writers| ==>
          writers[k] == if k < i then ExplicitPass(fold, old(writers)[k]) else old(writers)[k]
      {
        var w := MarkExplicit(fold, writers[i]);
        writers := writers[i := w];
      }
    }

    method SelectExplicitelyIncludedComponents()
      modifies this`added
      ensures added == old(added) + AddedPlaces(writers, |writers|)
    {
      for i := 0 to |writers|
        invariant added == old(added) + AddedPlaces(writers, i)
      {
        if !writers[i].isExcluded {
          ghost var before := added;
          var cs := writers[i].components;
          for j := 0 to |cs|
            invariant added == before + ExplicitPlaces(cs, i, j)
          {
            if cs[j].isExplicitlyIncluded { added := added + [Place(i, j)]; }
          }
        }
      }
    }

    /** The components told that the backup succeeded or failed. */
    method SetBackupSucceeded() returns (notified: seq<Place>)
      ensures notified == NotifiedPlaces(writers, |writers|)
    {
      notified := [];
      for i := 0 to |writers|
        invariant notified == NotifiedPlaces(writers, i)
      {
        ghost var before := notified;
        var cs := writers[i].components;
        for j := 0 to |cs|
          invariant notified == before + ExplicitPlaces(cs, i, j)
        {
          if cs[j].isExplicitlyIncluded { notified := notified + [Place(i, j)]; }
        }
      }
    }

    method DiscoverComponents(volumes: seq<string>, excluded: seq<string>)
      modifies this`writers
      ensures |writers| == |old(writers)|
      ensures forall k :: 0 <= k < |writers| ==> writers[k] == Pipeline(fold, excluded, volumes, old(writers)[k])
    {
      DiscoverDirectlyExcludedComponents(excluded);
      ghost var w1 := writers;
      DiscoverNonShadowedExcludedComponents(volumes);
      ghost var w2 := writers;
      DiscoverAllExcludedComponents();
      ghost var w3 := writers;
      DiscoverExcludedWriters();
      ghost var w4 := writers;
      DiscoverExplicitelyIncludedComponents();
      forall k | 0 <= k < |writers| ensures writers[k] == Pipeline(fold, excluded, volumes, old(writers)[k]) {
        PassesCompose(fold, excluded, volumes, old(writers)[k], w1[k], w2[k], w3[k], w4[k], writers[k]);
      }
    }

    method VerifyRequested(included: seq<string>) returns (ok: bool)
      ensures ok <==> forall i :: 0 <= i < |included| ==> IsHonoured(fold, writers, included[i])
    {
      for i := 0 to |included|
        invariant forall k :: 0 <= k < i ==> IsHonoured(fold, writers, included[k])
      {
        if ':' in included[i] { ok := VerifyExplicitelyIncludedComponent(fold, writers, included[i]); }
        else { ok := VerifyExplicitelyIncludedWriter(fold, writers, included[i]); }
        if !ok { return false; }
      }
      return true;
    }

    /** Runs every pass; a requested component or writer that is missing aborts before anything is added. */
    method SelectComponentsForBackup(
      volumes: seq<string>, excluded: seq<string>, included: seq<string>) returns (ok: bool)
      requires forall k :: 0 <= k < |writers| ==> NothingMarked(writers[k])
      modifies this
      ensures |writers| == |old(writers)|
      ensures forall k :: 0 <= k < |writers| ==> writers[k] == Pipeline(fold, excluded, volumes, old(writers)[k])
      ensures ok <==> forall i :: 0 <= i < |included| ==> IsHonoured(fold, writers, included[i])
      ensures added == old(added) + (if ok then AddedPlaces(writers, |writers|) else [])
      ensures NotifiedPlaces(writers, |writers|) == AddedPlaces(writers, |writers|)
    {
      DiscoverComponents(volumes, excluded);
      PipelineNotifiesAdded(fold, excluded, volumes, old(writers), writers);
      ok := VerifyRequested(included);
      if ok { SelectExplicitelyIncludedComponents(); }
    }
  }

  lemma PassesCompose(
    f: Folding, list: seq<string>, volumes: seq<string>, w0: Writer, w1: Writer, w2: Writer, w3: Writer, w4: Writer,
    w5: Writer)
    requires w1 == DirectPass(f, list, w0) && w2 == ShadowPass(f, volumes, w1) && w3 == ClosurePass(f, w2)
    requires w4 == WriterPass(w3) && w5 == ExplicitPass(f, w4)
    ensures w5 == Pipeline(f, list, volumes, w0)
  {
  }

  lemma PipelineNotifiesAdded(
    f: Folding, list: seq<string>, volumes: seq<string>, before: seq<Writer>, after: seq<Writer>)
    requires |before| == |after|
    requires forall k :: 0 <= k < |before| ==>
             NothingMarked(before[k]) && after[k] == Pipeline(f, list, volumes, before[k])
    ensures NotifiedPlaces(after, |after|) == AddedPlaces(after, |after|)
  {
    forall k | 0 <= k < |after| && after[k].isExcluded ensures NothingMarked(after[k]) {
      ExcludedWritersStayUnmarked(f, list, volumes, before[k]);
    }
    NotifiedAreAdded(after, |after|);
  }
}
