/**
 A scan does not depend on the order in which directories enumerate their names: two scans of the same files
 stay in lockstep.
 */
module DiscoveryEnumeration {
  import opened Foundation
  import opened Ordering
  import opened Discovery

  /** The same files, with directories that enumerate their names in another order. */
  ghost predicate SameTree(a: Tree, b: Tree) {
    && (forall p :: a.kind(p) == b.kind(p))
    && (forall p :: a.contents(p) == b.contents(p))
    && (forall p :: a.opens(p) == b.opens(p))
    && (forall p :: a.failsAfter(p) == b.failsAfter(p))
    && (forall p :: multiset(a.listing(p)) == multiset(b.listing(p)))
  }

  ghost predicate SameRoot(a: Root, b: Root) {
    && (a.MissingRoot? <==> b.MissingRoot?) && (a.PresentRoot? <==> b.PresentRoot?)
    && (a.PresentRoot? ==> SameTree(a.tree, b.tree))
  }

  ghost predicate SameWorld(a: World, b: World) {
    && a.limits == b.limits && |a.roots| == |b.roots|
    && (forall i :: 0 <= i < |a.roots| ==> SameRoot(a.roots[i], b.roots[i]))
    && (forall p :: a.deriveId(p) == b.deriveId(p))
    && (forall i, p :: a.locatable(i, p) == b.locatable(i, p))
  }

  predicate Enumerating(s: State) {
    s.phase == ScanRoot && s.active.Some? && s.cursor.Some?
  }

  /** Equal states, except that two directories being read may have given different names so far. */
  predicate Lockstep(a: World, b: World, s: State, t: State) {
    && Placed(a, s) && Placed(b, t)
    && s.(names := t.names) == t
    && (Enumerating(s) ==>
         var la, lb :=
           a.roots[s.rootIndex].tree.listing(s.active.value.relative),
           b.roots[s.rootIndex].tree.listing(s.active.value.relative);
         && s.cursor.value <= |la| && s.cursor.value <= |lb|
         && s.names == la[..s.cursor.value] && t.names == lb[..s.cursor.value])
    && (!Enumerating(s) ==> s == t)
  }

  lemma {:induction false} EnumerateLockstep(l: Limits, a: Tree, b: Tree, s: State, t: State, directory: Pending,
      position: nat)
    requires SameTree(a, b) && s.(names := t.names) == t && s.cursor == Some(position) && s.active == Some(directory)
    requires position <= |a.listing(directory.relative)| && position <= |b.listing(directory.relative)|
    requires s.names == a.listing(directory.relative)[..position]
    requires t.names == b.listing(directory.relative)[..position]
    ensures var s', t' := Enumerate(l, a, s, directory, position), Enumerate(l, b, t, directory, position);
      && s'.(names := t'.names) == t'
      && (s'.cursor.None? ==> s' == t')
      && (s'.cursor.Some? ==>
            && s'.cursor.value <= |a.listing(directory.relative)| && s'.cursor.value <= |b.listing(directory.relative)|
            && s'.names == a.listing(directory.relative)[..s'.cursor.value]
            && t'.names == b.listing(directory.relative)[..s'.cursor.value])
      && (s'.cursor.Some? ==> s'.active == Some(directory))
      && (s'.phase == s.phase || s'.phase == ProcessCandidates) && s'.rootIndex == s.rootIndex
  {
    var la, lb := a.listing(directory.relative), b.listing(directory.relative);
    assert multiset(la) == multiset(lb);
    assert |multiset(la)| == |la| && |multiset(lb)| == |lb|;
    if position >= |la| {
      assert s.names == la && t.names == lb;
      LexIsStrictOrder();
      SortIgnoresOrder(LexLess, la, lb);
    }
    hide AddDiagnostic, Sort;
  }

  lemma {:induction false} ChooseSame(l: Limits, a: Tree, b: Tree, s: State)
    requires SameTree(a, b) && s.active.None? && s.cursor.None?
    ensures ChooseDirectory(l, a, s) == ChooseDirectory(l, b, s)
    ensures var r := ChooseDirectory(l, a, s); r.cursor.Some? ==> r.cursor == Some(0) && r.names == []
    ensures ChooseDirectory(l, a, s).rootIndex == s.rootIndex
  {
    hide AddDiagnostic, MarkTruncated, Sort, SmallestPending;
  }

  lemma {:induction false} InspectSame(l: Limits, a: Tree, b: Tree, s: State, directory: Pending, name: string)
    requires SameTree(a, b)
    ensures Inspect(l, a, s, directory, name) == Inspect(l, b, s, directory, name)
  {
    hide AddDiagnostic, MarkTruncated, KeepCandidate, EndsWith, Join;
  }

  lemma {:induction false} ProcessSame(a: World, b: World, i: nat, s: State)
    requires SameWorld(a, b) && i < |a.roots| && a.roots[i].PresentRoot? && b.roots[i].PresentRoot?
    ensures ProcessStep(a, a.roots[i].tree, s) == ProcessStep(b, b.roots[i].tree, s)
  {
    assert SameRoot(a.roots[i], b.roots[i]);
    hide AddDiagnostic, MarkTruncated;
    if s.candidateIndex < |s.candidates| {
      var relative := s.candidates[s.candidateIndex];
      assert a.deriveId(relative) == b.deriveId(relative);
      forall r: State, id
        ensures Record(a, r, a.roots[i].tree, relative, id) == Record(b, r, b.roots[i].tree, relative, id) {
        RecordSame(a, b, a.roots[i].tree, b.roots[i].tree, r, relative, id);
      }
      hide Record;
    }
  }

  lemma {:induction false} RecordSame(a: World, b: World, ta: Tree, tb: Tree, s: State, relative: string, id: string)
    requires SameWorld(a, b) && SameTree(ta, tb)
    ensures Record(a, s, ta, relative, id) == Record(b, s, tb, relative, id)
  {
    hide AddDiagnostic, MarkTruncated;
  }

  lemma {:induction false} QuietLockstep(a: World, b: World, s: State)
    requires SameWorld(a, b) && Usable(a) && Bounded(a, s) && Bounded(b, s) && !Enumerating(s)
    ensures Step(a, s) == Step(b, s)
    ensures var r := Step(a, s);
      Enumerating(r) ==> r.cursor == Some(0) && r.names == [] && r.rootIndex == s.rootIndex
  {
    hide AddDiagnostic, Inspect, ChooseDirectory, Enumerate, ProcessStep, Usable;
    match s.phase {
      case StartRoot =>
        assert SameRoot(a.roots[s.rootIndex], b.roots[s.rootIndex]);
      case ScanRoot =>
        assert SameRoot(a.roots[s.rootIndex], b.roots[s.rootIndex]);
        var ta, tb, l := a.roots[s.rootIndex].tree, b.roots[s.rootIndex].tree, a.limits;
        if s.active.None? {
          ChooseSame(l, ta, tb, s);
        } else if s.nameIndex < |s.names| {
          var next := s.(nameIndex := s.nameIndex + 1);
          InspectSame(l, ta, tb, next, s.active.value, s.names[s.nameIndex]);
          InspectKeepsScan(l, ta, next, s.active.value, s.names[s.nameIndex]);
        }
      case ProcessCandidates =>
        ProcessSame(a, b, s.rootIndex, s);
        ProcessLeavesScan(a, a.roots[s.rootIndex].tree, s);
      case Finished =>
    }
  }

  lemma {:induction false} InspectKeepsScan(l: Limits, tree: Tree, s: State, directory: Pending, name: string)
    ensures Inspect(l, tree, s, directory, name).cursor == s.cursor
  {
    hide AddDiagnostic, EndsWith, Join, KeepSmallest;
  }

  lemma {:induction false} ProcessLeavesScan(w: World, tree: Tree, s: State)
    requires s.phase == ProcessCandidates
    ensures ProcessStep(w, tree, s).phase != ScanRoot
  {
    hide AddDiagnostic, Record;
  }

  lemma {:induction false} StepLockstep(a: World, b: World, s: State, t: State)
    requires SameWorld(a, b) && Usable(a) && Usable(b) && Bounded(a, s) && Bounded(b, t) && Lockstep(a, b, s, t)
    ensures Placed(a, s) && Placed(b, t) && Lockstep(a, b, Step(a, s), Step(b, t))
  {
    StepKeepsBounds(a, s);
    StepKeepsBounds(b, t);
    hide Usable, AddDiagnostic, Inspect, ChooseDirectory, Enumerate, ProcessStep;
    if Enumerating(s) {
      assert SameRoot(a.roots[s.rootIndex], b.roots[s.rootIndex]);
      var ta, tb := a.roots[s.rootIndex].tree, b.roots[s.rootIndex].tree;
      EnumerateLockstep(a.limits, ta, tb, s, t, s.active.value, s.cursor.value);
    } else {
      QuietLockstep(a, b, s);
      hide SameWorld, Step;
    }
  }

  lemma {:induction false} IterateLockstep(a: World, b: World, s: State, t: State, n: nat)
    requires SameWorld(a, b) && Usable(a) && Usable(b) && Bounded(a, s) && Bounded(b, t) && Lockstep(a, b, s, t)
    ensures Lockstep(a, b, Iterate(a, s, n), Iterate(b, t, n))
    decreases n
  {
    hide Step, Bounded, SameWorld, Lockstep, Usable, Placed;
    if n > 0 {
      StepKeepsBounds(a, s);
      StepKeepsBounds(b, t);
      StepLockstep(a, b, s, t);
      IterateLockstep(a, b, Step(a, s), Step(b, t), n - 1);
    }
  }

  /** Every snapshot along the way, and so the final one, is the same for every enumeration order. */
  lemma {:induction false} ResultIgnoresEnumerationOrder(a: World, b: World, n: nat)
    requires SameWorld(a, b) && Usable(a)
    ensures Usable(b) && Bounded(a, Initial(a)) && Bounded(b, Initial(b))
    ensures Iterate(a, Initial(a), n).snapshot == Iterate(b, Initial(b), n).snapshot
  {
    InitialIsBounded(a);
    InitialIsBounded(b);
    IterateLockstep(a, b, Initial(a), Initial(b), n);
  }
}
