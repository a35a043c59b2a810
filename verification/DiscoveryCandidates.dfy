/**
 What the scan of a root offers: the kept candidates are the smallest paths offered, and while nothing is
 truncated every desktop file beneath the root is offered.
 */
module DiscoveryCandidates {
  import opened Foundation
  import opened Ordering
  import opened Discovery

  // ---------------------------------------------------------------- what a root offers

  predicate IsOffer(tree: Tree, relative: string) {
    tree.kind(relative) == RegularFile && EndsWith(relative, DESKTOP_SUFFIX)
  }

  /** The name that the next step inspects, if it inspects one. */
  predicate Inspecting(s: State) {
    s.phase == ScanRoot && s.active.Some? && s.cursor.None? && s.nameIndex < |s.names|
  }

  function InspectedPath(s: State): string
    requires Inspecting(s)
  {
    Join(s.active.value.relative, s.names[s.nameIndex])
  }

  /**
   The scan of the current root so far: the paths offered as candidates, the directories opened, and whether
   directories or names were left out. Reaching the candidate limit leaves nothing out of the scan.
   */
  datatype Scan = Scan(offered: seq<string>, visited: set<string>, cut: bool)

  /** The step gives the root up, or passes over a directory for its depth or its number. */
  predicate Cuts(w: World, s: State)
    requires Placed(w, s)
  {
    && s.phase == ScanRoot
    && var t := Step(w, s);
       || (t.phase == ProcessCandidates && !(s.active.None? && s.pending == []))
       || (Inspecting(s) && w.roots[s.rootIndex].tree.kind(InspectedPath(s)) == Directory && t.pending == s.pending)
  }

  function OfferedAfter(w: World, s: State, offered: seq<string>): seq<string>
    requires Placed(w, s)
  {
    if s.phase == StartRoot then []
    else if Inspecting(s) && IsOffer(w.roots[s.rootIndex].tree, InspectedPath(s)) then offered + [InspectedPath(s)]
    else offered
  }

  function ScanAfter(w: World, s: State, scan: Scan): Scan
    requires Placed(w, s)
  {
    if s.phase == StartRoot then Scan([], {}, false)
    else
      var entered := if s.phase == ScanRoot && s.active.None? && Step(w, s).active.Some?
        then {Step(w, s).active.value.relative} else {};
      Scan(OfferedAfter(w, s, scan.offered), scan.visited + entered, scan.cut || Cuts(w, s))
  }

  /**
   The kept candidates are the smallest of those offered, and more offers than the limit mark the root
   truncated; once the scan is over they are sorted, or dropped with the root marked.
   */
  predicate KeepsSmallest(l: Limits, s: State, offered: seq<string>) {
    var smallest := Smallest(LexLess, offered, l.candidatesPerRoot);
    && (s.phase == ScanRoot ==>
          && multiset(s.candidates) == multiset(smallest)
          && (|offered| > l.candidatesPerRoot ==> s.stopAfterRoot))
    && (s.phase == ProcessCandidates ==> s.candidates == smallest || (s.candidates == [] && s.stopAfterRoot))
    && (s.stopAfterRoot ==> s.snapshot.truncated)
  }

  lemma {:induction false} InspectOffers(l: Limits, tree: Tree, s: State, directory: Pending, name: string)
    ensures var r := Inspect(l, tree, s, directory, name);
      && r.phase == s.phase && (s.stopAfterRoot ==> r.stopAfterRoot) && (s.snapshot.truncated ==> r.snapshot.truncated)
      && (r.stopAfterRoot ==> s.stopAfterRoot || r.snapshot.truncated)
      && (if IsOffer(tree, Join(directory.relative, name)) then
            && r.candidates == KeepSmallest(LexLess, s.candidates, Join(directory.relative, name), l.candidatesPerRoot)
            && (|s.candidates| >= l.candidatesPerRoot ==> r.stopAfterRoot)
          else r.candidates == s.candidates)
  {
    hide AddDiagnostic, KeepSmallest, Join, EndsWith;
  }

  lemma {:induction false} InspectKeepsSmallest(l: Limits, tree: Tree, s: State, directory: Pending, name: string,
      offered: seq<string>)
    requires l.candidatesPerRoot > 0 && s.phase == ScanRoot && KeepsSmallest(l, s, offered)
    ensures var relative := Join(directory.relative, name);
      KeepsSmallest(l, Inspect(l, tree, s, directory, name),
        if IsOffer(tree, relative) then offered + [relative] else offered)
  {
    hide Inspect, IsOffer, Join, Smallest, KeepSmallest, LexLess, StrictOrder, Sorted;
    var k, relative := l.candidatesPerRoot, Join(directory.relative, name);
    var smallest := Smallest(LexLess, offered, k);
    LexIsStrictOrder();
    SmallestIsSorted(LexLess, offered, k);
    InspectOffers(l, tree, s, directory, name);
    assert |multiset(s.candidates)| == |s.candidates| && |multiset(smallest)| == |smallest|;
    if IsOffer(tree, relative) {
      KeepSmallestKeeps(LexLess, s.candidates, offered, relative, k);
    }
  }

  lemma {:induction false} ChooseKeepsSmallest(l: Limits, tree: Tree, s: State, offered: seq<string>)
    requires s.phase == ScanRoot && KeepsSmallest(l, s, offered)
    ensures KeepsSmallest(l, ChooseDirectory(l, tree, s), offered)
    ensures s.pending == [] ==>
      ChooseDirectory(l, tree, s).candidates == Smallest(LexLess, offered, l.candidatesPerRoot)
  {
    hide AddDiagnostic, Smallest, LexLess, StrictOrder, Sort, Sorted, SmallestPending;
    var smallest := Smallest(LexLess, offered, l.candidatesPerRoot);
    if s.pending == [] {
      LexIsStrictOrder();
      SmallestIsSorted(LexLess, offered, l.candidatesPerRoot);
      SortIgnoresOrder(LexLess, s.candidates, smallest);
      SortOfSorted(LexLess, smallest);
    }
  }

  lemma {:induction false} EnumerateKeepsSmallest(l: Limits, tree: Tree, s: State, directory: Pending, position: nat,
      offered: seq<string>)
    requires s.phase == ScanRoot && KeepsSmallest(l, s, offered)
    ensures KeepsSmallest(l, Enumerate(l, tree, s, directory, position), offered)
  {
    hide AddDiagnostic, Smallest, Sort;
  }

  lemma {:induction false} StartKeepsSmallest(w: World, s: State)
    requires Usable(w) && Bounded(w, s) && s.phase == StartRoot
    ensures KeepsSmallest(w.limits, Step(w, s), [])
  {
    NothingIsSmallest(w.limits.candidatesPerRoot);
    hide AddDiagnostic, Smallest, LimitsValid;
  }

  lemma {:induction false} NothingIsSmallest(k: nat)
    ensures Smallest(LexLess, [], k) == []
  {
  }

  lemma {:induction false} RecordKeepsStop(w: World, tree: Tree, s: State, relative: string, id: string)
    ensures var r := Record(w, s, tree, relative, id);
      && (r.phase == Finished || r.stopAfterRoot == s.stopAfterRoot) && (s.stopAfterRoot ==> r.stopAfterRoot)
      && (s.snapshot.truncated ==> r.snapshot.truncated)
          && (r.stopAfterRoot ==> s.stopAfterRoot || r.snapshot.truncated)
  {
    hide AddDiagnostic;
  }

  lemma {:induction false} ProcessKeepsSmallest(w: World, tree: Tree, s: State, offered: seq<string>)
    requires s.phase == ProcessCandidates && KeepsSmallest(w.limits, s, offered)
    ensures KeepsSmallest(w.limits, ProcessStep(w, tree, s), offered)
  {
    hide AddDiagnostic, Smallest, Record;
    if s.candidateIndex < |s.candidates| && w.deriveId(s.candidates[s.candidateIndex]).Some? {
      var relative := s.candidates[s.candidateIndex];
      var id := w.deriveId(relative).value;
      var ids := s.claimedIds + {id};
      RecordKeepsStop(w, tree, s.(candidateIndex := s.candidateIndex + 1, claimedIds := ids,
                                  snapshot := s.snapshot.(claimed := |ids|), dirty := true), relative, id);
    }
  }

  /** A root of which something is left out is marked. */
  lemma {:induction false} CutsMark(w: World, s: State)
    requires Placed(w, s) && Cuts(w, s)
    ensures Step(w, s).stopAfterRoot
  {
    var l, tree := w.limits, w.roots[s.rootIndex].tree;
    if Inspecting(s) {
      InspectOffers(l, tree, s.(nameIndex := s.nameIndex + 1), s.active.value, s.names[s.nameIndex]);
    }
    hide AddDiagnostic, Join, EndsWith, KeepSmallest, Sort, SmallestPending;
  }

  /** Every step keeps the smallest of what the current root has offered. */
  lemma {:induction false} StepKeepsSmallest(w: World, s: State, offered: seq<string>)
    requires Usable(w) && Bounded(w, s) && KeepsSmallest(w.limits, s, offered)
    ensures KeepsSmallest(w.limits, Step(w, s), OfferedAfter(w, s, offered))
  {
    hide KeepsSmallest, Inspect, ChooseDirectory, Enumerate, StartRootStep, ProcessStep, IsOffer, Join;
    match s.phase {
      case StartRoot => StartKeepsSmallest(w, s);
      case ScanRoot =>
        var l, tree := w.limits, w.roots[s.rootIndex].tree;
        if Inspecting(s) {
          var next := s.(nameIndex := s.nameIndex + 1);
          SameOffers(l, s, next, offered);
          InspectKeepsSmallest(l, tree, next, s.active.value, s.names[s.nameIndex], offered);
        } else if s.active.None? {
          ChooseKeepsSmallest(l, tree, s, offered);
        } else if s.cursor.Some? {
          EnumerateKeepsSmallest(l, tree, s, s.active.value, s.cursor.value, offered);
        } else {
          SameOffers(l, s, s.(names := [], nameIndex := 0, active := None), offered);
        }
      case ProcessCandidates => ProcessKeepsSmallest(w, w.roots[s.rootIndex].tree, s, offered);
      case Finished =>
    }
  }

  lemma {:induction false} SameOffers(l: Limits, s: State, t: State, offered: seq<string>)
    requires KeepsSmallest(l, s, offered)
    requires t.phase == s.phase && t.candidates == s.candidates && t.stopAfterRoot == s.stopAfterRoot
    requires t.snapshot == s.snapshot
    ensures KeepsSmallest(l, t, offered)
  {
  }

  // ---------------------------------------------------------------- a scan misses nothing

  /** The directory that a sequence of names leads to. */
  function Walk(names: seq<string>): string {
    if names == [] then "" else Join(Walk(names[..|names| - 1]), names[|names| - 1])
  }

  /** Each name is listed by the directory before it and is itself a directory. */
  ghost predicate LeadsDown(tree: Tree, names: seq<string>) {
    names == []
    || (LeadsDown(tree, names[..|names| - 1])
        && names[|names| - 1] in tree.listing(Walk(names[..|names| - 1])) && tree.kind(Walk(names)) == Directory)
  }

  ghost predicate Reachable(tree: Tree, directory: string) {
    exists names :: LeadsDown(tree, names) && Walk(names) == directory
  }

  /** A desktop file somewhere beneath the root. */
  ghost predicate IsDesktopFile(tree: Tree, relative: string) {
    exists directory, name ::
      Reachable(tree, directory) && name in tree.listing(directory)
      && relative == Join(directory, name) && IsOffer(tree, relative)
  }

  function PendingPaths(pending: seq<Pending>): set<string> {
    set p | p in pending :: p.relative
  }

  /** The scan has dealt with a name of a directory. */
  predicate Covered(tree: Tree, known: set<string>, offered: seq<string>, directory: string, name: string) {
    var relative := Join(directory, name);
    (tree.kind(relative) == Directory ==> relative in known) && (IsOffer(tree, relative) ==> relative in offered)
  }

  ghost predicate CoveredNames(tree: Tree, known: set<string>, offered: seq<string>, directory: string,
      names: seq<string>) {
    forall n :: n in names ==> Covered(tree, known, offered, directory, n)
  }

  /** While nothing was left out, opened directories are covered and everything known is really there. */
  ghost predicate Complete(tree: Tree, s: State, scan: Scan) {
    var known := scan.visited + PendingPaths(s.pending);
    && "" in known
    && (forall d :: d in known ==> Reachable(tree, d))
    && (forall p :: p in scan.offered ==> IsDesktopFile(tree, p))
    && (forall d :: d in scan.visited && !(s.active.Some? && s.active.value.relative == d) ==>
          CoveredNames(tree, known, scan.offered, d, tree.listing(d)))
    && (s.active.Some? ==>
          var d := s.active.value.relative;
          && d in scan.visited
          && (s.cursor.Some? ==> s.cursor.value <= |tree.listing(d)| && s.names == tree.listing(d)[..s.cursor.value])
          && (s.cursor.None? ==>
                && s.nameIndex <= |s.names| && multiset(s.names) == multiset(tree.listing(d))
                && CoveredNames(tree, known, scan.offered, d, s.names[..s.nameIndex])))
  }

  lemma {:induction false} CoveredGrows(tree: Tree, known: set<string>, more: set<string>, offered: seq<string>,
      extra: seq<string>, d: string, names: seq<string>)
    requires CoveredNames(tree, known, offered, d, names) && known <= more
    ensures CoveredNames(tree, more, offered + extra, d, names)
  {
    forall n | n in names ensures Covered(tree, more, offered + extra, d, n) {
      assert Covered(tree, known, offered, d, n);
    }
  }

  lemma {:induction false} ReachableBelow(tree: Tree, directory: string, name: string)
    requires Reachable(tree, directory) && name in tree.listing(directory)
    requires tree.kind(Join(directory, name)) == Directory
    ensures Reachable(tree, Join(directory, name))
  {
    var names :| LeadsDown(tree, names) && Walk(names) == directory;
    var longer := names + [name];
    assert longer[..|longer| - 1] == names;
    assert LeadsDown(tree, longer) && Walk(longer) == Join(directory, name);
  }

  lemma {:induction false} RootIsReachable(tree: Tree)
    ensures Reachable(tree, "")
  {
    assert LeadsDown(tree, []) && Walk([]) == "";
  }

  lemma {:induction false} WalksAreOpened(tree: Tree, s: State, scan: Scan, names: seq<string>)
    requires Complete(tree, s, scan) && s.active.None? && s.pending == [] && LeadsDown(tree, names)
    ensures Walk(names) in scan.visited
    decreases |names|
  {
    assert PendingPaths(s.pending) == {};
    assert scan.visited + {} == scan.visited;
    if names != [] {
      var above, last := names[..|names| - 1], names[|names| - 1];
      WalksAreOpened(tree, s, scan, above);
      assert CoveredNames(tree, scan.visited, scan.offered, Walk(above), tree.listing(Walk(above)));
      assert Covered(tree, scan.visited, scan.offered, Walk(above), last);
    }
  }

  /** When a scan ends with nothing left out, the offers are exactly the desktop files beneath the root. */
  lemma {:induction false} ScanMissesNothing(tree: Tree, s: State, scan: Scan, relative: string)
    requires Complete(tree, s, scan) && s.active.None? && s.pending == []
    ensures relative in scan.offered <==> IsDesktopFile(tree, relative)
  {
    if IsDesktopFile(tree, relative) {
      var directory, name :|
        Reachable(tree, directory) && name in tree.listing(directory)
        && relative == Join(directory, name) && IsOffer(tree, relative);
      var names :| LeadsDown(tree, names) && Walk(names) == directory;
      WalksAreOpened(tree, s, scan, names);
      assert PendingPaths(s.pending) == {};
      assert scan.visited + {} == scan.visited;
      assert CoveredNames(tree, scan.visited, scan.offered, directory, tree.listing(directory));
      assert Covered(tree, scan.visited, scan.offered, directory, name);
    }
  }

  lemma {:induction false} StartIsComplete(tree: Tree, s: State)
    requires s.pending == [Pending("", 0)] && s.active.None?
    ensures Complete(tree, s, Scan([], {}, false))
  {
    RootIsReachable(tree);
    assert s.pending[0] in s.pending;
    assert PendingPaths(s.pending) == {""};
  }

  lemma {:induction false} ChooseKeepsComplete(l: Limits, tree: Tree, s: State, scan: Scan)
    requires Complete(tree, s, scan) && s.active.None? && s.pending != []
    requires tree.opens(s.pending[SmallestPending(s.pending)].relative)
    ensures var d := s.pending[SmallestPending(s.pending)].relative;
      Complete(tree, ChooseDirectory(l, tree, s), scan.(visited := scan.visited + {d}))
  {
    hide SmallestPending, Reachable, IsDesktopFile, CoveredNames;
    var m := SmallestPending(s.pending);
    var d, rest := s.pending[m], s.pending[..m] + s.pending[m + 1..];
    assert forall p :: p in s.pending <==> p in rest || p == d;
    assert PendingPaths(s.pending) == PendingPaths(rest) + {d.relative};
    assert scan.visited + {d.relative} + PendingPaths(rest) == scan.visited + PendingPaths(s.pending);
  }

  lemma {:induction false} EndKeepsComplete(tree: Tree, s: State, directory: Pending, scan: Scan)
    requires Complete(tree, s, scan) && s.active == Some(directory) && s.nameIndex == 0
    requires s.cursor == Some(|tree.listing(directory.relative)|)
    ensures Complete(tree, s.(cursor := None, names := Sort(LexLess, s.names)), scan)
  {
    LexIsStrictOrder();
    SortSorts(LexLess, s.names);
    var known, d, sorted := scan.visited + PendingPaths(s.pending), directory.relative, Sort(LexLess, s.names);
    NoNamesCovered(tree, known, scan.offered, d, sorted[..0]);
    hide Reachable, IsDesktopFile, CoveredNames, Sort, LexLess, StrictOrder, Sorted, PendingPaths;
    assert s.names == tree.listing(d);
  }

  lemma {:induction false} PushKeepsComplete(tree: Tree, s: State, directory: Pending, position: nat, nodes: nat,
      scan: Scan)
    requires Complete(tree, s, scan) && s.active == Some(directory) && s.cursor == Some(position)
    requires position < |tree.listing(directory.relative)|
    ensures var pushed := s.names + [tree.listing(directory.relative)[position]];
      Complete(tree, s.(names := pushed, nodesInRoot := nodes, cursor := Some(position + 1)), scan)
  {
    hide Reachable, IsDesktopFile, CoveredNames, PendingPaths;
  }

  lemma {:induction false} EnumerateKeepsComplete(l: Limits, tree: Tree, s: State, directory: Pending, position: nat,
      scan: Scan)
    requires Complete(tree, s, scan) && s.active == Some(directory) && s.cursor == Some(position) && s.nameIndex == 0
    requires s.phase == ScanRoot && Enumerate(l, tree, s, directory, position).phase == ScanRoot
    ensures Complete(tree, Enumerate(l, tree, s, directory, position), scan)
  {
    if position < |tree.listing(directory.relative)| {
      PushKeepsComplete(tree, s, directory, position, s.nodesInRoot + 1, scan);
    } else {
      assert position == |tree.listing(directory.relative)|;
      EndKeepsComplete(tree, s, directory, scan);
    }
    hide AddDiagnostic, Complete, Sort;
  }

  lemma {:induction false} NoNamesCovered(tree: Tree, known: set<string>, offered: seq<string>, directory: string,
      names: seq<string>)
    requires names == []
    ensures CoveredNames(tree, known, offered, directory, names)
  {
  }

  lemma {:induction false} CloseKeepsComplete(tree: Tree, s: State, scan: Scan)
    requires Complete(tree, s, scan) && s.active.Some? && s.cursor.None? && s.nameIndex == |s.names|
    ensures Complete(tree, s.(names := [], nameIndex := 0, active := None), scan)
  {
    hide Reachable, IsDesktopFile;
    var d, known := s.active.value.relative, scan.visited + PendingPaths(s.pending);
    assert s.names[..s.nameIndex] == s.names;
    assert CoveredNames(tree, known, scan.offered, d, tree.listing(d)) by {
      forall n | n in tree.listing(d) ensures Covered(tree, known, scan.offered, d, n) {
        assert n in multiset(tree.listing(d)) && n in multiset(s.names) && n in s.names;
      }
    }
    hide CoveredNames;
  }

  /** What inspecting a name adds: a known directory, an offer, or neither. */
  lemma {:induction false} InspectAdds(l: Limits, tree: Tree, s: State, directory: Pending, name: string)
    requires tree.kind(Join(directory.relative, name)) == Directory ==>
      Inspect(l, tree, s, directory, name).pending != s.pending
    ensures var r, relative := Inspect(l, tree, s, directory, name), Join(directory.relative, name);
      && SameWork(r.(pending := s.pending, directoriesInRoot := s.directoriesInRoot, candidates := s.candidates), s)
      && r.pending == if tree.kind(relative) == Directory then s.pending + [Pending(relative, directory.depth + 1)]
          else s.pending
  {
    hide AddDiagnostic, KeepSmallest, Join, EndsWith;
  }

  lemma {:induction false} InspectKeepsComplete(l: Limits, tree: Tree, s: State, directory: Pending, scan: Scan)
    requires Complete(tree, s, scan) && s.active == Some(directory) && s.cursor.None? && s.nameIndex < |s.names|
    requires tree.kind(Join(directory.relative, s.names[s.nameIndex])) == Directory ==>
      Inspect(l, tree, s.(nameIndex := s.nameIndex + 1), directory, s.names[s.nameIndex]).pending != s.pending
    ensures var relative := Join(directory.relative, s.names[s.nameIndex]);
      Complete(tree, Inspect(l, tree, s.(nameIndex := s.nameIndex + 1), directory, s.names[s.nameIndex]),
               if IsOffer(tree, relative) then scan.(offered := scan.offered + [relative]) else scan)
  {
    hide Inspect, Join, IsOffer, Reachable, IsDesktopFile, CoveredNames, Covered, SameWork;
    var name, d := s.names[s.nameIndex], directory.relative;
    var next, relative := s.(nameIndex := s.nameIndex + 1), Join(d, name);
    var r := Inspect(l, tree, next, directory, name);
    InspectAdds(l, tree, next, directory, name);
    assert r.active == s.active && r.cursor == s.cursor && r.names == s.names && r.nameIndex == s.nameIndex + 1 by {
      SameFields(r.(pending := next.pending, directoriesInRoot := next.directoriesInRoot,
        candidates := next.candidates), next);
    }
    assert name in tree.listing(d) by {
      assert name in multiset(s.names) && name in multiset(tree.listing(d));
    }
    var known, more := scan.visited + PendingPaths(s.pending), scan.visited + PendingPaths(r.pending);
    var extra := if IsOffer(tree, relative) then [relative] else [];
    assert scan.offered + [] == scan.offered;
    PendingGrows(tree, s.pending, r.pending, relative, directory.depth + 1);
    assert more == known + if tree.kind(relative) == Directory then {relative} else {};
    forall x | x in more ensures Reachable(tree, x) {
      if x !in known {
        ReachableBelow(tree, d, name);
      }
    }
    forall x | x in scan.offered + extra ensures IsDesktopFile(tree, x) {
      if x !in scan.offered {
        OfferIsDesktopFile(tree, d, name);
      }
    }
    forall x | x in scan.visited && x != d ensures CoveredNames(tree, more, scan.offered + extra, x, tree.listing(x)) {
      CoveredGrows(tree, known, more, scan.offered, extra, x, tree.listing(x));
    }
    CoveredGrows(tree, known, more, scan.offered, extra, d, s.names[..s.nameIndex]);
    CoverOneMore(tree, more, scan.offered + extra, d, s.names, s.nameIndex);
  }

  lemma {:induction false} SameFields(r: State, s: State)
    requires SameWork(r, s)
    ensures r.active == s.active && r.cursor == s.cursor && r.names == s.names && r.nameIndex == s.nameIndex
  {
  }

  lemma {:induction false} PendingGrows(tree: Tree, before: seq<Pending>, after: seq<Pending>, relative: string,
      depth: nat)
    requires after == if tree.kind(relative) == Directory then before + [Pending(relative, depth)] else before
    ensures PendingPaths(after) == PendingPaths(before) + if tree.kind(relative) == Directory then {relative} else {}
  {
    assert tree.kind(relative) == Directory ==> Pending(relative, depth) in after;
  }

  lemma {:induction false} OfferIsDesktopFile(tree: Tree, directory: string, name: string)
    requires Reachable(tree, directory) && name in tree.listing(directory) && IsOffer(tree, Join(directory, name))
    ensures IsDesktopFile(tree, Join(directory, name))
  {
  }

  lemma {:induction false} CoverOneMore(tree: Tree, known: set<string>, offered: seq<string>, d: string,
      names: seq<string>, i: nat)
    requires i < |names| && CoveredNames(tree, known, offered, d, names[..i])
    requires tree.kind(Join(d, names[i])) == Directory ==> Join(d, names[i]) in known
    requires IsOffer(tree, Join(d, names[i])) ==> Join(d, names[i]) in offered
    ensures CoveredNames(tree, known, offered, d, names[..i + 1])
  {
    hide IsOffer, Join;
    assert names[..i + 1] == names[..i] + [names[i]];
  }

  /** While nothing is left out, every step keeps the scan complete, also beyond the candidate limit. */
  lemma {:induction false} StepKeepsComplete(w: World, s: State, scan: Scan)
    requires Usable(w) && Bounded(w, s) && s.phase == ScanRoot
    requires Complete(w.roots[s.rootIndex].tree, s, scan)
    ensures var t := Step(w, s);
      t.phase == ScanRoot && !Cuts(w, s) ==> Complete(w.roots[s.rootIndex].tree, t, ScanAfter(w, s, scan))
  {
    hide Complete, Inspect, Enumerate, SmallestPending, IsOffer, Join, AddDiagnostic, LimitsValid;
    var l, tree, t := w.limits, w.roots[s.rootIndex].tree, Step(w, s);
    assert scan.visited + {} == scan.visited;
    if t.phase == ScanRoot && !Cuts(w, s) {
      if Inspecting(s) {
        InspectKeepsComplete(l, tree, s, s.active.value, scan);
      } else if s.active.None? {
        ChooseKeepsComplete(l, tree, s, scan);
      } else if s.cursor.Some? {
        EnumerateKeepsComplete(l, tree, s, s.active.value, s.cursor.value, scan);
      } else {
        CloseKeepsComplete(tree, s, scan);
      }
    }
  }
}
