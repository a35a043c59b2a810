/**
 What holds after any number of steps of any scan, and what a catalog relies on in the snapshots of a scan.
 */
module DiscoveryRuns {
  import opened Foundation
  import opened Ordering
  import opened Discovery
  import opened DiscoveryCandidates
  import opened DiscoveryClaims

  // ---------------------------------------------------------------- every run

  datatype History = History(scan: Scan, processed: seq<Claim>)

  /**
   While nothing is left out of a root the scan is complete, and once it is over the candidates are the smallest
   of the desktop files beneath the root. Something is left out only of a root that is marked, and an unmarked
   root has no more desktop files than the limit.
   */
  ghost predicate RootIsScanned(w: World, s: State, scan: Scan) {
    && (s.phase == ScanRoot && !scan.cut && Placed(w, s) ==> Complete(w.roots[s.rootIndex].tree, s, scan))
    && (s.phase == ProcessCandidates && !scan.cut && Placed(w, s) ==>
          && s.candidates == Smallest(LexLess, scan.offered, w.limits.candidatesPerRoot)
          && forall p :: p in scan.offered <==> IsDesktopFile(w.roots[s.rootIndex].tree, p))
    && ((s.phase == ScanRoot || s.phase == ProcessCandidates) && !s.stopAfterRoot ==>
          !scan.cut && |scan.offered| <= w.limits.candidatesPerRoot)
  }

  ghost predicate Good(w: World, s: State, h: History) {
    && KeepsSmallest(w.limits, s, h.scan.offered) && ClaimsMatch(w, s, h.processed)
    && InPrecedenceOrder(s, h.processed) && RootIsScanned(w, s, h.scan)
  }

  lemma {:induction false} ScanKeepsStop(w: World, s: State)
    requires Usable(w) && Bounded(w, s) && s.phase == ScanRoot && s.stopAfterRoot
    ensures Step(w, s).stopAfterRoot
  {
    hide AddDiagnostic, Join, EndsWith, KeepSmallest, Sort, SmallestPending, LimitsValid;
  }

  /** A root that is not marked has had nothing left out, and no more offers than the limit. */
  lemma {:induction false} UnmarkedIsUncut(w: World, s: State, scan: Scan)
    requires Usable(w) && Bounded(w, s) && s.phase == ScanRoot
    requires KeepsSmallest(w.limits, s, scan.offered) && RootIsScanned(w, s, scan) && !Step(w, s).stopAfterRoot
    ensures !ScanAfter(w, s, scan).cut && |ScanAfter(w, s, scan).offered| <= w.limits.candidatesPerRoot
  {
    if s.stopAfterRoot {
      ScanKeepsStop(w, s);
    }
    if Cuts(w, s) {
      CutsMark(w, s);
    }
    ScanStays(w, s);
    StepKeepsSmallest(w, s, scan.offered);
    if Step(w, s).phase == ProcessCandidates {
      OnlyEmptyEndsScan(w, s);
    }
    hide Step, Smallest, Complete, IsOffer, Join, Cuts, Bounded, LimitsValid;
  }

  lemma {:induction false} UncutScanEnds(w: World, s: State, scan: Scan)
    requires Usable(w) && Bounded(w, s) && s.phase == ScanRoot && Step(w, s).phase == ProcessCandidates && !Cuts(w, s)
    requires KeepsSmallest(w.limits, s, scan.offered) && Complete(w.roots[s.rootIndex].tree, s, scan)
    ensures var offered := ScanAfter(w, s, scan).offered;
      && Step(w, s).candidates == Smallest(LexLess, offered, w.limits.candidatesPerRoot)
      && forall p :: p in offered <==> IsDesktopFile(w.roots[s.rootIndex].tree, p)
  {
    var tree := w.roots[s.rootIndex].tree;
    assert s.active.None? && s.pending == [];
    ChooseKeepsSmallest(w.limits, tree, s, scan.offered);
    forall p ensures p in scan.offered <==> IsDesktopFile(tree, p) {
      ScanMissesNothing(tree, s, scan, p);
    }
    hide Complete, Smallest, IsDesktopFile, ChooseDirectory, IsOffer, Join, Bounded, LimitsValid;
  }

  lemma {:induction false} ScanKeepsRootScanned(w: World, s: State, scan: Scan)
    requires Usable(w) && Bounded(w, s) && s.phase == ScanRoot
    requires KeepsSmallest(w.limits, s, scan.offered) && RootIsScanned(w, s, scan)
    ensures RootIsScanned(w, Step(w, s), ScanAfter(w, s, scan))
  {
    var r := Step(w, s);
    StepKeepsBounds(w, s);
    ScanStays(w, s);
    if !r.stopAfterRoot {
      UnmarkedIsUncut(w, s, scan);
    }
    if !scan.cut && !Cuts(w, s) {
      StepKeepsComplete(w, s, scan);
      if r.phase == ProcessCandidates {
        UncutScanEnds(w, s, scan);
      }
    }
    hide Step, Complete, Smallest, IsDesktopFile, Bounded, OfferedAfter, Cuts, LimitsValid, KeepsSmallest;
  }

  lemma {:induction false} OnlyEmptyEndsScan(w: World, s: State)
    requires Usable(w) && Bounded(w, s) && s.phase == ScanRoot
    requires Step(w, s).phase == ProcessCandidates && !Step(w, s).stopAfterRoot
    ensures s.active.None? && s.pending == [] && Step(w, s) == ChooseDirectory(w.limits, w.roots[s.rootIndex].tree, s)
    ensures Step(w, s).stopAfterRoot == s.stopAfterRoot && Step(w, s).active.None?
  {
    hide Inspect, Sort, SmallestPending, LimitsValid, RootPotential, AddDiagnostic;
    if Inspecting(s) {
      InspectBounds(w, s);
    }
  }

  lemma {:induction false} OtherKeepsRootScanned(w: World, s: State, scan: Scan)
    requires Usable(w) && Bounded(w, s) && s.phase != ScanRoot && RootIsScanned(w, s, scan)
    ensures RootIsScanned(w, Step(w, s), ScanAfter(w, s, scan))
  {
    hide Complete, IsDesktopFile, Smallest, LimitsValid;
    if s.phase == StartRoot && w.roots[s.rootIndex].PresentRoot? {
      StartIsComplete(w.roots[s.rootIndex].tree, Step(w, s));
    } else if s.phase == ProcessCandidates && s.candidateIndex < |s.candidates| {
      ProcessSteps(w, w.roots[s.rootIndex].tree, s);
      ProcessKeepsStop(w, w.roots[s.rootIndex].tree, s);
      hide ProcessStep;
    } else {
      hide AddDiagnostic;
    }
  }

  lemma {:induction false} ProcessKeepsStop(w: World, tree: Tree, s: State)
    requires s.phase == ProcessCandidates && s.candidateIndex < |s.candidates|
    ensures ProcessStep(w, tree, s).phase != Finished ==> ProcessStep(w, tree, s).stopAfterRoot == s.stopAfterRoot
  {
    hide AddDiagnostic;
  }

  lemma {:induction false} StepKeepsGood(w: World, s: State, h: History)
    requires Usable(w) && Bounded(w, s) && Good(w, s, h)
    ensures Good(w, Step(w, s), History(ScanAfter(w, s, h.scan), ClaimAfter(s, h.processed)))
  {
    StepKeepsSmallest(w, s, h.scan.offered);
    StepKeepsClaims(w, s, h.processed);
    StepKeepsOrder(w, s, h.scan, h.processed);
    if s.phase == ScanRoot {
      ScanKeepsRootScanned(w, s, h.scan);
    } else {
      OtherKeepsRootScanned(w, s, h.scan);
    }
    hide *;
  }

  function HistoryAfter(w: World, s: State, h: History, n: nat): History
    requires Usable(w) && Bounded(w, s)
    decreases n
  {
    if n == 0 then h
    else
      StepKeepsBounds(w, s);
      HistoryAfter(w, Step(w, s), History(ScanAfter(w, s, h.scan), ClaimAfter(s, h.processed)), n - 1)
  }

  lemma {:induction false} IterateKeepsGood(w: World, s: State, h: History, n: nat)
    requires Usable(w) && Bounded(w, s) && Good(w, s, h)
    ensures Good(w, Iterate(w, s, n), HistoryAfter(w, s, h, n))
    decreases n
  {
    hide Step, Bounded, Good, Usable, ScanAfter, Placed;
    if n > 0 {
      StepKeepsBounds(w, s);
      StepKeepsGood(w, s, h);
      IterateKeepsGood(w, Step(w, s), History(ScanAfter(w, s, h.scan), ClaimAfter(s, h.processed)), n - 1);
    }
  }

  /**
   Every run of the scanner, however its work is split: the kept candidates are the smallest offered, a root
   that is not truncated offers exactly its desktop files, and the entries are the first claims of the
   candidates processed in precedence order.
   */
  lemma {:induction false} EveryRunIsGood(w: World, n: nat)
    requires Usable(w)
    ensures Bounded(w, Initial(w))
    ensures Good(w, Iterate(w, Initial(w), n), HistoryAfter(w, Initial(w), History(Scan([], {}, false), []), n))
  {
    InitialIsBounded(w);
    IterateKeepsGood(w, Initial(w), History(Scan([], {}, false), []), n);
  }

  /** In every run the identifiers of the published entries are distinct, and so are the visible positions. */
  lemma {:induction false} EntriesAreDistinct(w: World, s: State, h: History)
    requires Good(w, s, h)
    ensures forall a, b :: 0 <= a < b < |s.snapshot.entries| ==> s.snapshot.entries[a].id != s.snapshot.entries[b].id
    ensures forall a, b :: 0 <= a < b < |s.snapshot.visible| ==> s.snapshot.visible[a] < s.snapshot.visible[b]
    ensures forall i :: i in s.snapshot.visible <==> 0 <= i < |s.snapshot.entries| && s.snapshot.entries[i].visible
  {
    FirstClaimsAre(w, h.processed);
    if h.processed != [] {
      FirstClaimsAre(w, h.processed[..|h.processed| - 1]);
    }
    VisibleIndicesAre(s.snapshot.entries);
  }

  lemma {:induction false} VisibleIndicesAre(entries: seq<Entry>)
    ensures forall a, b ::
      0 <= a < b < |VisibleIndices(entries)| ==> VisibleIndices(entries)[a] < VisibleIndices(entries)[b]
    ensures forall i :: i in VisibleIndices(entries) <==> 0 <= i < |entries| && entries[i].visible
  {
    if entries != [] {
      var front := entries[..|entries| - 1];
      VisibleIndicesAre(front);
      assert forall i :: 0 <= i < |front| ==> front[i] == entries[i];
      var before := VisibleIndices(front);
      assert forall a :: 0 <= a < |before| ==> before[a] in before;
    }
  }

  // ---------------------------------------------------------------- what the catalog relies on

  predicate DiagnosticsFit(l: Limits, s: State) {
    |s.snapshot.diagnostics| <= l.diagnostics
  }

  lemma {:induction false} ScanKeepsDiagnosticsFit(l: Limits, tree: Tree, s: State)
    requires DiagnosticsFit(l, s)
    ensures DiagnosticsFit(l, ScanStep(l, tree, s))
  {
    hide AddDiagnostic, MarkTruncated, KeepSmallest, Sort, SmallestPending, Join, EndsWith, SameWork, SameClaims;
  }

  lemma {:induction false} ProcessKeepsDiagnosticsFit(w: World, tree: Tree, s: State)
    requires DiagnosticsFit(w.limits, s)
    ensures DiagnosticsFit(w.limits, ProcessStep(w, tree, s))
  {
    hide AddDiagnostic, MarkTruncated, SameWork, SameClaims;
  }

  lemma {:induction false} IterateKeepsDiagnosticsFit(w: World, s: State, n: nat)
    requires Usable(w) && Bounded(w, s) && DiagnosticsFit(w.limits, s)
    ensures DiagnosticsFit(w.limits, Iterate(w, s, n))
    decreases n
  {
    hide Bounded, Usable, ScanStep, ProcessStep;
    if n > 0 {
      StepKeepsBounds(w, s);
      if s.phase == ScanRoot {
        ScanKeepsDiagnosticsFit(w.limits, w.roots[s.rootIndex].tree, s);
      } else if s.phase == ProcessCandidates {
        ProcessKeepsDiagnosticsFit(w, w.roots[s.rootIndex].tree, s);
      }
      IterateKeepsDiagnosticsFit(w, Step(w, s), n - 1);
    }
  }

  /** What the catalog demands of a discovery snapshot; `deriveId` is the identifier rule both sides share. */
  ghost predicate CatalogAccepts(deriveId: string -> Option<string>, d: Snapshot) {
    && |d.entries| <= MAXIMUM_ENTRIES && |d.visible| <= MAXIMUM_ENTRIES && |d.diagnostics| <= MAXIMUM_DIAGNOSTICS
    && (forall i :: 0 <= i < |d.entries| ==> deriveId(d.entries[i].relative) == Some(d.entries[i].id))
    && (forall i, j :: 0 <= i < j < |d.entries| ==> d.entries[i].id != d.entries[j].id)
    && (forall i :: 0 <= i < |d.visible| ==> d.visible[i] < |d.entries| && d.entries[d.visible[i]].visible)
    && (forall i, j :: 0 <= i < j < |d.visible| ==> d.visible[i] != d.visible[j])
  }

  lemma {:induction false} VisibleAreFewer(entries: seq<Entry>)
    ensures |VisibleIndices(entries)| <= |entries|
  {
    if entries != [] {
      VisibleAreFewer(entries[..|entries| - 1]);
    }
  }

  lemma {:induction false} ClaimsDeriveTheirIds(w: World, processed: seq<Claim>)
    ensures forall e :: e in FirstClaims(w, processed) ==> w.deriveId(e.relative) == Some(e.id)
  {
    if processed != [] {
      ClaimsDeriveTheirIds(w, processed[..|processed| - 1]);
    }
  }

  lemma {:induction false} GoodFeedsCatalog(w: World, s: State, h: History)
    requires Usable(w) && Good(w, s, h) && DiagnosticsFit(w.limits, s)
    ensures CatalogAccepts(w.deriveId, s.snapshot)
  {
    EntriesAreDistinct(w, s, h);
    VisibleAreFewer(s.snapshot.entries);
    ClaimsDeriveTheirIds(w, h.processed);
    if h.processed != [] {
      ClaimsDeriveTheirIds(w, h.processed[..|h.processed| - 1]);
    }
    hide FirstClaims, KeepsSmallest, InPrecedenceOrder, RootIsScanned, VisibleIndices, ClaimedIds, Bounded;
    assert forall i :: 0 <= i < |s.snapshot.entries| ==> s.snapshot.entries[i] in s.snapshot.entries;
    assert forall i :: 0 <= i < |s.snapshot.visible| ==> s.snapshot.visible[i] in s.snapshot.visible;
  }

  /** Every snapshot that any run of the scanner holds passes the catalog's checks. */
  lemma {:induction false} EverySnapshotFeedsCatalog(w: World, n: nat)
    requires Usable(w)
    ensures Bounded(w, Initial(w))
    ensures CatalogAccepts(w.deriveId, Iterate(w, Initial(w), n).snapshot)
  {
    EveryRunIsGood(w, n);
    assert DiagnosticsFit(w.limits, Initial(w));
    hide *;
    IterateKeepsDiagnosticsFit(w, Initial(w), n);
    GoodFeedsCatalog(w, Iterate(w, Initial(w), n), HistoryAfter(w, Initial(w), History(Scan([], {}, false), []), n));
  }
}
