/**
 What a finished scan publishes, said of the file system alone. Unless it is marked truncated, it has looked at
 every root and every desktop file beneath it, and its entries are those of the first owners of their
 identifiers, in order of root and path.
 */
module DiscoveryResult {
  import opened Foundation
  import opened Ordering
  import opened Discovery
  import opened DiscoveryCandidates
  import opened DiscoveryClaims
  import opened DiscoveryRuns

  /** A desktop file beneath a present root. */
  ghost predicate IsFile(w: World, c: Claim) {
    c.rootIndex < |w.roots| && w.roots[c.rootIndex].PresentRoot? && IsDesktopFile(w.roots[c.rootIndex].tree, c.relative)
  }

  /** The root could be looked at, and exactly its desktop files were processed. */
  ghost predicate RootDone(w: World, processed: seq<Claim>, i: nat) {
    && i < |w.roots| && !w.roots[i].UnavailableRoot?
    && forall p :: Claim(i, p) in processed <==> IsFile(w, Claim(i, p))
  }

  function RootsDone(w: World, s: State): nat {
    if s.phase == Finished then |w.roots| else s.rootIndex
  }

  /** Unless something was left out, the roots before the current one are done, and the current one so far. */
  ghost predicate Scanned(w: World, s: State, processed: seq<Claim>) {
    && (forall c :: c in processed ==> c.rootIndex < |w.roots|)
    && (!s.snapshot.truncated ==>
          && (forall i :: 0 <= i < RootsDone(w, s) ==> RootDone(w, processed, i))
          && (s.phase == ProcessCandidates && s.candidateIndex <= |s.candidates| ==>
                forall p :: Claim(s.rootIndex, p) in processed <==> p in s.candidates[..s.candidateIndex]))
  }

  // ---------------------------------------------------------------- every step keeps it

  lemma {:induction false} TruncationStays(w: World, s: State)
    requires Usable(w) && Bounded(w, s) && s.snapshot.truncated
    ensures Step(w, s).snapshot.truncated
  {
    StepTruncatesExactly(w, s);
    hide Step;
  }

  lemma {:induction false} StartKeepsScanned(w: World, s: State, processed: seq<Claim>)
    requires Usable(w) && Bounded(w, s) && s.phase == StartRoot
    requires InPrecedenceOrder(s, processed) && Scanned(w, s, processed)
    ensures Scanned(w, Step(w, s), processed)
  {
    hide AddDiagnostic, LimitsValid, IsDesktopFile, ClaimBefore;
    var r := Step(w, s);
    if w.roots[s.rootIndex].MissingRoot? && !s.snapshot.truncated {
      assert RootDone(w, processed, s.rootIndex);
      assert forall i :: 0 <= i < s.rootIndex ==> RootDone(w, processed, i);
    }
  }

  lemma {:induction false} ScanEntersProcessing(w: World, s: State)
    requires Usable(w) && Bounded(w, s) && s.phase == ScanRoot
    ensures Step(w, s).phase == ProcessCandidates ==> Step(w, s).candidateIndex == 0
  {
    hide AddDiagnostic, Join, EndsWith, KeepSmallest, Sort, SmallestPending, LimitsValid;
  }

  lemma {:induction false} ScanKeepsScanned(w: World, s: State, processed: seq<Claim>)
    requires Usable(w) && Bounded(w, s) && s.phase == ScanRoot
    requires InPrecedenceOrder(s, processed) && Scanned(w, s, processed)
    ensures Scanned(w, Step(w, s), processed)
  {
    ScanStays(w, s);
    ScanEntersProcessing(w, s);
    if s.snapshot.truncated {
      TruncationStays(w, s);
    }
    hide Step, IsDesktopFile, ClaimBefore, Bounded, LimitsValid, RootDone;
    var r := Step(w, s);
    if r.phase == ProcessCandidates {
      assert forall p :: Claim(s.rootIndex, p) !in processed;
    }
  }

  /** What a candidate adds. */
  lemma {:induction false} ClaimKeepsScanned(w: World, s: State, r: State, processed: seq<Claim>)
    requires s.phase == ProcessCandidates && s.candidateIndex < |s.candidates| && Scanned(w, s, processed)
    requires s.rootIndex < |w.roots| && (s.snapshot.truncated ==> r.snapshot.truncated)
    requires r.phase == s.phase && r.rootIndex == s.rootIndex && r.candidates == s.candidates
    requires r.candidateIndex == s.candidateIndex + 1
    ensures Scanned(w, r, processed + [Claim(s.rootIndex, s.candidates[s.candidateIndex])])
  {
    var c := Claim(s.rootIndex, s.candidates[s.candidateIndex]);
    hide IsDesktopFile;
    if !r.snapshot.truncated {
      assert s.candidates[..r.candidateIndex] == s.candidates[..s.candidateIndex] + [c.relative];
      forall i | 0 <= i < s.rootIndex ensures RootDone(w, processed + [c], i) {
        assert RootDone(w, processed, i);
      }
    }
  }

  lemma {:induction false} FullScanIsTruncated(w: World, s: State)
    requires Usable(w) && Bounded(w, s) && s.phase == ProcessCandidates && s.candidateIndex < |s.candidates|
    requires Step(w, s).phase == Finished
    ensures Step(w, s).snapshot.truncated
  {
    hide AddDiagnostic, LimitsValid;
  }

  /** The candidates of a root that is not marked are exactly its desktop files. */
  lemma {:induction false} CandidatesAreFiles(w: World, s: State, scan: Scan, p: string)
    requires Usable(w) && Bounded(w, s) && s.phase == ProcessCandidates && !s.stopAfterRoot
    requires RootIsScanned(w, s, scan)
    ensures p in s.candidates <==> IsDesktopFile(w.roots[s.rootIndex].tree, p)
  {
    LexIsStrictOrder();
    SmallestIsSorted(LexLess, scan.offered, w.limits.candidatesPerRoot);
    hide Smallest, LexLess, IsDesktopFile, StrictOrder, Sorted, Complete;
    assert p in s.candidates <==> p in multiset(s.candidates);
    assert p in scan.offered <==> p in multiset(scan.offered);
  }

  lemma {:induction false} RootEndKeepsScanned(w: World, s: State, scan: Scan, processed: seq<Claim>)
    requires Usable(w) && Bounded(w, s) && s.phase == ProcessCandidates && s.candidateIndex == |s.candidates|
    requires KeepsSmallest(w.limits, s, scan.offered) && RootIsScanned(w, s, scan) && Scanned(w, s, processed)
    ensures Scanned(w, Step(w, s), processed)
  {
    hide Smallest, IsDesktopFile, Complete, AddDiagnostic;
    if !s.snapshot.truncated {
      assert !s.stopAfterRoot;
      forall p ensures Claim(s.rootIndex, p) in processed <==> IsFile(w, Claim(s.rootIndex, p)) {
        CandidatesAreFiles(w, s, scan, p);
        assert s.candidates[..s.candidateIndex] == s.candidates;
      }
      assert RootDone(w, processed, s.rootIndex);
      hide RootDone, RootIsScanned, KeepsSmallest;
      assert forall i :: 0 <= i <= s.rootIndex ==> RootDone(w, processed, i);
    }
  }

  lemma {:induction false} StepKeepsScanned(w: World, s: State, h: History)
    requires Usable(w) && Bounded(w, s) && Good(w, s, h) && Scanned(w, s, h.processed)
    ensures Scanned(w, Step(w, s), ClaimAfter(s, h.processed))
  {
    match s.phase {
      case StartRoot => StartKeepsScanned(w, s, h.processed);
      case ScanRoot => ScanKeepsScanned(w, s, h.processed);
      case Finished =>
      case ProcessCandidates =>
        if s.candidateIndex == |s.candidates| {
          RootEndKeepsScanned(w, s, h.scan, h.processed);
        } else {
          if s.snapshot.truncated {
            TruncationStays(w, s);
          }
          ProcessSteps(w, w.roots[s.rootIndex].tree, s);
          if Step(w, s).phase == Finished {
            FullScanIsTruncated(w, s);
          } else {
            hide ProcessStep, Good;
            ClaimKeepsScanned(w, s, Step(w, s), h.processed);
          }
        }
    }
  }

  lemma {:induction false} IterateKeepsScanned(w: World, s: State, h: History, n: nat)
    requires Usable(w) && Bounded(w, s) && Good(w, s, h) && Scanned(w, s, h.processed)
    ensures Scanned(w, Iterate(w, s, n), HistoryAfter(w, s, h, n).processed)
    decreases n
  {
    hide Step, Bounded, Good, Usable, ScanAfter, Placed, Scanned, ClaimAfter;
    if n > 0 {
      StepKeepsBounds(w, s);
      StepKeepsGood(w, s, h);
      StepKeepsScanned(w, s, h);
      IterateKeepsScanned(w, Step(w, s), History(ScanAfter(w, s, h.scan), ClaimAfter(s, h.processed)), n - 1);
    }
  }

  lemma {:induction false} InitialIsScanned(w: World)
    ensures Scanned(w, Initial(w), [])
  {
  }

  // ---------------------------------------------------------------- the entries, from the file system

  predicate Precedes(a: Claim, b: Claim) {
    a.rootIndex < b.rootIndex || (a.rootIndex == b.rootIndex && LexLess(a.relative, b.relative))
  }

  /** The file yields an entry, and no file before it derives the same identifier, whatever became of that file. */
  ghost predicate Owns(w: World, c: Claim) {
    && IsFile(w, c) && EntryOf(w, c).Some?
    && forall d :: IsFile(w, d) && Precedes(d, c) ==> w.deriveId(d.relative) != w.deriveId(c.relative)
  }

  function Place(e: Entry): Claim {
    Claim(e.rootIndex, e.relative)
  }

  ghost predicate Processed(w: World, processed: seq<Claim>) {
    && (forall c :: c in processed <==> IsFile(w, c))
    && (forall i, j :: 0 <= i < j < |processed| ==> ClaimBefore(processed[i], processed[j]))
  }

  lemma {:induction false} NotBothWays(a: Claim, b: Claim)
    requires ClaimBefore(a, b)
    ensures !Precedes(b, a) && (a == b || Precedes(a, b))
  {
    LexTotal(a.relative, b.relative);
    hide LexLess;
  }

  lemma {:induction false} FirstClaimOwns(w: World, processed: seq<Claim>, i: nat)
    requires Processed(w, processed) && FirstClaim(w, processed, i)
    ensures Owns(w, processed[i])
  {
    hide IsFile, EntryOf, ClaimBefore, Precedes;
    var c := processed[i];
    assert c in processed;
    forall d | IsFile(w, d) && Precedes(d, c) ensures w.deriveId(d.relative) != w.deriveId(c.relative) {
      assert d in processed;
      var j :| 0 <= j < |processed| && processed[j] == d;
      if j > i {
        NotBothWays(c, d);
      } else if j == i {
        NotItself(c);
      }
    }
  }

  lemma {:induction false} NotItself(c: Claim)
    ensures !Precedes(c, c)
  {
    LexIrreflexive(c.relative);
  }

  /** The first position whose candidate derives that identifier. */
  lemma {:induction false} FirstWithId(w: World, processed: seq<Claim>, k: nat) returns (j: nat)
    requires k < |processed|
    ensures j <= k && w.deriveId(processed[j].relative) == w.deriveId(processed[k].relative)
    ensures forall i :: 0 <= i < j ==> w.deriveId(processed[i].relative) != w.deriveId(processed[j].relative)
  {
    if i :| 0 <= i < k && w.deriveId(processed[i].relative) == w.deriveId(processed[k].relative) {
      j := FirstWithId(w, processed, i);
    } else {
      j := k;
    }
  }

  lemma {:induction false} OwnerClaimsFirst(w: World, processed: seq<Claim>, c: Claim) returns (j: nat)
    requires Processed(w, processed) && Owns(w, c)
    ensures FirstClaim(w, processed, j) && processed[j] == c
  {
    hide IsFile, EntryOf, ClaimBefore, Precedes;
    assert c in processed;
    var k :| 0 <= k < |processed| && processed[k] == c;
    j := FirstWithId(w, processed, k);
    assert processed[j] in processed;
    if j < k {
      NotBothWays(processed[j], c);
    }
  }

  lemma {:induction false} ClaimsInOrder(w: World, processed: seq<Claim>)
    requires forall i, j :: 0 <= i < j < |processed| ==> ClaimBefore(processed[i], processed[j])
    ensures forall e :: e in FirstClaims(w, processed) ==> Place(e) in processed
    ensures forall a, b :: 0 <= a < b < |FirstClaims(w, processed)| ==>
      ClaimBefore(Place(FirstClaims(w, processed)[a]), Place(FirstClaims(w, processed)[b]))
  {
    hide ClaimBefore, ClaimedIds;
    if processed != [] {
      var front, last := processed[..|processed| - 1], processed[|processed| - 1];
      ClaimsInOrder(w, front);
      var before, all := FirstClaims(w, front), FirstClaims(w, processed);
      assert processed == front + [last];
      assert all == before || (EntryOf(w, last).Some? && all == before + [EntryOf(w, last).value]);
      assert EntryOf(w, last).Some? ==> Place(EntryOf(w, last).value) == last;
      forall a | 0 <= a < |before| ensures ClaimBefore(Place(before[a]), last) {
        assert before[a] in before;
        var i :| 0 <= i < |front| && front[i] == Place(before[a]);
        assert processed[i] == front[i];
      }
    }
  }

  /**
   A finished scan that is not marked truncated has looked at every root, and its entries are exactly those of
   the owners among all desktop files beneath all present roots, each owner being the first file, by root and
   path, that derives its identifier; the entries are in that order, and the visible ones are listed.
   */
  lemma {:induction false} FinishedScanIsExact(w: World, n: nat)
    requires Usable(w) && Bounded(w, Initial(w)) && Iterate(w, Initial(w), n).phase == Finished
    requires !Iterate(w, Initial(w), n).snapshot.truncated
    ensures forall i :: 0 <= i < |w.roots| ==> !w.roots[i].UnavailableRoot?
    ensures var entries := Iterate(w, Initial(w), n).snapshot.entries;
      && (forall e :: e in entries <==> exists c :: Owns(w, c) && EntryOf(w, c) == Some(e))
      && (forall a, b :: 0 <= a < b < |entries| ==> Precedes(Place(entries[a]), Place(entries[b])))
      && Iterate(w, Initial(w), n).snapshot.visible == VisibleIndices(entries)
  {
    var t, h := Iterate(w, Initial(w), n), HistoryAfter(w, Initial(w), History(Scan([], {}, false), []), n);
    EveryRunIsGood(w, n);
    EveryRunIsGood(w, 0);
    InitialIsScanned(w);
    IterateKeepsScanned(w, Initial(w), History(Scan([], {}, false), []), n);
    ScannedIsProcessed(w, t, h.processed);
    hide Iterate, HistoryAfter, Initial, KeepsSmallest, RootIsScanned, Usable, Bounded;
    ProcessedIsExact(w, h.processed);
    assert t.snapshot.entries == FirstClaims(w, h.processed);
    forall i | 0 <= i < |w.roots| ensures !w.roots[i].UnavailableRoot? {
      assert RootDone(w, h.processed, i);
    }
  }

  lemma {:induction false} ScannedIsProcessed(w: World, t: State, processed: seq<Claim>)
    requires t.phase == Finished && !t.snapshot.truncated
    requires Scanned(w, t, processed) && InPrecedenceOrder(t, processed)
    requires forall c :: c in processed ==> c.rootIndex < |w.roots|
    ensures Processed(w, processed)
  {
    hide IsDesktopFile, ClaimBefore;
    forall c ensures c in processed <==> IsFile(w, c) {
      if c.rootIndex < |w.roots| {
        assert RootDone(w, processed, c.rootIndex);
        assert c == Claim(c.rootIndex, c.relative);
      }
    }
  }

  lemma {:induction false} ProcessedIsExact(w: World, processed: seq<Claim>)
    requires Processed(w, processed)
    ensures var entries := FirstClaims(w, processed);
      && (forall e :: e in entries <==> exists c :: Owns(w, c) && EntryOf(w, c) == Some(e))
      && (forall a, b :: 0 <= a < b < |entries| ==> Precedes(Place(entries[a]), Place(entries[b])))
  {
    var entries := FirstClaims(w, processed);
    FirstClaimsAre(w, processed);
    ClaimsInOrder(w, processed);
    ClaimsDeriveTheirIds(w, processed);
    hide FirstClaims, ClaimedIds, ClaimBefore, Precedes, Owns, FirstClaim, EntryOf, Processed;
    forall e ensures e in entries <==> exists c :: Owns(w, c) && EntryOf(w, c) == Some(e) {
      if e in entries {
        var i: nat :| FirstClaim(w, processed, i) && EntryOf(w, processed[i]) == Some(e);
        FirstClaimOwns(w, processed, i);
      }
      if c :| Owns(w, c) && EntryOf(w, c) == Some(e) {
        var j := OwnerClaimsFirst(w, processed, c);
      }
    }
    forall a, b | 0 <= a < b < |entries| ensures Precedes(Place(entries[a]), Place(entries[b])) {
      assert entries[a] in entries && entries[b] in entries;
      NotBothWays(Place(entries[a]), Place(entries[b]));
    }
  }

  // ---------------------------------------------------------------- when a scan is truncated

  /** The directory that is opened next. */
  function NextDirectory(s: State): string
    requires s.pending != []
  {
    s.pending[SmallestPending(s.pending)].relative
  }

  predicate BlockedInScan(l: Limits, tree: Tree, s: State) {
    if s.active.None? then s.pending != [] && !tree.opens(NextDirectory(s))
    else
      var d := s.active.value;
      if s.cursor.Some? then
        && s.cursor.value < |tree.listing(d.relative)|
        && (s.nodesInRoot >= l.nodesPerRoot || tree.failsAfter(d.relative) == Some(s.cursor.value + 1))
      else
        && s.nameIndex < |s.names|
        && var path := Join(d.relative, s.names[s.nameIndex]);
           || (tree.kind(path) == Directory && (d.depth + 1 >= l.depth || s.directoriesInRoot >= l.directoriesPerRoot))
           || (IsOffer(tree, path) && |s.candidates| >= l.candidatesPerRoot)
  }

  predicate BlockedInProcessing(w: World, tree: Tree, s: State) {
    && s.candidateIndex < |s.candidates|
    && var path := s.candidates[s.candidateIndex];
       && w.deriveId(path).Some? && w.deriveId(path).value !in s.claimedIds
       && tree.contents(path).Parsed? && |s.snapshot.entries| >= w.limits.entries
  }

  /**
   The scanner has come to something that it must leave out: a root, directory or name that cannot be read, or
   one more name, directory, level, candidate or entry than its limit allows.
   */
  predicate Blocked(w: World, s: State)
    requires Placed(w, s)
  {
    match s.phase
    case StartRoot => w.roots[s.rootIndex].UnavailableRoot?
    case ScanRoot => BlockedInScan(w.limits, w.roots[s.rootIndex].tree, s)
    case ProcessCandidates => BlockedInProcessing(w, w.roots[s.rootIndex].tree, s)
    case Finished => false
  }

  lemma {:induction false} InspectTruncatesExactly(l: Limits, tree: Tree, s: State, directory: Pending, name: string)
    ensures var path := Join(directory.relative, name);
      Inspect(l, tree, s, directory, name).snapshot.truncated
      <==> s.snapshot.truncated
           || (tree.kind(path) == Directory
               && (directory.depth + 1 >= l.depth || s.directoriesInRoot >= l.directoriesPerRoot))
           || (IsOffer(tree, path) && |s.candidates| >= l.candidatesPerRoot)
  {
    hide AddDiagnostic, Join, EndsWith, KeepSmallest;
  }

  lemma {:induction false} ScanTruncatesExactly(l: Limits, tree: Tree, s: State)
    ensures ScanStep(l, tree, s).snapshot.truncated <==> s.snapshot.truncated || BlockedInScan(l, tree, s)
  {
    if s.active.Some? && s.cursor.None? && s.nameIndex < |s.names| {
      InspectTruncatesExactly(l, tree, s.(nameIndex := s.nameIndex + 1), s.active.value, s.names[s.nameIndex]);
    }
    hide AddDiagnostic, Inspect, IsOffer, Join, Sort, SmallestPending;
  }

  lemma {:induction false} ProcessTruncatesExactly(w: World, tree: Tree, s: State)
    ensures ProcessStep(w, tree, s).snapshot.truncated <==> s.snapshot.truncated || BlockedInProcessing(w, tree, s)
  {
    hide AddDiagnostic;
  }

  lemma {:induction false} StepTruncatesExactly(w: World, s: State)
    requires Placed(w, s)
    ensures Step(w, s).snapshot.truncated <==> s.snapshot.truncated || Blocked(w, s)
  {
    if s.phase == ScanRoot {
      ScanTruncatesExactly(w.limits, w.roots[s.rootIndex].tree, s);
    } else if s.phase == ProcessCandidates {
      ProcessTruncatesExactly(w, w.roots[s.rootIndex].tree, s);
    }
    hide ScanStep, ProcessStep, BlockedInScan, BlockedInProcessing, AddDiagnostic;
  }

  ghost predicate BlockedBefore(w: World, s: State, n: nat)
    requires Usable(w) && Bounded(w, s)
  {
    exists k :: 0 <= k < n && BlockedAt(w, s, k)
  }

  predicate BlockedAt(w: World, s: State, k: nat)
    requires Usable(w) && Bounded(w, s)
  {
    Blocked(w, Iterate(w, s, k))
  }

  /** A scan is marked truncated exactly when it has come to something that it must leave out. */
  lemma {:induction false} TruncatedExactly(w: World, s: State, n: nat)
    requires Usable(w) && Bounded(w, s)
    ensures Iterate(w, s, n).snapshot.truncated <==> s.snapshot.truncated || BlockedBefore(w, s, n)
    decreases n
  {
    if n == 0 {
      assert Iterate(w, s, n) == s;
    } else {
      hide Iterate, Bounded, Usable, BlockedBefore, BlockedAt;
      TruncatedExactly(w, s, n - 1);
      TruncatedNext(w, s, n - 1);
      BlockedBeforeOrThen(w, s, n - 1);
    }
  }

  lemma {:induction false} TruncatedNext(w: World, s: State, n: nat)
    requires Usable(w) && Bounded(w, s)
    ensures Iterate(w, s, n + 1).snapshot.truncated
         <==> Iterate(w, s, n).snapshot.truncated || BlockedAt(w, s, n)
  {
    hide Iterate, Step, Bounded, Blocked, Usable, Placed;
    IterateLast(w, s, n);
    StepTruncatesExactly(w, Iterate(w, s, n));
  }

  lemma {:induction false} BlockedBeforeOrThen(w: World, s: State, n: nat)
    requires Usable(w) && Bounded(w, s)
    ensures BlockedBefore(w, s, n + 1) <==> BlockedBefore(w, s, n) || BlockedAt(w, s, n)
  {
    hide Bounded, Usable, BlockedAt;
  }

  lemma {:induction false} IterateLast(w: World, s: State, n: nat)
    requires Usable(w) && Bounded(w, s)
    ensures Placed(w, Iterate(w, s, n)) && Iterate(w, s, n + 1) == Step(w, Iterate(w, s, n))
  {
    assert Bounded(w, Iterate(w, s, n));
    hide Step, Bounded;
    IterateAdds(w, s, n, 1);
    assert Iterate(w, Iterate(w, s, n), 0) == Iterate(w, s, n);
  }

  /** What is offered as a desktop file: a regular file whose path is something followed by its suffix. */
  lemma {:induction false} OffersEndSo(tree: Tree, path: string)
    ensures IsOffer(tree, path) <==> tree.kind(path) == RegularFile && exists stem: string :: path == stem + ".desktop"
  {
    if EndsWith(path, ".desktop") {
      assert path == path[..|path| - 8] + ".desktop";
    }
    if stem: string :| path == stem + ".desktop" {
      assert path[|stem|..] == ".desktop";
    }
  }
}
