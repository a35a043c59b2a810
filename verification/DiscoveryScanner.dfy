/**
 The scanner itself: its methods follow the step function field by field, and a pull does a budget of steps and
 publishes what it found.
 */
module DiscoveryScanner {
  import opened Foundation
  import opened Ordering
  import opened Discovery
  import opened DiscoveryCandidates
  import opened DiscoveryRuns

  // ---------------------------------------------------------------- publication

  /** A step marks the snapshot as changed or leaves it, save for the truncation flag once diagnostics are cut off. */
  predicate Noticed(s: State, r: State) {
    r.dirty
    || (!s.dirty && r.snapshot.(truncated := s.snapshot.truncated) == s.snapshot
        && (r.snapshot.truncated == s.snapshot.truncated
            || (r.snapshot.truncated && r.snapshot.diagnosticsTruncated && r.phase != Finished))
        && (r.phase == Finished ==> s.phase == Finished))
  }

  /** Truncation goes unnoticed exactly when the diagnostics were already cut off. */
  lemma {:induction false} TruncationNoticed(l: Limits, s: State, code: Code)
    requires !s.dirty && !s.snapshot.truncated
    ensures var r := MarkTruncated(l, s, code);
      !r.dirty && r.snapshot != s.snapshot
      <==> |s.snapshot.diagnostics| >= l.diagnostics && s.snapshot.diagnosticsTruncated
  {
  }

  lemma {:induction false} InspectIsNoticed(l: Limits, tree: Tree, s: State, directory: Pending, name: string)
    requires s.phase != Finished
    ensures Noticed(s, Inspect(l, tree, s, directory, name))
  {
    hide KeepSmallest, Join, EndsWith;
  }

  lemma {:induction false} ChooseIsNoticed(l: Limits, tree: Tree, s: State)
    requires s.phase == ScanRoot
    ensures Noticed(s, ChooseDirectory(l, tree, s))
  {
    hide Sort, SmallestPending;
  }

  lemma {:induction false} EnumerateIsNoticed(l: Limits, tree: Tree, s: State, directory: Pending, position: nat)
    requires s.phase == ScanRoot
    ensures Noticed(s, Enumerate(l, tree, s, directory, position))
  {
    hide Sort;
  }

  lemma {:induction false} ScanIsNoticed(l: Limits, tree: Tree, s: State)
    requires s.phase == ScanRoot
    ensures Noticed(s, ScanStep(l, tree, s))
  {
    hide Inspect, ChooseDirectory, Enumerate;
    if s.active.None? {
      ChooseIsNoticed(l, tree, s);
    } else if s.cursor.Some? {
      EnumerateIsNoticed(l, tree, s, s.active.value, s.cursor.value);
    } else if s.nameIndex < |s.names| {
      InspectIsNoticed(l, tree, s.(nameIndex := s.nameIndex + 1), s.active.value, s.names[s.nameIndex]);
    }
  }

  lemma {:induction false} RecordIsDirty(w: World, tree: Tree, s: State, relative: string, id: string)
    requires s.dirty
    ensures Record(w, s, tree, relative, id).dirty
  {
  }

  lemma {:induction false} ProcessIsNoticed(w: World, tree: Tree, s: State)
    requires s.phase == ProcessCandidates
    ensures Noticed(s, ProcessStep(w, tree, s))
  {
    if s.candidateIndex < |s.candidates| {
      var relative := s.candidates[s.candidateIndex];
      var id := w.deriveId(relative);
      if id.Some? && id.value !in s.claimedIds {
        var ids := s.claimedIds + {id.value};
        var claimed := s.(candidateIndex := s.candidateIndex + 1, claimedIds := ids,
                          snapshot := s.snapshot.(claimed := |ids|), dirty := true);
        RecordIsDirty(w, tree, claimed, relative, id.value);
        assert ProcessStep(w, tree, s) == Record(w, claimed, tree, relative, id.value);
      }
    }
    hide Record;
  }

  lemma {:induction false} StepIsNoticed(w: World, s: State)
    requires Placed(w, s)
    ensures Noticed(s, Step(w, s))
  {
    if s.phase == ScanRoot {
      ScanIsNoticed(w.limits, w.roots[s.rootIndex].tree, s);
      hide ScanStep;
    } else if s.phase == ProcessCandidates {
      ProcessIsNoticed(w, w.roots[s.rootIndex].tree, s);
      hide ProcessStep;
    }
  }

  /**
   What was published last, when nothing is marked as changed: the snapshot itself, or the snapshot without
   its truncation flag while the scan goes on and diagnostics are cut off.
   */
  predicate PublishedIsCurrent(s: State, published: Option<Snapshot>) {
    !s.dirty && published.Some? ==>
      && published.value.(truncated := s.snapshot.truncated) == s.snapshot
      && (published.value == s.snapshot
          || (s.snapshot.truncated && s.snapshot.diagnosticsTruncated && s.phase != Finished))
  }

  // ---------------------------------------------------------------- the scanner

  class Scanner {
    const world: World
    var snapshot: Snapshot
    var published: Option<Snapshot>
    var claimedIds: set<string>
    var phase: Phase
    var rootIndex: nat
    var pending: seq<Pending>
    var active: Option<Pending>
    var cursor: Option<nat>
    var names: seq<string>
    var nameIndex: nat
    var candidates: seq<string>
    var candidateIndex: nat
    var nodesInRoot: nat
    var directoriesInRoot: nat
    var stopAfterRoot: bool
    var dirty: bool

    ghost function Abstract(): State
      reads this
    {
      State(snapshot, claimedIds, phase, rootIndex, pending, active, cursor, names, nameIndex, candidates,
        candidateIndex,
            nodesInRoot, directoriesInRoot, stopAfterRoot, dirty)
    }

    ghost predicate Valid()
      reads this
    {
      Usable(world) && Bounded(world, Abstract()) && PublishedIsCurrent(Abstract(), published)
    }

    constructor (world: World)
      requires Usable(world)
      ensures this.world == world && Abstract() == Initial(world) && published == None && Valid()
    {
      this.world := world;
      snapshot, published, claimedIds := EMPTY_SNAPSHOT, None, {};
      phase, rootIndex, pending, active, cursor := StartRoot, 0, [], None, None;
      names, nameIndex, candidates, candidateIndex := [], 0, [], 0;
      nodesInRoot, directoriesInRoot, stopAfterRoot, dirty := 0, 0, false, true;
      new;
      if world.roots == [] {
        FinishScan();
      }
      InitialIsBounded(world);
    }

    method NoteDiagnostic(code: Code)
      modifies this
      ensures Abstract() == AddDiagnostic(world.limits, old(Abstract()), code) && published == old(published)
    {
      if |snapshot.diagnostics| < world.limits.diagnostics {
        snapshot := snapshot.(diagnostics := snapshot.diagnostics + [Diagnostic(code, rootIndex)]);
        dirty := true;
      } else if !snapshot.diagnosticsTruncated {
        snapshot := snapshot.(diagnosticsTruncated := true);
        dirty := true;
      }
    }

    method TruncateRoot(code: Code)
      modifies this
      ensures Abstract() == MarkTruncated(world.limits, old(Abstract()), code) && published == old(published)
    {
      snapshot := snapshot.(truncated := true);
      stopAfterRoot := true;
      NoteDiagnostic(code);
    }

    method FinishScan()
      modifies this
      ensures Abstract() == Finish(old(Abstract())) && published == old(published)
    {
      phase := Finished;
      snapshot := snapshot.(complete := true);
      dirty := true;
    }

    method ClearDirectories()
      modifies `pending, `active, `cursor, `names, `nameIndex
      ensures pending == [] && active == None && cursor == None && names == [] && nameIndex == 0
    {
      pending, active, cursor := [], None, None;
      names, nameIndex := [], 0;
    }

    method ClearCounters()
      modifies `candidates, `candidateIndex, `nodesInRoot, `directoriesInRoot, `stopAfterRoot
      ensures candidates == [] && candidateIndex == 0 && nodesInRoot == 0 && directoriesInRoot == 0 && !stopAfterRoot
    {
      candidates, candidateIndex := [], 0;
      nodesInRoot, directoriesInRoot, stopAfterRoot := 0, 0, false;
    }

    method NextRoot()
      modifies this
      ensures Abstract() == AdvanceRoot(world, old(Abstract())) && published == old(published)
    {
      ClearDirectories();
      ClearCounters();
      rootIndex := rootIndex + 1;
      if rootIndex >= |world.roots| {
        FinishScan();
      } else {
        phase := StartRoot;
      }
    }

    method BeginRoot()
      requires rootIndex < |world.roots|
      modifies this
      ensures Abstract() == StartRootStep(world, old(Abstract())) && published == old(published)
    {
      match world.roots[rootIndex] {
        case MissingRoot =>
          NextRoot();
        case UnavailableRoot =>
          NoteDiagnostic(RootUnavailable);
          snapshot := snapshot.(truncated := true);
          FinishScan();
        case PresentRoot(_) =>
          pending := pending + [Pending("", 0)];
          directoriesInRoot := 1;
          phase := ScanRoot;
      }
    }

    method KeepLexicallySmallest(candidate: string)
      requires candidates == [] ==> world.limits.candidatesPerRoot > 0
      modifies this
      ensures Abstract() == KeepCandidate(world.limits, old(Abstract()), candidate) && published == old(published)
    {
      hide LargestIndex, LexLess, AddDiagnostic;
      if |candidates| < world.limits.candidatesPerRoot {
        candidates := candidates + [candidate];
        return;
      }
      TruncateRoot(CandidateLimitReached);
      var largest := LargestIndex(LexLess, candidates);
      if LexLess(candidate, candidates[largest]) {
        candidates := candidates[largest := candidate];
      }
    }

    method InspectDirectoryEntry(tree: Tree, directory: Pending, name: string)
      requires Usable(world)
      modifies this
      ensures Abstract() == Inspect(world.limits, tree, old(Abstract()), directory, name) && published == old(published)
    {
      hide AddDiagnostic, MarkTruncated, KeepCandidate, Join, EndsWith;
      var relative := Join(directory.relative, name);
      match tree.kind(relative) {
        case Unreadable =>
          NoteDiagnostic(DirectoryUnavailable);
        case Directory =>
          var depth := directory.depth + 1;
          if depth >= world.limits.depth {
            TruncateRoot(DepthLimitReached);
            return;
          }
          if directoriesInRoot >= world.limits.directoriesPerRoot {
            TruncateRoot(DirectoryLimitReached);
            return;
          }
          directoriesInRoot := directoriesInRoot + 1;
          pending := pending + [Pending(relative, depth)];
        case RegularFile =>
          if !EndsWith(relative, DESKTOP_SUFFIX) {
            return;
          }
          KeepLexicallySmallest(relative);
        case OtherNode =>
      }
    }

    method DropRoot(code: Code)
      modifies this
      ensures Abstract() == AbandonRoot(world.limits, old(Abstract()), code) && published == old(published)
    {
      hide AddDiagnostic;
      TruncateRoot(code);
      candidates, pending, active, cursor, names, candidateIndex := [], [], None, None, [], 0;
      phase := ProcessCandidates;
    }

    method OpenNextDirectory(tree: Tree)
      modifies this
      ensures Abstract() == ChooseDirectory(world.limits, tree, old(Abstract())) && published == old(published)
    {
      hide AddDiagnostic, MarkTruncated, AbandonRoot, Sort, SmallestPending, LexLess;
      if pending == [] {
        candidates := Sort(LexLess, candidates);
        candidateIndex := 0;
        phase := ProcessCandidates;
        return;
      }
      var next := SmallestPending(pending);
      var directory := pending[next];
      if !tree.opens(directory.relative) {
        DropRoot(DirectoryUnavailable);
        return;
      }
      pending := pending[..next] + pending[next + 1..];
      active, cursor, names, nameIndex := Some(directory), Some(0), [], 0;
    }

    method ReadNextName(tree: Tree, directory: Pending, position: nat)
      modifies this
      ensures Abstract() == Enumerate(world.limits, tree, old(Abstract()), directory, position)
      ensures published == old(published)
    {
      hide AddDiagnostic, MarkTruncated, AbandonRoot, Sort, LexLess;
      var listing := tree.listing(directory.relative);
      if position >= |listing| {
        cursor, names := None, Sort(LexLess, names);
        return;
      }
      if nodesInRoot >= world.limits.nodesPerRoot {
        DropRoot(NodeLimitReached);
        return;
      }
      names, nodesInRoot, cursor := names + [listing[position]], nodesInRoot + 1, Some(position + 1);
      if tree.failsAfter(directory.relative) == Some(position + 1) {
        DropRoot(DirectoryUnavailable);
      }
    }

    method ScanRootOnce(tree: Tree)
      requires Usable(world) && nameIndex <= |names|
      modifies this
      ensures Abstract() == ScanStep(world.limits, tree, old(Abstract())) && published == old(published)
    {
      hide ChooseDirectory, Enumerate, Inspect;
      if active.None? {
        OpenNextDirectory(tree);
      } else if cursor.Some? {
        ReadNextName(tree, active.value, cursor.value);
      } else if nameIndex < |names| {
        nameIndex := nameIndex + 1;
        InspectDirectoryEntry(tree, active.value, names[nameIndex - 1]);
      } else {
        names, nameIndex, active := [], 0, None;
      }
    }

    method RecordEntry(tree: Tree, relative: string, id: string)
      modifies this
      ensures Abstract() == Record(world, old(Abstract()), tree, relative, id) && published == old(published)
    {
      hide AddDiagnostic, MarkTruncated;
      match tree.contents(relative) {
        case Unavailable => NoteDiagnostic(FileUnavailable);
        case TooLargeFile => NoteDiagnostic(FileTooLarge);
        case Rejected => NoteDiagnostic(DesktopEntryRejected);
        case Parsed(entry, visible) =>
          if |snapshot.entries| >= world.limits.entries {
            TruncateRoot(EntryLimitReached);
            FinishScan();
            return;
          }
          if !world.locatable(rootIndex, relative) {
            NoteDiagnostic(RelativePathRejected);
            return;
          }
          var index := |snapshot.entries|;
          snapshot := snapshot.(entries := snapshot.entries + [Entry(id, entry, visible, rootIndex, relative)]);
          if visible {
            snapshot := snapshot.(visible := snapshot.visible + [index]);
          }
          dirty := true;
      }
    }

    method Claim(id: string)
      modifies `claimedIds, `snapshot, `dirty
      ensures var ids := old(claimedIds) + {id};
        Abstract() == old(Abstract()).(claimedIds := ids, snapshot := old(snapshot).(claimed := |ids|), dirty := true)
    {
      claimedIds := claimedIds + {id};
      snapshot := snapshot.(claimed := |claimedIds|);
      dirty := true;
    }

    method ProcessCandidate(tree: Tree)
      modifies this
      ensures Abstract() == ProcessStep(world, tree, old(Abstract())) && published == old(published)
    {
      hide AddDiagnostic, Record;
      if candidateIndex >= |candidates| {
        if stopAfterRoot {
          FinishScan();
        } else {
          NextRoot();
        }
        return;
      }
      var relative := candidates[candidateIndex];
      candidateIndex := candidateIndex + 1;
      var id := world.deriveId(relative);
      if id.None? {
        NoteDiagnostic(RelativePathRejected);
        return;
      }
      if id.value in claimedIds {
        return;
      }
      Claim(id.value);
      RecordEntry(tree, relative, id.value);
    }

    method StepOnce()
      requires Valid()
      modifies this
      ensures Valid() && Abstract() == Step(world, old(Abstract())) && published == old(published)
    {
      StepKeepsBounds(world, Abstract());
      StepIsNoticed(world, Abstract());
      hide StartRootStep, ScanStep, ProcessStep, RootPotential;
      match phase {
        case StartRoot => BeginRoot();
        case ScanRoot => ScanRootOnce(world.roots[rootIndex].tree);
        case ProcessCandidates => ProcessCandidate(world.roots[rootIndex].tree);
        case Finished =>
      }
    }

    /** A snapshot that leaves out that the scan was truncated. */
    ghost predicate LacksFlag(current: Snapshot)
      reads this
    {
      snapshot.truncated && !current.truncated
    }

    method Publish() returns (current: Snapshot)
      requires Valid()
      modifies this
      ensures Valid() && published == Some(current)
      ensures Abstract() == old(Abstract()).(dirty := false)
      ensures current.(truncated := snapshot.truncated) == snapshot && (current == snapshot || LacksFlag(current))
      ensures LacksFlag(current) <==>
        !old(dirty) && old(published).Some? && !old(published).value.truncated && snapshot.truncated
      ensures LacksFlag(current) ==> old(published).value.diagnosticsTruncated && phase != Finished
    {
      if dirty || published.None? {
        published := Some(snapshot);
        dirty := false;
      }
      current := published.value;
    }

    /** One more step of a scan that started somewhere. */
    method StepOn(ghost start: State, ghost done: nat)
      requires Valid() && Usable(world) && Bounded(world, start) && Abstract() == Iterate(world, start, done)
      modifies this
      ensures Valid() && Abstract() == Iterate(world, start, done + 1) && published == old(published)
      ensures old(snapshot.entries) <= snapshot.entries && old(snapshot.visible) <= snapshot.visible
    {
      hide Bounded, Step, Usable, Placed, PublishedIsCurrent;
      IterateOnce(world, start, done);
      EntriesGrow(world, Abstract());
      StepOnce();
    }

    /**
     At most the given number of steps, fewer when the scan ends or the token, asked before each step, is
     cancelled.
     */
    method Work(maximumWorkUnits: nat, token: CancellationToken) returns (workUnits: nat, cancellationObserved: bool)
      requires Valid()
      modifies this, token
      ensures Valid() && workUnits <= maximumWorkUnits && published == old(published)
      ensures Abstract() == Iterate(world, old(Abstract()), workUnits)
      ensures cancellationObserved <==> workUnits < maximumWorkUnits && phase != Finished
      ensures token.polls == old(token.polls) + workUnits + (if cancellationObserved then 1 else 0)
      ensures if cancellationObserved then !token.Quiet() else token.polls == old(token.polls) || token.Quiet()
      ensures old(snapshot.entries) <= snapshot.entries && old(snapshot.visible) <= snapshot.visible
    {
      workUnits, cancellationObserved := 0, false;
      hide Bounded, Step, Usable, Placed, PublishedIsCurrent;
      ghost var start := Abstract();
      assert Usable(world) && Bounded(world, start) && Abstract() == Iterate(world, start, 0);
      hide Valid, Iterate, Abstract;
      while workUnits < maximumWorkUnits && phase != Finished
        invariant Valid() && workUnits <= maximumWorkUnits && published == old(published)
        invariant Abstract() == Iterate(world, start, workUnits)
        invariant token.polls == old(token.polls) + workUnits && (workUnits > 0 ==> token.Quiet())
        invariant old(snapshot.entries) <= snapshot.entries && old(snapshot.visible) <= snapshot.visible
      {
        var requested := token.IsCancellationRequested();
        if requested {
          cancellationObserved := true;
          break;
        }
        StepOn(start, workUnits);
        workUnits := workUnits + 1;
      }
    }

    /** The positions added to the snapshot since it held so many entries and visible positions. */
    method AddedSince(entries: nat, visible: nat) returns (added: seq<nat>, addedVisible: seq<nat>)
      requires entries <= |snapshot.entries| && visible <= |snapshot.visible|
      ensures |added| == |snapshot.entries| - entries
      ensures forall i :: 0 <= i < |added| ==> added[i] == entries + i
      ensures addedVisible == snapshot.visible[visible..]
    {
      added, addedVisible := [], [];
      for index := entries to |snapshot.entries|
        invariant |added| == index - entries
        invariant forall i :: 0 <= i < |added| ==> added[i] == entries + i
      {
        added := added + [index];
      }
      for index := visible to |snapshot.visible|
        invariant addedVisible == snapshot.visible[visible..index]
      {
        addedVisible := addedVisible + [snapshot.visible[index]];
      }
    }

    /** One pull of the caller: the work done, the snapshot published and the positions added to it. */
    method Pull(maximumWorkUnits: nat, token: CancellationToken)
        returns (error: Option<ErrorCode>, current: Snapshot, added: seq<nat>, addedVisible: seq<nat>, workUnits: nat,
          cancellationObserved: bool)
      requires Valid()
      modifies this, token
      ensures Valid()
      ensures error == if maximumWorkUnits == 0 then Some(InvalidArgument) else None
      ensures error.Some? ==> Abstract() == old(Abstract()) && published == old(published)
      ensures error.None? ==>
        && workUnits <= maximumWorkUnits
        && Abstract() == Iterate(world, old(Abstract()), workUnits).(dirty := false)
        && (cancellationObserved <==> workUnits < maximumWorkUnits && phase != Finished)
        && (if cancellationObserved then !token.Quiet() else token.polls == old(token.polls) || token.Quiet())
        && current.(truncated := snapshot.truncated) == snapshot && (current == snapshot || LacksFlag(current))
        && (LacksFlag(current) <==>
              && !Iterate(world, old(Abstract()), workUnits).dirty && old(published).Some?
              && !old(published).value.truncated && snapshot.truncated)
        && (LacksFlag(current) ==> old(published).value.diagnosticsTruncated && phase != Finished)
        && (phase == Finished ==> current == snapshot) && published == Some(current)
        && |added| == |snapshot.entries| - |old(snapshot.entries)|
        && (forall i :: 0 <= i < |added| ==> added[i] == |old(snapshot.entries)| + i)
        && snapshot.visible == old(snapshot.visible) + addedVisible
    {
      current, added, addedVisible, workUnits, cancellationObserved := snapshot, [], [], 0, false;
      if maximumWorkUnits == 0 {
        return Some(InvalidArgument), current, added, addedVisible, workUnits, cancellationObserved;
      }
      hide Bounded, Usable, PublishedIsCurrent;
      error := None;
      var initialEntries, initialVisible := |snapshot.entries|, |snapshot.visible|;
      workUnits, cancellationObserved := Work(maximumWorkUnits, token);
      added, addedVisible := AddedSince(initialEntries, initialVisible);
      current := Publish();
    }
  }

  lemma {:induction false} IterateOnce(w: World, s: State, n: nat)
    requires Usable(w) && Bounded(w, s)
    ensures Placed(w, Iterate(w, s, n))
    ensures Iterate(w, s, n + 1) == Step(w, Iterate(w, s, n))
  {
    IterateAdds(w, s, n, 1);
    StepKeepsBounds(w, Iterate(w, s, n));
    hide Bounded, Step;
  }

  /** The same but for the mark that something changed. */
  predicate Alike(a: State, b: State) {
    a.(dirty := b.dirty) == b
  }

  lemma {:induction false} DiagnosticsAlike(l: Limits, a: State, b: State, code: Code)
    requires Alike(a, b)
    ensures Alike(AddDiagnostic(l, a, code), AddDiagnostic(l, b, code))
    ensures Alike(MarkTruncated(l, a, code), MarkTruncated(l, b, code))
    ensures Alike(AbandonRoot(l, a, code), AbandonRoot(l, b, code))
  {
  }

  lemma {:induction false} KeepAlike(l: Limits, a: State, b: State, relative: string)
    requires Alike(a, b)
    ensures Alike(KeepCandidate(l, a, relative), KeepCandidate(l, b, relative))
  {
    DiagnosticsAlike(l, a, b, CandidateLimitReached);
    hide MarkTruncated, KeepSmallest;
  }

  lemma {:induction false} InspectAlike(l: Limits, tree: Tree, a: State, b: State, directory: Pending, name: string)
    requires Alike(a, b)
    ensures Alike(Inspect(l, tree, a, directory, name), Inspect(l, tree, b, directory, name))
  {
    DiagnosticsAlike(l, a, b, DirectoryUnavailable);
    DiagnosticsAlike(l, a, b, DepthLimitReached);
    DiagnosticsAlike(l, a, b, DirectoryLimitReached);
    KeepAlike(l, a, b, Join(directory.relative, name));
    hide AddDiagnostic, MarkTruncated, KeepCandidate, Join, EndsWith;
  }

  lemma {:induction false} EnumerateAlike(l: Limits, tree: Tree, a: State, b: State, directory: Pending, position: nat)
    requires Alike(a, b)
    ensures Alike(Enumerate(l, tree, a, directory, position), Enumerate(l, tree, b, directory, position))
  {
    hide AbandonRoot, Sort;
    DiagnosticsAlike(l, a, b, NodeLimitReached);
    var listing := tree.listing(directory.relative);
    if position < |listing| {
      var names, nodes := a.names + [listing[position]], a.nodesInRoot + 1;
      DiagnosticsAlike(
        l, a.(names := names, nodesInRoot := nodes, cursor := Some(position + 1)),
        b.(names := names, nodesInRoot := nodes, cursor := Some(position + 1)), DirectoryUnavailable);
    }
  }

  lemma {:induction false} ChooseAlike(l: Limits, tree: Tree, a: State, b: State)
    requires Alike(a, b)
    ensures Alike(ChooseDirectory(l, tree, a), ChooseDirectory(l, tree, b))
  {
    DiagnosticsAlike(l, a, b, DirectoryUnavailable);
    hide AbandonRoot, Sort, SmallestPending;
  }

  lemma {:induction false} RecordAlike(w: World, tree: Tree, a: State, b: State, relative: string, id: string)
    requires Alike(a, b)
    ensures Alike(Record(w, a, tree, relative, id), Record(w, b, tree, relative, id))
  {
    var l := w.limits;
    DiagnosticsAlike(l, a, b, FileUnavailable);
    DiagnosticsAlike(l, a, b, FileTooLarge);
    DiagnosticsAlike(l, a, b, DesktopEntryRejected);
    DiagnosticsAlike(l, a, b, EntryLimitReached);
    DiagnosticsAlike(l, a, b, RelativePathRejected);
    hide AddDiagnostic, MarkTruncated;
  }

  lemma {:induction false} AdvanceAlike(w: World, a: State, b: State)
    requires Alike(a, b)
    ensures Alike(AdvanceRoot(w, a), AdvanceRoot(w, b))
  {
  }

  lemma {:induction false} ProcessAlike(w: World, tree: Tree, a: State, b: State)
    requires Alike(a, b)
    ensures Alike(ProcessStep(w, tree, a), ProcessStep(w, tree, b))
  {
    hide AddDiagnostic, Record, AdvanceRoot;
    if a.candidateIndex < |a.candidates| {
      var relative := a.candidates[a.candidateIndex];
      var id := w.deriveId(relative);
      var na, nb := a.(candidateIndex := a.candidateIndex + 1), b.(candidateIndex := a.candidateIndex + 1);
      if id.None? {
        DiagnosticsAlike(w.limits, na, nb, RelativePathRejected);
      } else {
        var ids := a.claimedIds + {id.value};
        var snapshot := a.snapshot.(claimed := |ids|);
        RecordAlike(w, tree, na.(claimedIds := ids, snapshot := snapshot, dirty := true),
                    nb.(claimedIds := ids, snapshot := snapshot, dirty := true), relative, id.value);
      }
    } else {
      AdvanceAlike(w, a, b);
    }
  }

  /** Publishing in between does not influence the scan. */
  lemma {:induction false} StepAlike(w: World, a: State, b: State)
    requires Placed(w, a) && Placed(w, b) && Alike(a, b)
    ensures Alike(Step(w, a), Step(w, b))
  {
    hide AddDiagnostic, Inspect, Enumerate, ChooseDirectory, ProcessStep;
    match a.phase {
      case StartRoot =>
        DiagnosticsAlike(w.limits, a, b, RootUnavailable);
      case ScanRoot =>
        var l, tree := w.limits, w.roots[a.rootIndex].tree;
        if Inspecting(a) {
          InspectAlike(l, tree, a.(nameIndex := a.nameIndex + 1), b.(nameIndex := a.nameIndex + 1), a.active.value,
            a.names[a.nameIndex]);
        } else if a.active.None? {
          ChooseAlike(l, tree, a, b);
        } else if a.cursor.Some? {
          EnumerateAlike(l, tree, a, b, a.active.value, a.cursor.value);
        }
      case ProcessCandidates =>
        ProcessAlike(w, w.roots[a.rootIndex].tree, a, b);
      case Finished =>
    }
  }

  /** Pulls may publish whenever they like: n steps after a publication are n steps without it. */
  lemma {:induction false} IterateAlike(w: World, a: State, b: State, n: nat)
    requires Usable(w) && Bounded(w, a) && Bounded(w, b) && Alike(a, b)
    ensures Alike(Iterate(w, a, n), Iterate(w, b, n))
    decreases n
  {
    hide Step, Bounded, Usable, Placed, Alike;
    if n > 0 {
      StepKeepsBounds(w, a);
      StepKeepsBounds(w, b);
      StepAlike(w, a, b);
      IterateAlike(w, Step(w, a), Step(w, b), n - 1);
    }
  }

  lemma {:induction false} ProcessGrows(w: World, tree: Tree, s: State)
    ensures var r := ProcessStep(w, tree, s);
      s.snapshot.entries <= r.snapshot.entries && s.snapshot.visible <= r.snapshot.visible
  {
    hide AddDiagnostic, Record, AdvanceRoot;
  }

  lemma {:induction false} EntriesGrow(w: World, s: State)
    requires Placed(w, s)
    ensures s.snapshot.entries <= Step(w, s).snapshot.entries && s.snapshot.visible <= Step(w, s).snapshot.visible
  {
    if s.phase == ProcessCandidates {
      ProcessGrows(w, w.roots[s.rootIndex].tree, s);
    }
    hide StartRootStep, ScanStep, ProcessStep;
  }

  const MAXIMUM_ROOT_BYTES: nat := 4096

  /** A dot or two dots with a slash or an end of the path on either side. */
  predicate DotsAt(path: string, i: nat, j: nat) {
    && i <= j <= |path| && (path[i..j] == "." || path[i..j] == "..")
    && (i == 0 || path[i - 1] == '/') && (j == |path| || path[j] == '/')
  }

  predicate HasDotTraversal(path: string) {
    exists i, j :: 0 <= i <= j <= |path| && DotsAt(path, i, j)
  }

  /** The parts of a path between its slashes. */
  function Components(path: string): seq<string>
    decreases |path|
  {
    var k := FirstSlash(path);
    if k == |path| then [path] else [path[..k]] + Components(path[k + 1..])
  }

  function FirstSlash(path: string): (k: nat)
    ensures k <= |path| && (k < |path| ==> path[k] == '/')
    ensures forall i :: 0 <= i < k ==> path[i] != '/'
  {
    if path == "" || path[0] == '/' then 0 else 1 + FirstSlash(path[1..])
  }

  lemma {:induction false} DotsSpanNoSlash(path: string, i: nat, j: nat)
    requires DotsAt(path, i, j)
    ensures forall k :: i <= k < j ==> path[k] == '.'
  {
    forall k | i <= k < j ensures path[k] == '.' {
      assert path[k] == path[i..j][k - i];
    }
  }

  lemma {:induction false} DotsComeFirst(path: string, i: nat, j: nat)
    requires DotsAt(path, i, j)
    ensures i == 0 ==> j == FirstSlash(path)
    ensures i > 0 ==> i > FirstSlash(path) && DotsAt(path[FirstSlash(path) + 1..], i - FirstSlash(path) - 1,
                                                     j - FirstSlash(path) - 1)
  {
    var k := FirstSlash(path);
    DotsSpanNoSlash(path, i, j);
    if i > 0 {
      assert path[k + 1..][i - k - 1..j - k - 1] == path[i..j];
    }
  }

  lemma {:induction false} DotsComeLater(path: string, i: nat, j: nat)
    requires FirstSlash(path) < |path| && DotsAt(path[FirstSlash(path) + 1..], i, j)
    ensures DotsAt(path, i + FirstSlash(path) + 1, j + FirstSlash(path) + 1)
  {
    var k := FirstSlash(path);
    assert path[i + k + 1..j + k + 1] == path[k + 1..][i..j];
  }

  lemma {:induction false} DotsComeAtOnce(path: string)
    ensures var first := path[..FirstSlash(path)];
      DotsAt(path, 0, FirstSlash(path)) <==> first == "." || first == ".."
  {
    assert path[0..FirstSlash(path)] == path[..FirstSlash(path)];
  }

  lemma {:induction false} DotsAreFirstOrLater(path: string)
    ensures var k := FirstSlash(path);
      HasDotTraversal(path)
      <==> path[..k] == "." || path[..k] == ".." || (k < |path| && HasDotTraversal(path[k + 1..]))
  {
    var k := FirstSlash(path);
    DotsComeAtOnce(path);
    if k < |path| && HasDotTraversal(path[k + 1..]) {
      var i, j :| 0 <= i <= j <= |path[k + 1..]| && DotsAt(path[k + 1..], i, j);
      DotsComeLater(path, i, j);
    }
    if HasDotTraversal(path) {
      var i, j :| 0 <= i <= j <= |path| && DotsAt(path, i, j);
      DotsComeFirst(path, i, j);
    }
    hide DotsAt, FirstSlash;
  }

  /** A path leads through dots exactly when one of its components is a dot or two. */
  lemma {:induction false} TraversalIsAComponent(path: string)
    ensures HasDotTraversal(path) <==> "." in Components(path) || ".." in Components(path)
    decreases |path|
  {
    DotsAreFirstOrLater(path);
    hide HasDotTraversal;
    var k := FirstSlash(path);
    if k < |path| {
      TraversalIsAComponent(path[k + 1..]);
    } else {
      assert path[..k] == path;
    }
  }

  predicate AcceptableRoot(path: string) {
    path != "" && path[0] == '/' && !HasNul(path) && |path| <= MAXIMUM_ROOT_BYTES && !HasDotTraversal(path)
  }

  /** The limits, the number of roots and their paths are checked before a scanner exists. */
  method CreateScanner(world: World, rootPaths: seq<string>) returns (scanner: Scanner?, error: Option<ErrorCode>)
    requires |rootPaths| == |world.roots|
    ensures scanner == null <==> error.Some?
    ensures error == if !LimitsValid(world.limits) then Some(InvalidArgument)
                     else if |world.roots| > world.limits.roots then Some(TooLarge)
                     else if exists path :: path in rootPaths && !AcceptableRoot(path) then Some(InvalidArgument)
                     else None
    ensures scanner != null ==>
      fresh(scanner) && scanner.world == world && scanner.Valid() && scanner.Abstract() == Initial(world)
  {
    hide AcceptableRoot;
    if !LimitsValid(world.limits) {
      return null, Some(InvalidArgument);
    }
    if |world.roots| > world.limits.roots {
      return null, Some(TooLarge);
    }
    for i := 0 to |rootPaths|
      invariant forall k :: 0 <= k < i ==> AcceptableRoot(rootPaths[k])
    {
      if !AcceptableRoot(rootPaths[i]) {
        return null, Some(InvalidArgument);
      }
    }
    var created := new Scanner(world);
    return created, None;
  }

  // ---------------------------------------------------------------- a publication without its truncation flag

  /** Two entries that cannot be looked at and a directory, in that order. */
  const SMALL_TREE := Tree(
    path => if path == "" || path == "c" then Directory else Unreadable, _ => Unavailable, _ => true,
    path => if path == "" then ["a", "b", "c"] else [], _ => None)

  /** Room for one diagnostic and no depth for a directory. */
  const SMALL_WORLD := World([PresentRoot(SMALL_TREE)], Limits(1, 3, 1, 1, 1, 1, 1), _ => None, (_, _) => true)

  const ONE_DIAGNOSTIC := [Diagnostic(DirectoryUnavailable, 0)]

  function SmallStart(): State {
    State(EMPTY_SNAPSHOT, {}, ScanRoot, 0, [Pending("", 0)], None, None, [], 0, [], 0, 0, 1, false, true)
  }

  /** The scan of the small tree while its names are read. */
  function SmallReading(n: nat): State
    requires n <= 3
  {
    State(EMPTY_SNAPSHOT, {}, ScanRoot, 0, [], Some(Pending("", 0)), Some(n), ["a", "b", "c"][..n], 0, [], 0, n, 1,
      false, true)
  }

  /** The scan of the small tree while its names are inspected. */
  function SmallInspecting(n: nat, snapshot: Snapshot, stopAfterRoot: bool, dirty: bool): State {
    State(snapshot, {}, ScanRoot, 0, [], Some(Pending("", 0)), None, ["a", "b", "c"], n, [], 0, 3, 1, stopAfterRoot,
      dirty)
  }

  const CUT_OFF := EMPTY_SNAPSHOT.(diagnostics := ONE_DIAGNOSTIC, diagnosticsTruncated := true)

  lemma {:induction false} SmallNamesAreSorted()
    ensures Sort(LexLess, ["a", "b", "c"]) == ["a", "b", "c"]
  {
    LexIsStrictOrder();
    SortOfSorted(LexLess, ["a", "b", "c"]);
  }

  lemma {:induction false} SmallScanStarts()
    ensures Usable(SMALL_WORLD) && Bounded(SMALL_WORLD, Initial(SMALL_WORLD))
    ensures Step(SMALL_WORLD, Initial(SMALL_WORLD)) == SmallStart()
    ensures Step(SMALL_WORLD, SmallStart()) == SmallReading(0)
  {
    hide AddDiagnostic, MarkTruncated, Inspect, Enumerate, LexLess, Sort;
  }

  lemma {:induction false} SmallNameIsRead(n: nat)
    requires n < 3
    ensures Step(SMALL_WORLD, SmallReading(n)) == SmallReading(n + 1)
  {
    hide AddDiagnostic, MarkTruncated, SmallestPending, Inspect, LexLess, Sort;
    assert ["a", "b", "c"][..n] + [["a", "b", "c"][n]] == ["a", "b", "c"][..n + 1];
  }

  lemma {:induction false} SmallWorldIsRead()
    ensures Usable(SMALL_WORLD) && Bounded(SMALL_WORLD, Initial(SMALL_WORLD))
    ensures Iterate(SMALL_WORLD, Initial(SMALL_WORLD), 5) == SmallReading(3)
  {
    var w, s0 := SMALL_WORLD, Initial(SMALL_WORLD);
    SmallScanStarts();
    assert Iterate(w, s0, 0) == s0;
    hide *;
    SmallNameIsRead(0);
    SmallNameIsRead(1);
    SmallNameIsRead(2);
    IterateOnce(w, s0, 0);
    IterateOnce(w, s0, 1);
    IterateOnce(w, s0, 2);
    IterateOnce(w, s0, 3);
    IterateOnce(w, s0, 4);
  }

  lemma {:induction false} SmallNamesAreRead()
    ensures Step(SMALL_WORLD, SmallReading(3)) == SmallInspecting(0, EMPTY_SNAPSHOT, false, true)
  {
    SmallNamesAreSorted();
    assert ["a", "b", "c"][..3] == ["a", "b", "c"];
    hide AddDiagnostic, MarkTruncated, SmallestPending, Inspect, LexLess, Sort;
  }

  lemma {:induction false} SmallUnreadable(n: nat, snapshot: Snapshot, dirty: bool)
    requires n < 2
    ensures Step(SMALL_WORLD, SmallInspecting(n, snapshot, false, dirty))
         == AddDiagnostic(SMALL_WORLD.limits, SmallInspecting(n + 1, snapshot, false, dirty), DirectoryUnavailable)
  {
    hide AddDiagnostic, MarkTruncated, SmallestPending, KeepCandidate, LexLess, Sort, EndsWith;
  }

  lemma {:induction false} SmallDirectory(snapshot: Snapshot, dirty: bool)
    ensures Step(SMALL_WORLD, SmallInspecting(2, snapshot, false, dirty))
         == MarkTruncated(SMALL_WORLD.limits, SmallInspecting(3, snapshot, false, dirty), DepthLimitReached)
  {
    hide AddDiagnostic, MarkTruncated, SmallestPending, KeepCandidate, LexLess, Sort, EndsWith;
  }

  lemma {:induction false} SmallDiagnostics()
    ensures var noted := EMPTY_SNAPSHOT.(diagnostics := ONE_DIAGNOSTIC);
      && AddDiagnostic(SMALL_WORLD.limits, SmallInspecting(1, EMPTY_SNAPSHOT, false, true), DirectoryUnavailable)
         == SmallInspecting(1, noted, false, true)
      && AddDiagnostic(SMALL_WORLD.limits, SmallInspecting(2, noted, false, true), DirectoryUnavailable)
         == SmallInspecting(2, CUT_OFF, false, true)
      && MarkTruncated(SMALL_WORLD.limits, SmallInspecting(3, CUT_OFF, false, false), DepthLimitReached)
         == SmallInspecting(3, CUT_OFF.(truncated := true), true, false)
  {
  }

  lemma {:induction false} SmallWorldIsInspected()
    ensures Usable(SMALL_WORLD) && Bounded(SMALL_WORLD, Initial(SMALL_WORLD))
    ensures Iterate(SMALL_WORLD, Initial(SMALL_WORLD), 8) == SmallInspecting(2, CUT_OFF, false, true)
    ensures Step(SMALL_WORLD, SmallInspecting(2, CUT_OFF, false, false))
         == SmallInspecting(3, CUT_OFF.(truncated := true), true, false)
  {
    var w, s0, noted := SMALL_WORLD, Initial(SMALL_WORLD), EMPTY_SNAPSHOT.(diagnostics := ONE_DIAGNOSTIC);
    hide *;
    SmallWorldIsRead();
    SmallNamesAreRead();
    SmallDiagnostics();
    SmallUnreadable(0, EMPTY_SNAPSHOT, true);
    SmallUnreadable(1, noted, true);
    SmallDirectory(CUT_OFF, false);
    IterateOnce(w, s0, 5);
    IterateOnce(w, s0, 6);
    IterateOnce(w, s0, 7);
  }

  /**
   The scanner pulls eight units and then one more. The second publication is the first one again, although
   the scan has been truncated in between.
   */
  method PublishedWithoutFlag() returns (scanner: Scanner, first: Snapshot, second: Snapshot)
    ensures fresh(scanner) && scanner.world == SMALL_WORLD && scanner.Valid()
    ensures first == second == CUT_OFF && scanner.published == Some(second)
    ensures scanner.snapshot == CUT_OFF.(truncated := true) && scanner.LacksFlag(second)
  {
    SmallWorldIsInspected();
    ghost var s0, s8 := Initial(SMALL_WORLD), SmallInspecting(2, CUT_OFF, false, true);
    hide Step, Iterate, Initial, Usable, Bounded, PublishedIsCurrent;
    scanner := new Scanner(SMALL_WORLD);
    var never := new CancellationToken(None);
    var error, added, addedVisible, units, observed;
    error, first, added, addedVisible, units, observed := scanner.Pull(8, never);
    StopsOnlyAtTheEnd(SMALL_WORLD, s0, units, 8);
    ghost var s := scanner.Abstract();
    error, second, added, addedVisible, units, observed := scanner.Pull(1, never);
    OneStep(SMALL_WORLD, s);
    StopsOnlyAtTheEnd(SMALL_WORLD, s, units, 1);
  }

  lemma {:induction false} OneStep(w: World, s: State)
    requires Usable(w) && Bounded(w, s)
    ensures Iterate(w, s, 1) == Step(w, s)
  {
    assert Iterate(w, s, 0) == s;
    hide Step, Bounded, Usable;
    IterateOnce(w, s, 0);
  }

  /** A pull that is not cancelled stops early only when the scan has finished, and then more steps change nothing. */
  lemma {:induction false} StopsOnlyAtTheEnd(w: World, s: State, units: nat, budget: nat)
    requires Usable(w) && Bounded(w, s) && units <= budget
    requires units < budget ==> Iterate(w, s, units).phase == Finished
    ensures Iterate(w, s, units) == Iterate(w, s, budget)
  {
    if units < budget {
      IterateAdds(w, s, units, budget - units);
      FinishedStays(w, Iterate(w, s, units), budget - units);
    }
  }

  // ---------------------------------------------------------------- sequences of pulls

  function Sum(budgets: seq<nat>): nat {
    if budgets == [] then 0 else budgets[0] + Sum(budgets[1..])
  }

  /** The scan after pulls that did so many steps each and published after each. */
  function AfterPulls(w: World, s: State, budgets: seq<nat>): (r: State)
    requires Usable(w) && Bounded(w, s)
    ensures Bounded(w, r)
    decreases |budgets|
  {
    if budgets == [] then s else AfterPulls(w, Iterate(w, s, budgets[0]).(dirty := false), budgets[1..])
  }

  /** Whatever the budgets and publications of the pulls, together they do what that many steps do. */
  lemma {:induction false} PullsAreSteps(w: World, s: State, budgets: seq<nat>)
    requires Usable(w) && Bounded(w, s)
    ensures Alike(AfterPulls(w, s, budgets), Iterate(w, s, Sum(budgets)))
    decreases |budgets|
  {
    hide Step, Bounded, Usable, Placed;
    if budgets == [] {
      assert Iterate(w, s, 0) == s;
    } else {
      var mid := Iterate(w, s, budgets[0]);
      assert Bounded(w, mid.(dirty := false)) by { CleanIsBounded(w, mid); }
      PullsAreSteps(w, mid.(dirty := false), budgets[1..]);
      IterateAlike(w, mid.(dirty := false), mid, Sum(budgets[1..]));
      IterateAdds(w, s, budgets[0], Sum(budgets[1..]));
      hide Iterate, AfterPulls;
    }
  }

  lemma {:induction false} CleanIsBounded(w: World, s: State)
    requires Bounded(w, s)
    ensures Bounded(w, s.(dirty := false))
  {
  }

  /** What is published, with or without the flag, passes the catalog's checks, for any pulls from the start. */
  lemma {:induction false} EveryPublicationFeedsCatalog(w: World, budgets: seq<nat>, published: Snapshot)
    requires Usable(w) && Bounded(w, Initial(w))
    requires var held := AfterPulls(w, Initial(w), budgets).snapshot; published.(truncated := held.truncated) == held
    ensures CatalogAccepts(w.deriveId, published)
  {
    PullsAreSteps(w, Initial(w), budgets);
    EverySnapshotFeedsCatalog(w, Sum(budgets));
    hide Iterate, AfterPulls, Initial, Usable, Bounded, Sum;
  }
}
