/**
 The pull-based scanner for desktop entries, on values: the file system it looks at, the scanner's state, one
 unit of work as a step function, and the iteration of that step.

 A scan is bounded per root: every step keeps the limits and lowers a natural number computed from them, so
 every scan ends, and it ends with one result however the work is split.
 */
module Discovery {
  import opened Foundation
  import opened Ordering

  const MAXIMUM_ROOTS: nat := 128
  const MAXIMUM_NODES_PER_ROOT: nat := 65536
  const MAXIMUM_DIRECTORIES_PER_ROOT: nat := 4096
  const MAXIMUM_CANDIDATES_PER_ROOT: nat := 16384
  const MAXIMUM_ENTRIES: nat := 16384
  const MAXIMUM_DIAGNOSTICS: nat := 256
  const MAXIMUM_DEPTH: nat := 64
  const DESKTOP_SUFFIX := ".desktop"

  datatype Limits = Limits(
    roots: nat, nodesPerRoot: nat, directoriesPerRoot: nat, candidatesPerRoot: nat, entries: nat, diagnostics: nat,
      depth: nat)

  datatype Code =
    | RootUnavailable | DirectoryUnavailable | RelativePathRejected | FileUnavailable | FileTooLarge
    | DesktopEntryRejected | DepthLimitReached | DirectoryLimitReached | NodeLimitReached
    | CandidateLimitReached | EntryLimitReached

  datatype Diagnostic = Diagnostic(code: Code, rootIndex: nat)

  // ---------------------------------------------------------------- the file system

  /** What a node is: a directory only when it is not a symbolic link, a regular file also through one. */
  datatype Kind = Unreadable | Directory | RegularFile | OtherNode

  datatype Contents = Unavailable | TooLargeFile | Rejected | Parsed(entry: string, visible: bool)

  /**
   A file system that does not change while it is scanned, by path relative to the application root.
   `listing` is the order in which a directory enumerates its names; `failsAfter` the number of names after
   which reading on fails, if it does.
   */
  datatype Tree = Tree(
    kind: string -> Kind, contents: string -> Contents,
    opens: string -> bool, listing: string -> seq<string>, failsAfter: string -> Option<nat>)

  datatype Root = MissingRoot | UnavailableRoot | PresentRoot(tree: Tree)

  /** The scanner's surroundings; `deriveId` and `locatable` stand for the identifier and location rules. */
  datatype World = World(
    roots: seq<Root>, limits: Limits, deriveId: string -> Option<string>, locatable: (nat, string) -> bool)

  predicate LimitsValid(l: Limits) {
    && 0 < l.roots <= MAXIMUM_ROOTS && 0 < l.nodesPerRoot <= MAXIMUM_NODES_PER_ROOT
    && 0 < l.directoriesPerRoot <= MAXIMUM_DIRECTORIES_PER_ROOT
    && 0 < l.candidatesPerRoot <= MAXIMUM_CANDIDATES_PER_ROOT
    && 0 < l.entries <= MAXIMUM_ENTRIES && 0 < l.diagnostics <= MAXIMUM_DIAGNOSTICS
    && 0 < l.depth <= MAXIMUM_DEPTH
  }

  predicate Usable(w: World) {
    LimitsValid(w.limits) && |w.roots| <= w.limits.roots
  }

  // ---------------------------------------------------------------- the scanner's state

  datatype Phase = StartRoot | ScanRoot | ProcessCandidates | Finished

  datatype Pending = Pending(relative: string, depth: nat)

  datatype Entry = Entry(id: string, entry: string, visible: bool, rootIndex: nat, relative: string)

  datatype Snapshot = Snapshot(
    entries: seq<Entry>, visible: seq<nat>, diagnostics: seq<Diagnostic>, claimed: nat,
    complete: bool, truncated: bool, diagnosticsTruncated: bool)

  datatype State = State(
    snapshot: Snapshot, claimedIds: set<string>, phase: Phase, rootIndex: nat,
    pending: seq<Pending>, active: Option<Pending>, cursor: Option<nat>, names: seq<string>, nameIndex: nat,
    candidates: seq<string>, candidateIndex: nat, nodesInRoot: nat, directoriesInRoot: nat,
    stopAfterRoot: bool, dirty: bool)

  function Join(directory: string, name: string): string {
    if directory == "" then name else directory + "/" + name
  }

  predicate EndsWith(s: string, suffix: string) {
    |suffix| <= |s| && s[|s| - |suffix|..] == suffix
  }

  // ---------------------------------------------------------------- one step, on values

  /** Two states at the same point of the same work. */
  predicate SameWork(a: State, b: State) {
    && a.phase == b.phase && a.rootIndex == b.rootIndex && a.pending == b.pending && a.active == b.active
    && a.cursor == b.cursor && a.names == b.names && a.nameIndex == b.nameIndex && a.candidates == b.candidates
    && a.candidateIndex == b.candidateIndex && a.nodesInRoot == b.nodesInRoot
        && a.directoriesInRoot == b.directoriesInRoot
  }

  /** Two states that have published the same entries and claimed the same identifiers. */
  predicate SameClaims(a: State, b: State) {
    && a.snapshot.entries == b.snapshot.entries && a.snapshot.visible == b.snapshot.visible
    && a.claimedIds == b.claimedIds && a.snapshot.claimed == b.snapshot.claimed
  }

  function AddDiagnostic(l: Limits, s: State, code: Code): (r: State)
    ensures SameWork(r, s) && r.stopAfterRoot == s.stopAfterRoot
    ensures SameClaims(r, s) && r.snapshot.truncated == s.snapshot.truncated
    ensures |s.snapshot.diagnostics| <= l.diagnostics ==> |r.snapshot.diagnostics| <= l.diagnostics
  {
    if |s.snapshot.diagnostics| < l.diagnostics then
      s.(snapshot := s.snapshot.(diagnostics := s.snapshot.diagnostics + [Diagnostic(code, s.rootIndex)]),
        dirty := true)
    else if !s.snapshot.diagnosticsTruncated then
      s.(snapshot := s.snapshot.(diagnosticsTruncated := true), dirty := true)
    else s
  }

  function MarkTruncated(l: Limits, s: State, code: Code): (r: State)
    ensures SameWork(r, s) && r.stopAfterRoot && r.snapshot.truncated
    ensures SameClaims(r, s)
    ensures |s.snapshot.diagnostics| <= l.diagnostics ==> |r.snapshot.diagnostics| <= l.diagnostics
  {
    AddDiagnostic(l, s.(snapshot := s.snapshot.(truncated := true), stopAfterRoot := true), code)
  }

  function Finish(s: State): (r: State)
    ensures SameClaims(r, s)
  {
    s.(phase := Finished, snapshot := s.snapshot.(complete := true), dirty := true)
  }

  function AdvanceRoot(w: World, s: State): (r: State)
    ensures SameClaims(r, s)
  {
    var cleared := s.(
      pending := [], active := None, cursor := None, names := [], nameIndex := 0, candidates := [],
      candidateIndex := 0, nodesInRoot := 0, directoriesInRoot := 0, stopAfterRoot := false,
        rootIndex := s.rootIndex + 1);
    if cleared.rootIndex >= |w.roots| then Finish(cleared) else cleared.(phase := StartRoot)
  }

  function StartRootStep(w: World, s: State): (r: State)
    requires s.rootIndex < |w.roots|
    ensures SameClaims(r, s)
  {
    match w.roots[s.rootIndex]
    case MissingRoot => AdvanceRoot(w, s)
    case UnavailableRoot =>
      var noted := AddDiagnostic(w.limits, s, RootUnavailable);
      Finish(noted.(snapshot := noted.snapshot.(truncated := true)))
    case PresentRoot(_) => s.(pending := s.pending + [Pending("", 0)], directoriesInRoot := 1, phase := ScanRoot)
  }

  /** A root whose scan cannot be complete publishes none of its candidates. */
  function AbandonRoot(l: Limits, s: State, code: Code): (r: State)
    ensures SameClaims(r, s)
  {
    MarkTruncated(l, s, code).(
      candidates := [], pending := [], active := None, cursor := None, names := [], candidateIndex := 0,
      phase := ProcessCandidates)
  }

  function KeepCandidate(l: Limits, s: State, relative: string): (r: State)
    ensures SameClaims(r, s)
  {
    var kept := KeepSmallest(LexLess, s.candidates, relative, l.candidatesPerRoot);
    (if |s.candidates| < l.candidatesPerRoot then s else MarkTruncated(l, s, CandidateLimitReached))
      .(candidates := kept)
  }

  /** Inspecting one name of the active directory. */
  function Inspect(l: Limits, tree: Tree, s: State, directory: Pending, name: string): (r: State)
    ensures SameClaims(r, s)
  {
    var relative := Join(directory.relative, name);
    match tree.kind(relative)
    case Unreadable => AddDiagnostic(l, s, DirectoryUnavailable)
    case Directory =>
      if directory.depth + 1 >= l.depth then MarkTruncated(l, s, DepthLimitReached)
      else if s.directoriesInRoot >= l.directoriesPerRoot then MarkTruncated(l, s, DirectoryLimitReached)
      else
        s.(directoriesInRoot := s.directoriesInRoot + 1,
          pending := s.pending + [Pending(relative, directory.depth + 1)])
    case RegularFile => if EndsWith(relative, DESKTOP_SUFFIX) then KeepCandidate(l, s, relative) else s
    case OtherNode => s
  }

  /** The first pending directory with the smallest path. */
  function SmallestPending(pending: seq<Pending>): (m: nat)
    requires pending != []
    ensures m < |pending|
  {
    if |pending| == 1 then 0
    else
      var m := SmallestPending(pending[..|pending| - 1]);
      if LexLess(pending[|pending| - 1].relative, pending[m].relative) then |pending| - 1 else m
  }

  function ChooseDirectory(l: Limits, tree: Tree, s: State): (r: State)
    ensures SameClaims(r, s)
  {
    if s.pending == [] then
      s.(candidates := Sort(LexLess, s.candidates), candidateIndex := 0, phase := ProcessCandidates)
    else
      var m := SmallestPending(s.pending);
      var directory := s.pending[m];
      if !tree.opens(directory.relative) then AbandonRoot(l, s, DirectoryUnavailable)
      else
        s.(pending := s.pending[..m] + s.pending[m + 1..], active := Some(directory), cursor := Some(0),
          names := [], nameIndex := 0)
  }

  function Enumerate(l: Limits, tree: Tree, s: State, directory: Pending, position: nat): (r: State)
    ensures SameClaims(r, s)
  {
    var listing := tree.listing(directory.relative);
    if position >= |listing| then s.(cursor := None, names := Sort(LexLess, s.names))
    else if s.nodesInRoot >= l.nodesPerRoot then AbandonRoot(l, s, NodeLimitReached)
    else
      var pushed := s.(names := s.names + [listing[position]], nodesInRoot := s.nodesInRoot + 1,
        cursor := Some(position + 1));
      if tree.failsAfter(directory.relative) == Some(position + 1) then AbandonRoot(l, pushed, DirectoryUnavailable)
      else pushed
  }

  function ScanStep(l: Limits, tree: Tree, s: State): (r: State)
    ensures SameClaims(r, s)
  {
    match s.active
    case None => ChooseDirectory(l, tree, s)
    case Some(directory) =>
      match s.cursor
      case Some(position) => Enumerate(l, tree, s, directory, position)
      case None =>
        if s.nameIndex < |s.names| then
          Inspect(l, tree, s.(nameIndex := s.nameIndex + 1), directory, s.names[s.nameIndex])
        else s.(names := [], nameIndex := 0, active := None)
  }

  /** Reading, parsing and recording the file that has just claimed an identifier. */
  function Record(w: World, s: State, tree: Tree, relative: string, id: string): (r: State)
    ensures SameWork(r.(phase := s.phase), s) && (r.phase == s.phase || r.phase == Finished)
    ensures r.claimedIds == s.claimedIds && r.snapshot.claimed == s.snapshot.claimed
    ensures s.snapshot.entries <= r.snapshot.entries && s.snapshot.visible <= r.snapshot.visible
  {
    match tree.contents(relative)
    case Unavailable => AddDiagnostic(w.limits, s, FileUnavailable)
    case TooLargeFile => AddDiagnostic(w.limits, s, FileTooLarge)
    case Rejected => AddDiagnostic(w.limits, s, DesktopEntryRejected)
    case Parsed(entry, visible) =>
      if |s.snapshot.entries| >= w.limits.entries then Finish(MarkTruncated(w.limits, s, EntryLimitReached))
      else if !w.locatable(s.rootIndex, relative) then AddDiagnostic(w.limits, s, RelativePathRejected)
      else
        var index := |s.snapshot.entries|;
        s.(snapshot := s.snapshot.(
             entries := s.snapshot.entries + [Entry(id, entry, visible, s.rootIndex, relative)],
             visible := if visible then s.snapshot.visible + [index] else s.snapshot.visible),
           dirty := true)
  }

  function ProcessStep(w: World, tree: Tree, s: State): State {
    if s.candidateIndex >= |s.candidates| then (if s.stopAfterRoot then Finish(s) else AdvanceRoot(w, s))
    else
      var relative := s.candidates[s.candidateIndex];
      var next := s.(candidateIndex := s.candidateIndex + 1);
      match w.deriveId(relative)
      case None => AddDiagnostic(w.limits, next, RelativePathRejected)
      case Some(id) =>
        if id in next.claimedIds then next
        else
          var ids := next.claimedIds + {id};
          Record(w, next.(claimedIds := ids, snapshot := next.snapshot.(claimed := |ids|), dirty := true), tree,
            relative, id)
  }

  /** The scanner works on a present root of the list, or is about to look at one. */
  predicate Placed(w: World, s: State) {
    && (s.phase != Finished ==> s.rootIndex < |w.roots|)
    && (s.phase == ScanRoot || s.phase == ProcessCandidates ==> w.roots[s.rootIndex].PresentRoot?)
  }

  function Step(w: World, s: State): State
    requires Placed(w, s)
  {
    match s.phase
    case StartRoot => StartRootStep(w, s)
    case ScanRoot => ScanStep(w.limits, w.roots[s.rootIndex].tree, s)
    case ProcessCandidates => ProcessStep(w, w.roots[s.rootIndex].tree, s)
    case Finished => s
  }

  const EMPTY_SNAPSHOT := Snapshot([], [], [], 0, false, false, false)

  function Initial(w: World): State {
    var start := State(EMPTY_SNAPSHOT, {}, StartRoot, 0, [], None, None, [], 0, [], 0, 0, 0, false, true);
    if w.roots == [] then Finish(start) else start
  }

  // ---------------------------------------------------------------- bounds and termination

  /** The counters stay within the limits of the current root. */
  predicate Bounded(w: World, s: State) {
    && Placed(w, s)
    && s.nodesInRoot <= w.limits.nodesPerRoot && s.directoriesInRoot <= w.limits.directoriesPerRoot
    && |s.candidates| <= w.limits.candidatesPerRoot && s.candidateIndex <= |s.candidates|
    && s.nameIndex <= |s.names|
    && (s.cursor.Some? ==> s.nameIndex == 0)
    && (s.active.None? ==> s.cursor.None? && s.names == [])
    && (s.phase == StartRoot ==>
          s.pending == [] && s.active.None? && s.candidates == [] && s.nodesInRoot == 0 && s.directoriesInRoot == 0
            && !s.stopAfterRoot)
  }

  /** The work one root may cost. */
  function RootBound(l: Limits): nat {
    3 * l.directoriesPerRoot + 2 * l.nodesPerRoot + l.candidatesPerRoot + 3
  }

  function RootPotential(l: Limits, s: State): int {
    match s.phase
    case StartRoot => RootBound(l)
    case ScanRoot =>
      3 * (l.directoriesPerRoot - s.directoriesInRoot) + 3 * |s.pending|
      + (if s.active.None? then 0 else if s.cursor.Some? then 2 else 1)
      + 2 * (l.nodesPerRoot - s.nodesInRoot) + (|s.names| - s.nameIndex)
      + l.candidatesPerRoot + 2
    case ProcessCandidates => |s.candidates| - s.candidateIndex + 1
    case Finished => 0
  }

  /** An upper bound on the steps that are left. */
  function Potential(w: World, s: State): int {
    if s.phase == Finished then 0 else (|w.roots| - s.rootIndex - 1) * RootBound(w.limits) + RootPotential(w.limits, s)
  }

  /** What inspecting one name may change: one more pending directory, paid for by the directory limit. */
  predicate Inspected(l: Limits, s: State, r: State) {
    && r.phase == s.phase && r.rootIndex == s.rootIndex && r.active == s.active && r.cursor == s.cursor
    && r.names == s.names && r.nameIndex == s.nameIndex && r.nodesInRoot == s.nodesInRoot
    && r.candidateIndex == s.candidateIndex
    && r.directoriesInRoot <= l.directoriesPerRoot
    && |s.candidates| <= |r.candidates| <= l.candidatesPerRoot
    && |r.pending| - |s.pending| == r.directoriesInRoot - s.directoriesInRoot
  }

  lemma {:induction false} InspectGrowth(l: Limits, tree: Tree, s: State, directory: Pending, name: string)
    requires LimitsValid(l) && s.directoriesInRoot <= l.directoriesPerRoot && |s.candidates| <= l.candidatesPerRoot
    ensures Inspected(l, s, Inspect(l, tree, s, directory, name))
  {
    hide AddDiagnostic, MarkTruncated, LexLess, EndsWith, Join, LargestIndex;
  }

  lemma {:induction false} InspectedBounds(w: World, s: State, r: State)
    requires Usable(w) && Bounded(w, s) && s.phase == ScanRoot
    requires s.active.Some? && s.cursor.None? && s.nameIndex < |s.names|
    requires Inspected(w.limits, s.(nameIndex := s.nameIndex + 1), r)
    ensures Bounded(w, r) && RootPotential(w.limits, r) < RootPotential(w.limits, s)
  {
    hide LimitsValid;
  }

  lemma {:induction false} InspectBounds(w: World, s: State)
    requires Usable(w) && Bounded(w, s) && s.phase == ScanRoot
    requires s.active.Some? && s.cursor.None? && s.nameIndex < |s.names|
    ensures Bounded(w, Step(w, s)) && Step(w, s).rootIndex == s.rootIndex && Step(w, s).phase == ScanRoot
    ensures RootPotential(w.limits, Step(w, s)) < RootPotential(w.limits, s)
  {
    hide Inspect, ChooseDirectory, Enumerate, StartRootStep, ProcessStep, RootPotential, RootBound;
    var l, tree, next := w.limits, w.roots[s.rootIndex].tree, s.(nameIndex := s.nameIndex + 1);
    InspectGrowth(l, tree, next, s.active.value, s.names[s.nameIndex]);
    var r := Inspect(l, tree, next, s.active.value, s.names[s.nameIndex]);
    assert Step(w, s) == r;
    InspectedBounds(w, s, r);
  }

  lemma {:induction false} ChooseBounds(w: World, s: State)
    requires Usable(w) && Bounded(w, s) && s.phase == ScanRoot && s.active.None?
    ensures Bounded(w, Step(w, s)) && Step(w, s).rootIndex == s.rootIndex
    ensures RootPotential(w.limits, Step(w, s)) < RootPotential(w.limits, s)
  {
    hide AddDiagnostic, MarkTruncated, Sort, SmallestPending;
  }

  lemma {:induction false} EnumerateBounds(w: World, s: State)
    requires Usable(w) && Bounded(w, s) && s.phase == ScanRoot && s.active.Some? && s.cursor.Some?
    ensures Bounded(w, Step(w, s)) && Step(w, s).rootIndex == s.rootIndex
    ensures RootPotential(w.limits, Step(w, s)) < RootPotential(w.limits, s)
  {
    hide AddDiagnostic, MarkTruncated, Sort;
  }

  lemma {:induction false} CloseBounds(w: World, s: State)
    requires Usable(w) && Bounded(w, s) && s.phase == ScanRoot
    requires s.active.Some? && s.cursor.None? && s.nameIndex == |s.names|
    ensures Bounded(w, Step(w, s)) && Step(w, s).rootIndex == s.rootIndex
    ensures RootPotential(w.limits, Step(w, s)) < RootPotential(w.limits, s)
  {
  }

  lemma {:induction false} ProcessBounds(w: World, s: State)
    requires Usable(w) && Bounded(w, s) && s.phase == ProcessCandidates && s.candidateIndex < |s.candidates|
    ensures Bounded(w, Step(w, s))
    ensures Step(w, s).phase == Finished
         || (Step(w, s).phase == ProcessCandidates && Step(w, s).rootIndex == s.rootIndex
             && RootPotential(w.limits, Step(w, s)) < RootPotential(w.limits, s))
  {
    hide AddDiagnostic, Record;
  }

  lemma {:induction false} AdvanceBounds(w: World, s: State)
    requires Usable(w) && Placed(w, s) && s.phase != Finished
    ensures Bounded(w, AdvanceRoot(w, s))
    ensures Potential(w, AdvanceRoot(w, s)) <= (|w.roots| - s.rootIndex - 1) * RootBound(w.limits)
  {
    var t := AdvanceRoot(w, s);
    if t.phase != Finished {
      Distribute(|w.roots| - s.rootIndex - 2, RootBound(w.limits));
    }
  }

  lemma {:induction false} Distribute(a: int, b: int)
    ensures a * b + b == (a + 1) * b
  {
  }

  lemma {:induction false} Product(a: nat, b: nat)
    ensures a * b >= 0
  {
  }

  lemma {:induction false} StartBounds(w: World, s: State)
    requires Usable(w) && Bounded(w, s) && s.phase == StartRoot
    ensures Bounded(w, Step(w, s)) && Potential(w, Step(w, s)) < Potential(w, s)
  {
    AdvanceBounds(w, s);
    Product(|w.roots| - s.rootIndex - 1, RootBound(w.limits));
    hide AddDiagnostic, AdvanceRoot;
    if w.roots[s.rootIndex].PresentRoot? {
      assert RootPotential(w.limits, Step(w, s)) < RootPotential(w.limits, s);
    }
  }

  lemma {:induction false} PotentialIsNatural(w: World, s: State)
    requires Usable(w) && Bounded(w, s)
    ensures Potential(w, s) >= 0
  {
    if s.phase != Finished {
      Product(|w.roots| - s.rootIndex - 1, RootBound(w.limits));
    }
  }

  lemma {:induction false} ScanPotential(w: World, s: State)
    requires Usable(w) && Bounded(w, s) && s.phase == ScanRoot
    ensures Bounded(w, Step(w, s)) && Potential(w, Step(w, s)) < Potential(w, s)
  {
    if s.active.Some? && s.cursor.None? && s.nameIndex < |s.names| {
      InspectBounds(w, s);
    } else if s.active.None? {
      ChooseBounds(w, s);
    } else if s.cursor.Some? {
      EnumerateBounds(w, s);
    } else {
      CloseBounds(w, s);
    }
    hide Step, Bounded, RootPotential, RootBound;
  }

  lemma {:induction false} ProcessPotential(w: World, s: State)
    requires Usable(w) && Bounded(w, s) && s.phase == ProcessCandidates
    ensures Bounded(w, Step(w, s)) && Potential(w, Step(w, s)) < Potential(w, s)
  {
    Product(|w.roots| - s.rootIndex - 1, RootBound(w.limits));
    if s.candidateIndex < |s.candidates| {
      ProcessBounds(w, s);
      hide Step, Bounded, RootBound;
      assert RootPotential(w.limits, s) > 0;
    } else {
      AdvanceBounds(w, s);
      assert RootPotential(w.limits, s) == 1;
      hide AdvanceRoot, RootBound;
    }
  }

  /** Every step keeps the limits and brings the end closer. */
  lemma {:induction false} StepKeepsBounds(w: World, s: State)
    requires Usable(w) && Bounded(w, s)
    ensures Placed(w, s)
    ensures Bounded(w, Step(w, s))
    ensures s.phase != Finished ==> 0 <= Potential(w, Step(w, s)) < Potential(w, s)
  {
    match s.phase {
      case StartRoot => StartBounds(w, s);
      case ScanRoot => ScanPotential(w, s);
      case ProcessCandidates => ProcessPotential(w, s);
      case Finished =>
    }
    PotentialIsNatural(w, Step(w, s));
  }

  /** The scanner after n steps. */
  function Iterate(w: World, s: State, n: nat): (r: State)
    requires Usable(w) && Bounded(w, s)
    ensures Bounded(w, r)
    decreases n
  {
    if n == 0 then s
    else
      StepKeepsBounds(w, s);
      Iterate(w, Step(w, s), n - 1)
  }

  lemma {:induction false} IterateAdds(w: World, s: State, n: nat, m: nat)
    requires Usable(w) && Bounded(w, s)
    ensures Iterate(w, Iterate(w, s, n), m) == Iterate(w, s, n + m)
    decreases n
  {
    hide Step, Bounded, Placed, Usable, Potential;
    if n > 0 {
      StepKeepsBounds(w, s);
      IterateAdds(w, Step(w, s), n - 1, m);
    }
  }

  lemma {:induction false} FinishedStays(w: World, s: State, n: nat)
    requires Usable(w) && Bounded(w, s) && s.phase == Finished
    ensures Iterate(w, s, n) == s
    decreases n
  {
    hide Bounded;
    if n > 0 {
      assert Step(w, s) == s;
      FinishedStays(w, s, n - 1);
    }
  }

  lemma {:induction false} IterateFinishes(w: World, s: State, n: nat)
    requires Usable(w) && Bounded(w, s) && Potential(w, s) <= n
    ensures Iterate(w, s, n).phase == Finished
    decreases n
  {
    hide Step, Bounded, RootPotential, RootBound, Placed;
    if s.phase == Finished {
      FinishedStays(w, s, n);
    } else {
      StepKeepsBounds(w, s);
      IterateFinishes(w, Step(w, s), n - 1);
    }
  }

  lemma {:induction false} InitialIsBounded(w: World)
    requires Usable(w)
    ensures Bounded(w, Initial(w))
    ensures Potential(w, Initial(w)) <= |w.roots| * RootBound(w.limits)
  {
    if w.roots != [] {
      Distribute(|w.roots| - 1, RootBound(w.limits));
    }
  }

  /** A scan of any file system ends within work computed from the limits and the number of roots. */
  lemma {:induction false} ScanTerminates(w: World)
    requires Usable(w)
    ensures Bounded(w, Initial(w))
    ensures Iterate(w, Initial(w), |w.roots| * RootBound(w.limits)).phase == Finished
  {
    InitialIsBounded(w);
    Product(|w.roots|, RootBound(w.limits));
    IterateFinishes(w, Initial(w), |w.roots| * RootBound(w.limits));
  }

  /** However much work was spent, a finished scan has one result. */
  lemma {:induction false} ResultIgnoresBudgets(w: World, s: State, n: nat, m: nat)
    requires Usable(w) && Bounded(w, s)
    requires Iterate(w, s, n).phase == Finished && Iterate(w, s, m).phase == Finished
    ensures Iterate(w, s, n) == Iterate(w, s, m)
  {
    hide *;
    if n <= m {
      IterateAdds(w, s, n, m - n);
      FinishedStays(w, Iterate(w, s, n), m - n);
    } else {
      IterateAdds(w, s, m, n - m);
      FinishedStays(w, Iterate(w, s, m), n - m);
    }
  }
}
