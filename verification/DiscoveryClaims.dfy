/**
 Which file owns an identifier: the first candidate processed with it, in order of root and path.
 */
module DiscoveryClaims {
  import opened Foundation
  import opened Ordering
  import opened Discovery
  import opened DiscoveryCandidates

  // ---------------------------------------------------------------- first claims

  /** A candidate that was processed. */
  datatype Claim = Claim(rootIndex: nat, relative: string)

  function ClaimAfter(s: State, processed: seq<Claim>): seq<Claim> {
    if s.phase == ProcessCandidates && s.candidateIndex < |s.candidates| then
      processed + [Claim(s.rootIndex, s.candidates[s.candidateIndex])]
    else processed
  }

  function ClaimedIds(w: World, processed: seq<Claim>): set<string> {
    if processed == [] then {}
    else
      var id := w.deriveId(processed[|processed| - 1].relative);
      ClaimedIds(w, processed[..|processed| - 1]) + if id.Some? then {id.value} else {}
  }

  /** The entry that a candidate yields when it is the first to claim its identifier. */
  function EntryOf(w: World, c: Claim): Option<Entry> {
    if c.rootIndex >= |w.roots| || !w.roots[c.rootIndex].PresentRoot? then None
    else
      match w.roots[c.rootIndex].tree.contents(c.relative)
      case Parsed(entry, visible) =>
        if w.deriveId(c.relative).None? || !w.locatable(c.rootIndex, c.relative) then None
        else Some(Entry(w.deriveId(c.relative).value, entry, visible, c.rootIndex, c.relative))
      case _ => None
  }

  /** The entries of a row of candidates: each identifier belongs to its first claimant, even one that fails. */
  function FirstClaims(w: World, processed: seq<Claim>): seq<Entry> {
    if processed == [] then []
    else
      var front, last := processed[..|processed| - 1], processed[|processed| - 1];
      var id := w.deriveId(last.relative);
      if id.Some? && id.value !in ClaimedIds(w, front) && EntryOf(w, last).Some? then
        FirstClaims(w, front) + [EntryOf(w, last).value]
      else FirstClaims(w, front)
  }

  function VisibleIndices(entries: seq<Entry>): seq<nat> {
    if entries == [] then []
    else
      var front := VisibleIndices(entries[..|entries| - 1]);
      if entries[|entries| - 1].visible then front + [|entries| - 1] else front
  }

  /** The published entries are the first claims of what was processed, up to the entry limit. */
  predicate ClaimsMatch(w: World, s: State, processed: seq<Claim>) {
    && s.claimedIds == ClaimedIds(w, processed) && s.snapshot.claimed == |s.claimedIds|
    && |s.snapshot.entries| <= w.limits.entries
    && s.snapshot.visible == VisibleIndices(s.snapshot.entries)
    && (s.snapshot.entries == FirstClaims(w, processed)
        || (s.phase == Finished && processed != [] && |s.snapshot.entries| == w.limits.entries && s.snapshot.truncated
            && s.snapshot.entries == FirstClaims(w, processed[..|processed| - 1])))
  }

  lemma {:induction false} ClaimsAppend(w: World, processed: seq<Claim>, c: Claim)
    ensures var longer, id := processed + [c], w.deriveId(c.relative);
      && longer[..|longer| - 1] == processed
      && ClaimedIds(w, longer) == ClaimedIds(w, processed) + (if id.Some? then {id.value} else {})
      && FirstClaims(w, longer) == FirstClaims(w, processed)
           + if id.Some? && id.value !in ClaimedIds(w, processed) && EntryOf(w, c).Some? then [EntryOf(w, c).value]
             else []
  {
    var longer := processed + [c];
    assert longer[..|longer| - 1] == processed && longer[|longer| - 1] == c;
  }

  lemma {:induction false} VisibleAppend(entries: seq<Entry>, e: Entry)
    ensures VisibleIndices(entries + [e]) == if e.visible then VisibleIndices(entries) + [|entries|]
        else VisibleIndices(entries)
  {
    assert (entries + [e])[..|entries|] == entries;
  }

  /** The claim that is being recorded, made but not yet read. */
  predicate Claiming(w: World, s: State, c: Claim, processed: seq<Claim>) {
    && c.rootIndex == s.rootIndex < |w.roots| && w.roots[s.rootIndex].PresentRoot?
    && w.deriveId(c.relative).Some? && w.deriveId(c.relative).value !in ClaimedIds(w, processed)
    && |s.snapshot.entries| <= w.limits.entries && s.snapshot.entries == FirstClaims(w, processed)
    && s.snapshot.visible == VisibleIndices(s.snapshot.entries)
    && s.claimedIds == ClaimedIds(w, processed + [c]) && s.snapshot.claimed == |s.claimedIds|
  }

  lemma {:induction false} RecordingNothing(w: World, s: State, r: State, c: Claim, processed: seq<Claim>)
    requires Claiming(w, s, c, processed) && EntryOf(w, c).None? && SameClaims(r, s)
    ensures ClaimsMatch(w, r, processed + [c])
  {
    ClaimsAppend(w, processed, c);
    hide ClaimedIds, FirstClaims, VisibleIndices;
    assert FirstClaims(w, processed) + [] == FirstClaims(w, processed);
  }

  lemma {:induction false} RecordingEntry(w: World, s: State, r: State, c: Claim, processed: seq<Claim>)
    requires Claiming(w, s, c, processed) && EntryOf(w, c).Some? && |s.snapshot.entries| < w.limits.entries
    requires r.claimedIds == s.claimedIds && r.snapshot.claimed == s.snapshot.claimed
    requires var e, entries := EntryOf(w, c).value, s.snapshot.entries;
      && r.snapshot.entries == entries + [e]
      && r.snapshot.visible == if e.visible then s.snapshot.visible + [|entries|] else s.snapshot.visible
    ensures ClaimsMatch(w, r, processed + [c])
  {
    ClaimsAppend(w, processed, c);
    VisibleAppend(s.snapshot.entries, EntryOf(w, c).value);
    hide ClaimedIds, FirstClaims, VisibleIndices, EntryOf;
  }

  lemma {:induction false} RecordingFull(w: World, s: State, r: State, c: Claim, processed: seq<Claim>)
    requires Claiming(w, s, c, processed) && |s.snapshot.entries| == w.limits.entries
    requires SameClaims(r, s) && r.phase == Finished && r.snapshot.truncated
    ensures ClaimsMatch(w, r, processed + [c])
  {
    ClaimsAppend(w, processed, c);
    hide ClaimedIds, FirstClaims, VisibleIndices, EntryOf;
  }

  lemma {:induction false} RecordKeepsClaims(w: World, s: State, c: Claim, processed: seq<Claim>)
    requires Claiming(w, s, c, processed)
    ensures ClaimsMatch(w, Record(w, s, w.roots[s.rootIndex].tree, c.relative, w.deriveId(c.relative).value),
        processed + [c])
  {
    hide AddDiagnostic, ClaimedIds, FirstClaims, VisibleIndices, ClaimsMatch;
    var r := Record(w, s, w.roots[s.rootIndex].tree, c.relative, w.deriveId(c.relative).value);
    if w.roots[s.rootIndex].tree.contents(c.relative).Parsed? && |s.snapshot.entries| >= w.limits.entries {
      RecordingFull(w, s, r, c, processed);
    } else if EntryOf(w, c).None? {
      RecordingNothing(w, s, r, c, processed);
    } else {
      RecordingEntry(w, s, r, c, processed);
    }
  }

  lemma {:induction false} ProcessKeepsClaims(w: World, s: State, processed: seq<Claim>)
    requires Usable(w) && Bounded(w, s) && s.phase == ProcessCandidates && ClaimsMatch(w, s, processed)
    ensures ClaimsMatch(w, ProcessStep(w, w.roots[s.rootIndex].tree, s), ClaimAfter(s, processed))
  {
    hide AddDiagnostic, LimitsValid, Record, ClaimedIds, FirstClaims, VisibleIndices, EntryOf, AdvanceRoot;
    if s.candidateIndex < |s.candidates| {
      var c := Claim(s.rootIndex, s.candidates[s.candidateIndex]);
      var id := w.deriveId(c.relative);
      ClaimsAppend(w, processed, c);
      assert FirstClaims(w, processed) + [] == FirstClaims(w, processed);
      if id.Some? && id.value !in s.claimedIds {
        var ids := s.claimedIds + {id.value};
        var next := s.(candidateIndex := s.candidateIndex + 1, claimedIds := ids,
          snapshot := s.snapshot.(claimed := |ids|), dirty := true);
        RecordKeepsClaims(w, next, c, processed);
      } else {
        assert ClaimedIds(w, processed + [c]) == ClaimedIds(w, processed);
      }
    } else {
      AdvanceFinishes(w, s);
    }
  }

  lemma {:induction false} AdvanceFinishes(w: World, s: State)
    ensures SameClaims(AdvanceRoot(w, s), s)
  {
  }

  lemma {:induction false} StepKeepsClaims(w: World, s: State, processed: seq<Claim>)
    requires Usable(w) && Bounded(w, s) && ClaimsMatch(w, s, processed)
    ensures ClaimsMatch(w, Step(w, s), ClaimAfter(s, processed))
  {
    hide StartRootStep, ScanStep, ProcessStep, Usable, FirstClaims, ClaimedIds, VisibleIndices;
    if s.phase == ProcessCandidates {
      ProcessKeepsClaims(w, s, processed);
    }
  }

  // ---------------------------------------------------------------- what first claims are

  lemma {:induction false} ClaimedIdsAre(w: World, processed: seq<Claim>, id: string)
    ensures id in ClaimedIds(w, processed)
        <==> exists i :: 0 <= i < |processed| && w.deriveId(processed[i].relative) == Some(id)
  {
    if processed != [] {
      var front := processed[..|processed| - 1];
      ClaimedIdsAre(w, front, id);
      assert processed == front + [processed[|processed| - 1]];
      if i :| 0 <= i < |processed| && w.deriveId(processed[i].relative) == Some(id) {
        assert i < |front| ==> front[i] == processed[i];
      }
    }
  }

  /** The i-th candidate is the first to claim its identifier, and yields an entry. */
  ghost predicate FirstClaim(w: World, processed: seq<Claim>, i: nat) {
    && i < |processed| && EntryOf(w, processed[i]).Some?
    && (forall j :: 0 <= j < i ==> w.deriveId(processed[j].relative) != w.deriveId(processed[i].relative))
  }

  /**
   Identifiers of entries are distinct, and the entries are exactly what first claimants yield: a claimant
   that fails leaves its identifier without an entry for good.
   */
  lemma {:induction false} FirstClaimsAre(w: World, processed: seq<Claim>)
    ensures forall e :: e in FirstClaims(w, processed) <==> exists i: nat ::
      FirstClaim(w, processed, i) && EntryOf(w, processed[i]) == Some(e)
    ensures forall a, b ::
      0 <= a < b < |FirstClaims(w, processed)| ==> FirstClaims(w, processed)[a].id != FirstClaims(w, processed)[b].id
    ensures forall e :: e in FirstClaims(w, processed) ==> e.id in ClaimedIds(w, processed)
  {
    if processed != [] {
      var front, last := processed[..|processed| - 1], |processed| - 1;
      var before, all := FirstClaims(w, front), FirstClaims(w, processed);
      FirstClaimsAre(w, front);
      FirstClaimsGrow(w, processed);
      assert forall i :: 0 <= i < last ==> front[i] == processed[i];
      assert forall a :: 0 <= a < |before| ==> before[a] in before;
      hide FirstClaim, EntryOf;
      forall e
        ensures e in all <==> exists i: nat :: FirstClaim(w, processed, i) && EntryOf(w, processed[i]) == Some(e) {
        LaterClaim(w, processed, e);
      }
    }
  }

  lemma {:induction false} LaterClaim(w: World, processed: seq<Claim>, e: Entry)
    requires processed != []
    requires var front := processed[..|processed| - 1];
      e in FirstClaims(w, front) <==> exists i: nat :: FirstClaim(w, front, i) && EntryOf(w, front[i]) == Some(e)
    ensures e in FirstClaims(w, processed)
        <==> exists i: nat :: FirstClaim(w, processed, i) && EntryOf(w, processed[i]) == Some(e)
  {
    var front, last := processed[..|processed| - 1], |processed| - 1;
    FirstClaimsGrow(w, processed);
    assert forall i :: 0 <= i < last ==> front[i] == processed[i];
    if i: nat :| FirstClaim(w, processed, i) && EntryOf(w, processed[i]) == Some(e) {
      assert i < last ==> FirstClaim(w, front, i);
    }
    if i: nat :| FirstClaim(w, front, i) && EntryOf(w, front[i]) == Some(e) {
      assert FirstClaim(w, processed, i);
    }
  }

  lemma {:induction false} FirstClaimsGrow(w: World, processed: seq<Claim>)
    requires processed != []
    ensures var front, last := processed[..|processed| - 1], |processed| - 1;
      && (forall i :: 0 <= i < last ==> FirstClaim(w, processed, i) == FirstClaim(w, front, i))
      && (FirstClaim(w, processed, last) <==>
            EntryOf(w, processed[last]).Some? && w.deriveId(processed[last].relative).value !in ClaimedIds(w, front))
  {
    var front, last := processed[..|processed| - 1], |processed| - 1;
    forall i | 0 <= i < last ensures front[i] == processed[i] {
    }
    if EntryOf(w, processed[last]).Some? {
      ClaimedIdsAre(w, front, w.deriveId(processed[last].relative).value);
    }
  }

  // ---------------------------------------------------------------- precedence order

  predicate ClaimBefore(a: Claim, b: Claim) {
    a.rootIndex < b.rootIndex || (a.rootIndex == b.rootIndex && !LexLess(b.relative, a.relative))
  }

  /** Candidates are processed root by root, and in path order within a root. */
  predicate InPrecedenceOrder(s: State, processed: seq<Claim>) {
    && (forall i, j :: 0 <= i < j < |processed| ==> ClaimBefore(processed[i], processed[j]))
    && (s.phase == StartRoot || s.phase == ScanRoot ==> forall i :: 0 <= i < |processed| ==>
        processed[i].rootIndex < s.rootIndex)
    && (s.phase == ProcessCandidates ==>
          forall i :: 0 <= i < |processed| ==>
            processed[i].rootIndex <= s.rootIndex
            && (processed[i].rootIndex == s.rootIndex ==>
                  forall j :: s.candidateIndex <= j < |s.candidates| ==>
                    !LexLess(s.candidates[j], processed[i].relative)))
  }

  lemma {:induction false} ClaimKeepsOrder(s: State, r: State, processed: seq<Claim>)
    requires s.phase == ProcessCandidates && s.candidateIndex < |s.candidates| && Sorted(LexLess, s.candidates)
    requires InPrecedenceOrder(s, processed)
    requires r.phase == Finished
          || (r.phase == s.phase && r.rootIndex == s.rootIndex && r.candidates == s.candidates
              && r.candidateIndex == s.candidateIndex + 1)
    ensures InPrecedenceOrder(r, ClaimAfter(s, processed))
  {
    hide LexLess;
    var c := Claim(s.rootIndex, s.candidates[s.candidateIndex]);
    assert forall i :: 0 <= i < |processed| ==> ClaimBefore(processed[i], c);
  }

  lemma {:induction false} ProcessSteps(w: World, tree: Tree, s: State)
    requires s.phase == ProcessCandidates && s.candidateIndex < |s.candidates|
    ensures var r := ProcessStep(w, tree, s);
      r.phase == Finished
      || (r.phase == s.phase && r.rootIndex == s.rootIndex && r.candidates == s.candidates
          && r.candidateIndex == s.candidateIndex + 1)
  {
    hide AddDiagnostic, Record;
  }

  lemma {:induction false} StepKeepsOrder(w: World, s: State, scan: Scan, processed: seq<Claim>)
    requires Usable(w) && Bounded(w, s) && KeepsSmallest(w.limits, s, scan.offered) && InPrecedenceOrder(s, processed)
    ensures InPrecedenceOrder(Step(w, s), ClaimAfter(s, processed))
  {
    hide LexLess, Smallest, LimitsValid;
    if s.phase == ProcessCandidates && s.candidateIndex < |s.candidates| {
      LexIsStrictOrder();
      SmallestIsSorted(LexLess, scan.offered, w.limits.candidatesPerRoot);
      ProcessSteps(w, w.roots[s.rootIndex].tree, s);
      hide ProcessStep, InPrecedenceOrder, StrictOrder;
      ClaimKeepsOrder(s, Step(w, s), processed);
    } else if s.phase == ScanRoot {
      StepKeepsBounds(w, s);
      ScanStays(w, s);
      hide ScanStep;
    } else {
      hide AddDiagnostic;
    }
  }

  lemma {:induction false} ScanStays(w: World, s: State)
    requires Usable(w) && Bounded(w, s) && s.phase == ScanRoot
    ensures Step(w, s).rootIndex == s.rootIndex
    ensures Step(w, s).phase == ScanRoot || Step(w, s).phase == ProcessCandidates
  {
    hide Inspect, SmallestPending, Sort, MarkTruncated, RootPotential, LimitsValid;
    if Inspecting(s) {
      InspectBounds(w, s);
    }
  }
}
