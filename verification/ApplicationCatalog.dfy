/**
 The application catalog: eligibility decisions for the visible entries of one discovery snapshot, made in
 bounded pulls. Every catalog snapshot it publishes passes the checks with which a search starts.
 */
module ApplicationCatalog {
  import opened Foundation
  import Discovery
  import DiscoveryRuns

  const MAXIMUM_WORK_UNITS: nat := 4096

  datatype Reason =
    | EligibleWithoutTryExec | EligibleTryExec
    | ExcludedMissing | ExcludedNotRegularFile | ExcludedNotExecutable

  predicate IsEligible(r: Reason) {
    r == EligibleWithoutTryExec || r == EligibleTryExec
  }

  datatype Decision = Decision(entryIndex: nat, reason: Reason)

  datatype Snapshot = Snapshot(
    generation: nat, discovery: Discovery.Snapshot, decisions: seq<Decision>, eligible: seq<nat>,
    examined: nat, total: nat, complete: bool)

  /** The entries of eligible decisions, in order. */
  function EligibleIndices(decisions: seq<Decision>): seq<nat> {
    if decisions == [] then []
    else
      var last := decisions[|decisions| - 1];
      EligibleIndices(decisions[..|decisions| - 1]) + if IsEligible(last.reason) then [last.entryIndex] else []
  }

  /** The checks with which a search starts, apart from its own parameters. */
  ghost predicate SearchAccepts(c: Snapshot) {
    var d := c.discovery;
    && c.generation != 0
    && |d.entries| <= Discovery.MAXIMUM_ENTRIES && |d.visible| <= Discovery.MAXIMUM_ENTRIES
    && |d.diagnostics| <= Discovery.MAXIMUM_DIAGNOSTICS
    && |c.decisions| <= Discovery.MAXIMUM_ENTRIES && |c.eligible| <= Discovery.MAXIMUM_ENTRIES
    && c.total == |d.visible| && c.examined == |c.decisions| && c.examined <= c.total
    && (c.complete <==> d.complete && c.examined == c.total)
    && (forall i, j :: 0 <= i < j < |d.entries| ==> d.entries[i].id != d.entries[j].id)
    && (forall i :: 0 <= i < |d.visible| ==> d.visible[i] < |d.entries| && d.entries[d.visible[i]].visible)
    && (forall i, j :: 0 <= i < j < |d.visible| ==> d.visible[i] != d.visible[j])
    && (forall i :: 0 <= i < |c.decisions| ==> c.decisions[i].entryIndex == d.visible[i])
    && c.eligible == EligibleIndices(c.decisions)
  }

  lemma {:induction false} EligibleAreFewer(decisions: seq<Decision>)
    ensures |EligibleIndices(decisions)| <= |decisions|
  {
    if decisions != [] {
      EligibleAreFewer(decisions[..|decisions| - 1]);
    }
  }

  /** Each eligible entry is visible and appears once, so a search examines no application twice. */
  lemma {:induction false} EligibleAreDistinct(decisions: seq<Decision>)
    requires forall i, j :: 0 <= i < j < |decisions| ==> decisions[i].entryIndex != decisions[j].entryIndex
    ensures forall a, b ::
      0 <= a < b < |EligibleIndices(decisions)| ==> EligibleIndices(decisions)[a] != EligibleIndices(decisions)[b]
    ensures forall e :: e in EligibleIndices(decisions)
              <==> exists i :: 0 <= i < |decisions| && decisions[i].entryIndex == e
                     && (decisions[i].reason.EligibleWithoutTryExec? || decisions[i].reason.EligibleTryExec?)
  {
    if decisions != [] {
      var front, last := decisions[..|decisions| - 1], decisions[|decisions| - 1];
      EligibleAreDistinct(front);
      assert decisions == front + [last];
      var before := EligibleIndices(front);
      forall a | 0 <= a < |before| ensures before[a] != last.entryIndex {
        assert before[a] in before;
      }
      forall e
        ensures e in EligibleIndices(decisions)
            <==> exists i :: 0 <= i < |decisions| && decisions[i].entryIndex == e && IsEligible(decisions[i].reason) {
        if i :| 0 <= i < |decisions| && decisions[i].entryIndex == e && IsEligible(decisions[i].reason) {
          assert i < |front| ==> front[i] == decisions[i];
        }
        if i :| 0 <= i < |front| && front[i].entryIndex == e && IsEligible(front[i].reason) {
          assert decisions[i] == front[i];
        }
      }
    }
  }

  class Catalog {
    const discovery: Discovery.Snapshot
    const generation: nat
    /** What evaluating TryExec of an entry yields. */
    const evaluate: nat -> Result<Reason>
    var cursor: nat
    var decisions: seq<Decision>
    var eligible: seq<nat>
    var published: Option<Snapshot>
    var terminalError: Option<ErrorCode>
    var dirty: bool

    ghost predicate Valid()
      reads this
    {
      && generation != 0
      && (exists deriveId :: DiscoveryRuns.CatalogAccepts(deriveId, discovery))
      && cursor == |decisions| <= |discovery.visible|
      && (forall i :: 0 <= i < |decisions| ==>
            decisions[i].entryIndex == discovery.visible[i]
              && evaluate(discovery.visible[i]) == Success(decisions[i].reason))
      && eligible == EligibleIndices(decisions)
      && (!dirty && published.Some? ==> published.value == Current())
      && (published.Some? ==> SearchAccepts(published.value))
    }

    /** The snapshot that the current fields amount to. */
    ghost function Current(): Snapshot
      reads this
    {
      Snapshot(generation, discovery, decisions, eligible, cursor, |discovery.visible|,
               discovery.complete && cursor == |discovery.visible|)
    }

    constructor (discovery: Discovery.Snapshot, generation: nat, evaluate: nat -> Result<Reason>,
                 ghost deriveId: string -> Option<string>)
      requires generation != 0 && DiscoveryRuns.CatalogAccepts(deriveId, discovery)
      ensures Valid() && this.discovery == discovery && this.generation == generation && cursor == 0
      ensures terminalError == None && published == None
    {
      this.discovery, this.generation, this.evaluate := discovery, generation, evaluate;
      cursor, decisions, eligible, published, terminalError, dirty := 0, [], [], None, None, true;
    }

    lemma {:induction false} CurrentIsAccepted()
      requires Valid()
      ensures SearchAccepts(Current())
    {
      EligibleAreFewer(decisions);
    }

    method Publish() returns (snapshot: Snapshot)
      requires Valid()
      modifies `published, `dirty
      ensures Valid() && snapshot == Current() == old(Current()) && SearchAccepts(snapshot)
      ensures published == Some(snapshot)
    {
      CurrentIsAccepted();
      if dirty || published.None? {
        var complete := discovery.complete && cursor == |discovery.visible|;
        published := Some(Snapshot(generation, discovery, decisions, eligible, cursor, |discovery.visible|, complete));
        dirty := false;
      }
      snapshot := published.value;
    }

    method Terminate(error: ErrorCode)
      requires Valid()
      modifies `terminalError
      ensures Valid() && terminalError == Some(error)
    {
      terminalError := Some(error);
    }

    /** One entry is examined unless the token is cancelled before or after its evaluation. */
    method Examine(token: CancellationToken) returns (error: Option<ErrorCode>)
      requires Valid() && cursor < |discovery.visible| && token.Quiet()
      modifies token, `cursor, `decisions, `eligible, `dirty
      ensures Valid()
      ensures error == if !token.Quiet() then Some(Cancelled)
                       else match evaluate(discovery.visible[old(cursor)])
                             case Failure(e) => Some(e)
                             case Success(_) => None
      ensures cursor == old(cursor) + if error.None? then 1 else 0
      ensures error.Some? ==> decisions == old(decisions)
    {
      var requested := token.IsCancellationRequested();
      if requested {
        return Some(Cancelled);
      }
      var entryIndex := discovery.visible[cursor];
      var eligibility := evaluate(entryIndex);
      if eligibility.Failure? {
        return Some(eligibility.error);
      }
      requested := token.IsCancellationRequested();
      if requested {
        return Some(Cancelled);
      }
      var decision := Decision(entryIndex, eligibility.value);
      assert (decisions + [decision])[..|decisions|] == decisions;
      decisions := decisions + [decision];
      if IsEligible(eligibility.value) {
        eligible := eligible + [entryIndex];
      }
      cursor := cursor + 1;
      dirty := true;
      return None;
    }

    /**
     A pull examines entries in order until its budget is spent or all are examined. It fails exactly when the
     token is seen to be cancelled or an evaluation fails; that ends the operation for good, is answered again
     by every later pull, and publishes nothing.
     */
    method Pull(maximumWorkUnits: nat, token: CancellationToken) returns (r: Result<Snapshot>, workUnits: nat)
      requires Valid()
      modifies this, token
      ensures Valid()
      ensures maximumWorkUnits == 0 || maximumWorkUnits > MAXIMUM_WORK_UNITS ==>
                r == Failure(InvalidArgument) && terminalError == old(terminalError) && cursor == old(cursor)
      ensures old(terminalError).Some? && 0 < maximumWorkUnits <= MAXIMUM_WORK_UNITS ==>
                r == Failure(old(terminalError).value) && terminalError == old(terminalError)
                  && published == old(published)
      ensures r.Success? ==>
                && r.value == Current() && SearchAccepts(r.value) && terminalError == None
                && workUnits <= maximumWorkUnits && cursor == old(cursor) + workUnits
                && (workUnits < maximumWorkUnits ==> cursor == |discovery.visible|)
      ensures r.Failure? && 0 < maximumWorkUnits <= MAXIMUM_WORK_UNITS ==>
                terminalError == Some(r.error) && published == old(published)
      ensures 0 < maximumWorkUnits <= MAXIMUM_WORK_UNITS && old(terminalError).None? ==>
                && cursor == old(cursor) + workUnits <= |discovery.visible|
                && if !token.Quiet() then r == Failure(Cancelled)
                   else r.Failure? ==>
                     && workUnits < maximumWorkUnits && cursor < |discovery.visible|
                     && evaluate(discovery.visible[cursor]) == Failure(r.error)
    {
      workUnits := 0;
      if maximumWorkUnits == 0 || maximumWorkUnits > MAXIMUM_WORK_UNITS {
        return Failure(InvalidArgument), workUnits;
      }
      if terminalError.Some? {
        return Failure(terminalError.value), workUnits;
      }
      var requested := token.IsCancellationRequested();
      if requested {
        Terminate(Cancelled);
        return Failure(Cancelled), workUnits;
      }
      while workUnits < maximumWorkUnits && cursor < |discovery.visible|
        invariant Valid() && terminalError == None && published == old(published) && token.Quiet()
        invariant workUnits <= maximumWorkUnits && cursor == old(cursor) + workUnits <= |discovery.visible|
        decreases maximumWorkUnits - workUnits
      {
        var error := Examine(token);
        if error.Some? {
          Terminate(error.value);
          return Failure(error.value), workUnits;
        }
        workUnits := workUnits + 1;
      }
      requested := token.IsCancellationRequested();
      if requested {
        Terminate(Cancelled);
        return Failure(Cancelled), workUnits;
      }
      var snapshot := Publish();
      return Success(snapshot), workUnits;
    }
  }
}
