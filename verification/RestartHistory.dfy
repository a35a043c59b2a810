/**
 The recovery policy without its bookkeeping: it remembers every restart since the component was last healthy and
 counts those within the window. The policy that forgets old exits from the front decides exactly as this one does,
 in every chronological history, and its delays double from the initial one up to the maximum.
 */
module RestartHistory {
  import opened Foundation
  import opened RestartPolicy

  // ---------------------------------------------------------------- delays

  /** The delay after a number of restarts: it doubles each time until doubling would pass the maximum. */
  function Delay(b: Budget, restarts: nat): int {
    if restarts == 0 then b.initialBackoff
    else if 2 * Delay(b, restarts - 1) > b.maximumBackoff then b.maximumBackoff
    else 2 * Delay(b, restarts - 1)
  }

  lemma {:induction false} DelayIsPower(b: Budget, restarts: nat)
    requires ValidBudget(b)
    ensures Delay(b, restarts) == Min(b.initialBackoff * Power2(restarts), b.maximumBackoff)
    ensures b.initialBackoff * Power2(restarts) >= 0
  {
    if restarts > 0 {
      DelayIsPower(b, restarts - 1);
      Doubled(b.initialBackoff, Power2(restarts - 1));
    }
  }

  /** More restarts never shorten the delay, and it stays between the initial one and the maximum. */
  lemma {:induction false} DelayGrows(b: Budget, few: nat, many: nat)
    requires ValidBudget(b) && few <= many
    ensures b.initialBackoff <= Delay(b, few) <= Delay(b, many) <= b.maximumBackoff
    decreases many
  {
    if few < many {
      DelayGrows(b, few, many - 1);
    } else if few > 0 {
      DelayGrows(b, few - 1, few - 1);
      DelayGrows(b, 0, few - 1);
    }
  }

  // ---------------------------------------------------------------- the simple policy

  /** The restarts of each component since it was last healthy, and whether safe mode was offered and entered. */
  datatype Simple = Simple(settingsd: seq<int>, shell: seq<int>, active: bool, offered: bool)

  function Strikes(s: Simple, component: Component): seq<int> {
    match component case Settingsd => s.settingsd case Shell => s.shell
  }

  function WithStrikes(s: Simple, component: Component, strikes: seq<int>): Simple {
    match component case Settingsd => s.(settingsd := strikes) case Shell => s.(shell := strikes)
  }

  /** How many of some times are not before a start. */
  function Since(times: seq<int>, start: int): nat {
    if times == [] then 0 else Since(times[..|times| - 1], start) + if times[|times| - 1] >= start then 1 else 0
  }

  /** The strikes that an exit finds: none if the component had been up for its healthy interval. */
  function Held(b: Budget, strikes: seq<int>, e: Event): seq<int>
    requires e.Exit?
  {
    if e.observedAt - e.launchedAt >= b.healthyInterval then [] else strikes
  }

  function Judged(c: Config, s: Simple, e: Event): (Simple, Decision)
    requires e.Exit?
  {
    if e.reason == Clean then (s, Decision(StopClean, 0, 0))
    else if s.active then (s, Decision(StopFailed, 0, 0))
    else
      var b := BudgetOf(c, e.component);
      var held := Held(b, Strikes(s, e.component), e);
      var recent := Since(held, e.observedAt - b.rollingWindow);
      if recent < b.maximumRestarts then
        (WithStrikes(s, e.component, held + [e.observedAt]),
         Decision(RestartComponent, Delay(b, recent), recent + 1))
      else
        (WithStrikes(s, e.component, held).(offered := true),
         if s.offered then Decision(StopFailed, 0, 0) else Decision(EnterSafeMode, 0, 0))
  }

  function SimpleAfter(c: Config, s: Simple, e: Event): Simple {
    match e
    case ActivateSafeMode => if s.offered && !s.active then Simple([], [], true, true) else s
    case Exit(_, _, _, _) => Judged(c, s, e).0
  }

  function SimpleOf(c: Config, events: seq<Event>): Simple {
    if events == [] then Simple([], [], false, false)
    else SimpleAfter(c, SimpleOf(c, events[..|events| - 1]), events[|events| - 1])
  }

  // ---------------------------------------------------------------- forgetting changes no decision

  /** The end of a row of times. */
  predicate IsTail(tail: seq<int>, all: seq<int>) {
    |tail| <= |all| && forall i :: 0 <= i < |tail| ==> tail[i] == all[|all| - |tail| + i]
  }

  predicate NotAfter(times: seq<int>, time: int) {
    forall i :: 0 <= i < |times| ==> times[i] <= time
  }

  /** Everything but the tail lies before a start. */
  predicate RestIsOld(tail: seq<int>, all: seq<int>, start: int) {
    forall i :: 0 <= i < |all| - |tail| ==> all[i] < start
  }

  /** What was forgotten lies before every window that is still to come. */
  predicate Forgets(b: Budget, exits: seq<int>, strikes: seq<int>, lastExit: int) {
    && IsTail(exits, strikes) && Ascending(strikes) && NotAfter(strikes, lastExit)
    && RestIsOld(exits, strikes, lastExit - b.rollingWindow)
  }

  lemma {:induction false} NoneSince(times: seq<int>, start: int)
    requires forall i :: 0 <= i < |times| ==> times[i] < start
    ensures Since(times, start) == 0
  {
    if times != [] {
      NoneSince(times[..|times| - 1], start);
    }
  }

  /** A tail that holds everything from a start on, and nothing before it. */
  lemma {:induction false} TailCounts(held: seq<int>, counted: seq<int>, start: int)
    requires IsTail(counted, held) && RestIsOld(counted, held, start)
    requires forall i :: 0 <= i < |counted| ==> counted[i] >= start
    ensures Since(held, start) == |counted|
    decreases |held|
  {
    if counted == [] {
      NoneSince(held, start);
    } else {
      var last := |counted| - 1;
      assert counted[last] == held[|held| - 1];
      TailCounts(held[..|held| - 1], counted[..last], start);
    }
  }

  /** Popping old times from the front leaves a tail that holds exactly the times from the start on. */
  lemma {:induction false} DroppingLeavesTail(exits: seq<int>, start: int)
    requires Ascending(exits)
    ensures var kept := DropBefore(exits, start);
      && IsTail(kept, exits) && RestIsOld(kept, exits, start)
      && forall i :: 0 <= i < |kept| ==> kept[i] >= start
  {
    if exits != [] && exits[0] < start {
      var rest := exits[1..];
      DroppingLeavesTail(rest, start);
      var kept := DropBefore(rest, start);
      forall i | 0 <= i < |kept| ensures kept[i] == exits[|exits| - |kept| + i] {
        assert kept[i] == rest[|rest| - |kept| + i];
      }
      forall i | 0 <= i < |exits| - |kept| ensures exits[i] < start {
        assert i > 0 ==> exits[i] == rest[i - 1];
      }
    }
  }

  lemma {:induction false} TailOfTail(a: seq<int>, b: seq<int>, c: seq<int>, start: int)
    requires IsTail(a, b) && IsTail(b, c) && RestIsOld(a, b, start) && RestIsOld(b, c, start)
    ensures IsTail(a, c) && RestIsOld(a, c, start)
  {
    forall i | 0 <= i < |c| - |a| ensures c[i] < start {
      var first := |c| - |b|;
      assert i >= first ==> c[i] == b[i - first];
    }
  }

  lemma {:induction false} TailAscends(tail: seq<int>, all: seq<int>)
    requires IsTail(tail, all) && Ascending(all)
    ensures Ascending(tail)
  {
  }

  lemma {:induction false} OlderStillOld(tail: seq<int>, all: seq<int>, start: int, later: int)
    requires RestIsOld(tail, all, start) && start <= later
    ensures RestIsOld(tail, all, later)
  {
  }

  lemma {:induction false} PrunedForgets(b: Budget, left: seq<int>, held: seq<int>, lastExit: int, now: int)
    requires Forgets(b, left, held, lastExit) && lastExit <= now
    ensures var counted := DropBefore(left, now - b.rollingWindow);
      Forgets(b, counted, held, now) && |counted| == Since(held, now - b.rollingWindow)
  {
    var start := now - b.rollingWindow;
    TailAscends(left, held);
    DroppingLeavesTail(left, start);
    OlderStillOld(left, held, lastExit - b.rollingWindow, start);
    hide DropBefore, Since, IsTail, RestIsOld, Ascending;
    var counted := DropBefore(left, start);
    TailOfTail(counted, left, held, start);
    TailCounts(held, counted, start);
  }

  lemma {:induction false} HealthForgets(b: Budget, exits: seq<int>, strikes: seq<int>, lastExit: int, e: Event)
    requires Forgets(b, exits, strikes, lastExit) && e.Exit?
    ensures Forgets(b, if e.observedAt - e.launchedAt >= b.healthyInterval then [] else exits, Held(b, strikes, e),
              lastExit)
  {
  }

  /** Pruning to a later window counts the strikes within it. */
  lemma {:induction false} CountedAreRecent(b: Budget, exits: seq<int>, strikes: seq<int>, lastExit: int, e: Event)
    requires Forgets(b, exits, strikes, lastExit) && e.Exit? && lastExit <= e.observedAt
    ensures var held, counted := Held(b, strikes, e), Counted(b, exits, e.launchedAt, e.observedAt);
      && |counted| == Since(held, e.observedAt - b.rollingWindow)
      && Forgets(b, counted, held, e.observedAt)
  {
    hide Forgets, DropBefore, Since, Held;
    var left := if e.observedAt - e.launchedAt >= b.healthyInterval then [] else exits;
    HealthForgets(b, exits, strikes, lastExit, e);
    PrunedForgets(b, left, Held(b, strikes, e), lastExit, e.observedAt);
  }

  predicate Agree(c: Config, s: State, m: Simple, component: Component, lastExit: int) {
    && s.active == m.active && s.offered == m.offered && (s.active ==> s.offered)
    && (!s.active ==> Forgets(BudgetOf(c, component), ExitsOf(s, component), Strikes(m, component), lastExit))
  }

  lemma {:induction false} JudgedAlike(c: Config, s: State, m: Simple, lastExit: int, e: Event)
    requires ValidConfig(c) && e.Exit? && Agree(c, s, m, e.component, lastExit)
    requires lastExit <= e.launchedAt <= e.observedAt
    ensures var (t, r) := Observe(c, s, e.component, e.reason, e.launchedAt, e.observedAt);
      var (n, d) := Judged(c, m, e);
      r == Success(d) && Agree(c, t, n, e.component, e.observedAt)
  {
    if e.reason != Clean && !s.active {
      var b := BudgetOf(c, e.component);
      CountedAreRecent(b, ExitsOf(s, e.component), Strikes(m, e.component), lastExit, e);
      var counted := Counted(b, ExitsOf(s, e.component), e.launchedAt, e.observedAt);
      DelayIsPower(b, |counted|);
      StrikeIsKept(b, counted, Held(b, Strikes(m, e.component), e), e.observedAt);
    } else if !s.active {
      LaterForgets(BudgetOf(c, e.component), ExitsOf(s, e.component), Strikes(m, e.component), lastExit, e.observedAt);
    }
    hide Counted, Held, Power2, Delay, Since, Forgets;
  }

  lemma {:induction false} StrikeIsKept(b: Budget, counted: seq<int>, held: seq<int>, now: int)
    requires ValidBudget(b) && Forgets(b, counted, held, now)
    ensures Forgets(b, counted + [now], held + [now], now)
  {
  }

  lemma {:induction false} LaterForgets(b: Budget, exits: seq<int>, strikes: seq<int>, before: int, now: int)
    requires Forgets(b, exits, strikes, before) && before <= now
    ensures Forgets(b, exits, strikes, now)
  {
  }

  lemma {:induction false} OtherAgrees(c: Config, s: State, m: Simple, component: Component, lastExit: int, e: Event)
    requires Agree(c, s, m, component, lastExit) && e.Exit? && e.component != component
    requires Observe(c, s, e.component, e.reason, e.launchedAt, e.observedAt).1 == Success(Judged(c, m, e).1)
    ensures Agree(c, Observe(c, s, e.component, e.reason, e.launchedAt, e.observedAt).0, Judged(c, m, e).0,
              component, lastExit)
  {
    hide Counted, Held, Power2, Delay, Since;
  }

  lemma {:induction false} ActivationAgrees(c: Config, s: State, m: Simple, component: Component, lastExit: int)
    requires Agree(c, s, m, component, lastExit)
    ensures Agree(c, Activate(s).0, SimpleAfter(c, m, ActivateSafeMode), component, lastExit)
  {
  }

  lemma {:induction false} AfterIs(c: Config, t: Trace, e: Event)
    ensures After(c, t, e).state ==
      if e.Exit? then Observe(c, t.state, e.component, e.reason, e.launchedAt, e.observedAt).0 else Activate(t.state).0
  {
    hide Observe;
  }

  /** Before its first exit a component has no strikes, so any time serves as its last exit. */
  lemma {:induction false} HistoriesAgree(c: Config, events: seq<Event>, neverSettingsd: int, neverShell: int)
    requires ValidConfig(c) && Chronological(events)
    ensures var s, m := TraceOf(c, events).state, SimpleOf(c, events);
      && Agree(c, s, m, Settingsd, LastExit(events, Settingsd, neverSettingsd))
      && Agree(c, s, m, Shell, LastExit(events, Shell, neverShell))
    decreases |events|
  {
    hide Observe, Judged, After, ValidConfig, Forgets;
    if events == [] {
      NothingForgotten(c, neverSettingsd, neverShell);
    } else {
      var front, e := events[..|events| - 1], events[|events| - 1];
      var t, s, m := TraceOf(c, front), TraceOf(c, front).state, SimpleOf(c, front);
      AfterIs(c, t, e);
      if e.ActivateSafeMode? {
        HistoriesAgree(c, front, neverSettingsd, neverShell);
        ActivationAgrees(c, s, m, Settingsd, LastExit(front, Settingsd, neverSettingsd));
        ActivationAgrees(c, s, m, Shell, LastExit(front, Shell, neverShell));
      } else if e.component == Settingsd {
        HistoriesAgree(c, front, e.launchedAt, neverShell);
        JudgedAlike(c, s, m, LastExit(front, Settingsd, e.launchedAt), e);
        OtherAgrees(c, s, m, Shell, LastExit(front, Shell, neverShell), e);
      } else {
        HistoriesAgree(c, front, neverSettingsd, e.launchedAt);
        JudgedAlike(c, s, m, LastExit(front, Shell, e.launchedAt), e);
        OtherAgrees(c, s, m, Settingsd, LastExit(front, Settingsd, neverSettingsd), e);
      }
    }
  }

  lemma {:induction false} NothingForgotten(c: Config, neverSettingsd: int, neverShell: int)
    ensures Agree(c, FRESH, Simple([], [], false, false), Settingsd, neverSettingsd)
    ensures Agree(c, FRESH, Simple([], [], false, false), Shell, neverShell)
  {
  }

  /**
   After any chronological history the next exit of the same history gets the decision of the simple policy: a
   restart exactly while fewer than the maximum of restarts since the last healthy stretch lie in the window, with
   the delay that their number calls for; else safe mode once; else nothing. In safe mode every failure is final.
   */
  lemma {:induction false} DecisionIsTheSimpleOne(c: Config, events: seq<Event>, e: Event)
    requires ValidConfig(c) && e.Exit? && Chronological(events + [e])
    ensures Observe(c, TraceOf(c, events).state, e.component, e.reason, e.launchedAt, e.observedAt).1
         == Success(Judged(c, SimpleOf(c, events), e).1)
  {
    assert (events + [e])[..|events|] == events;
    HistoriesAgree(c, events, e.launchedAt, e.launchedAt);
    hide Observe, Judged, ValidConfig, Forgets;
    JudgedAlike(c, TraceOf(c, events).state, SimpleOf(c, events), LastExit(events, e.component, e.launchedAt), e);
  }
}
