/**
 The bounded recovery policy of a session: restarts within a rolling window, doubling delays, and one
 final safe-mode launch.

 The restart bound of the documentation holds for a budget exactly when its healthy interval is at least its
 rolling window; both directions are proved, over all runs.
 */
module RestartPolicy {
  import opened Foundation

  datatype Component = Settingsd | Shell

  datatype ExitReason = Clean | Failed | Signal | ReadinessTimeout

  datatype Action = StopClean | RestartComponent | EnterSafeMode | StopFailed

  /** Times and durations in one unit. */
  datatype Budget = Budget(
    maximumRestarts: nat, rollingWindow: int, healthyInterval: int, initialBackoff: int, maximumBackoff: int)

  datatype Config = Config(settingsd: Budget, shell: Budget)

  datatype Decision = Decision(action: Action, backoff: int, ordinal: nat)

  predicate ValidBudget(b: Budget) {
    && b.maximumRestarts > 0 && b.rollingWindow > 0 && b.healthyInterval > 0
    && 0 <= b.initialBackoff <= b.maximumBackoff
  }

  predicate ValidConfig(c: Config) {
    ValidBudget(c.settingsd) && ValidBudget(c.shell)
  }

  function BudgetOf(c: Config, component: Component): Budget {
    match component case Settingsd => c.settingsd case Shell => c.shell
  }

  // ---------------------------------------------------------------- delays

  function Power2(n: nat): nat {
    if n == 0 then 1 else 2 * Power2(n - 1)
  }

  function Min(a: int, b: int): int { if a < b then a else b }

  /** The delay doubles with each restart up to the maximum; no step of the loop exceeds it. */
  method BackoffFor(b: Budget, ordinal: nat) returns (delay: int)
    requires ValidBudget(b) && ordinal > 0
    ensures delay == Min(b.initialBackoff * Power2(ordinal - 1), b.maximumBackoff)
  {
    delay := b.initialBackoff;
    var index := 1;
    while index < ordinal && delay < b.maximumBackoff
      invariant 1 <= index <= ordinal
      invariant 0 <= delay <= b.maximumBackoff && delay == b.initialBackoff * Power2(index - 1)
    {
      Doubling(b.initialBackoff, index, ordinal);
      if delay > b.maximumBackoff / 2 {
        return b.maximumBackoff;
      }
      delay := delay * 2;
      index := index + 1;
    }
    Doubling(b.initialBackoff, index, ordinal);
    delay := Min(delay, b.maximumBackoff);
  }

  lemma {:induction false} Doubling(initial: int, index: nat, ordinal: nat)
    requires 0 <= initial && 1 <= index <= ordinal
    ensures index < ordinal ==> initial * Power2(index) == 2 * (initial * Power2(index - 1))
    ensures index < ordinal ==> initial * Power2(index) <= initial * Power2(ordinal - 1)
    ensures initial * Power2(index - 1) <= initial * Power2(ordinal - 1)
    decreases ordinal - index
  {
    if index < ordinal {
      Doubled(initial, Power2(index - 1));
      Doubling(initial, index + 1, ordinal);
    }
  }

  lemma {:induction false} Doubled(a: int, b: int)
    ensures a * (2 * b) == 2 * (a * b)
    ensures a >= 0 && b >= 0 ==> a * b <= a * (2 * b)
  {
  }

  // ---------------------------------------------------------------- the history of exits

  /** Exits are forgotten from the front while they lie before the window. */
  function DropBefore(exits: seq<int>, start: int): seq<int> {
    if exits != [] && exits[0] < start then DropBefore(exits[1..], start) else exits
  }

  /** The exits within the window, wherever they stand. */
  function Within(exits: seq<int>, start: int): seq<int> {
    if exits == [] then []
    else (if exits[0] < start then [] else [exits[0]]) + Within(exits[1..], start)
  }

  predicate Ascending(times: seq<int>) {
    forall i, j :: 0 <= i < j < |times| ==> times[i] <= times[j]
  }

  /** On exits in order, pruning from the front is filtering the whole history. */
  lemma {:induction false} PruningFilters(exits: seq<int>, start: int)
    requires Ascending(exits)
    ensures DropBefore(exits, start) == Within(exits, start)
  {
    if exits != [] {
      PruningFilters(exits[1..], start);
      if exits[0] >= start {
        NothingDropped(exits, start);
      }
    }
  }

  lemma {:induction false} NothingDropped(exits: seq<int>, start: int)
    requires forall i :: 0 <= i < |exits| ==> exits[i] >= start
    ensures Within(exits, start) == exits
  {
    if exits != [] {
      NothingDropped(exits[1..], start);
    }
  }

  // ---------------------------------------------------------------- the policy, on values

  datatype State = State(settingsdExits: seq<int>, shellExits: seq<int>, active: bool, offered: bool)

  function ExitsOf(s: State, component: Component): seq<int> {
    match component case Settingsd => s.settingsdExits case Shell => s.shellExits
  }

  function WithExits(s: State, component: Component, exits: seq<int>): State {
    match component case Settingsd => s.(settingsdExits := exits) case Shell => s.(shellExits := exits)
  }

  /** The exits that still count when another is observed. */
  function Counted(b: Budget, exits: seq<int>, launchedAt: int, observedAt: int): seq<int> {
    DropBefore(if observedAt - launchedAt >= b.healthyInterval then [] else exits, observedAt - b.rollingWindow)
  }

  function Observe(c: Config, s: State, component: Component, reason: ExitReason, launchedAt: int, observedAt: int)
      : (State, Result<Decision>)
  {
    if observedAt < launchedAt then (s, Failure(InvalidArgument))
    else if reason == Clean then (s, Success(Decision(StopClean, 0, 0)))
    else if s.active then (s, Success(Decision(StopFailed, 0, 0)))
    else
      var b := BudgetOf(c, component);
      var counted := Counted(b, ExitsOf(s, component), launchedAt, observedAt);
      if |counted| < b.maximumRestarts then
        var exits := counted + [observedAt];
        (WithExits(s, component, exits),
         Success(Decision(RestartComponent, Min(b.initialBackoff * Power2(|exits| - 1), b.maximumBackoff), |exits|)))
      else
        var kept := WithExits(s, component, counted);
        if !s.offered then (kept.(offered := true), Success(Decision(EnterSafeMode, 0, 0)))
        else (kept, Success(Decision(StopFailed, 0, 0)))
  }

  function Activate(s: State): (State, Option<ErrorCode>) {
    if !s.offered || s.active then (s, Some(InvalidArgument)) else (State([], [], true, s.offered), None)
  }

  const FRESH := State([], [], false, false)

  // ---------------------------------------------------------------- the policy of the source

  class SessionRecoveryPolicy {
    const config: Config
    var settingsdExits: seq<int>
    var shellExits: seq<int>
    var safeModeActive: bool
    var safeModeOffered: bool

    ghost function Abstract(): State
      reads this
    {
      State(settingsdExits, shellExits, safeModeActive, safeModeOffered)
    }

    constructor (config: Config)
      requires ValidConfig(config)
      ensures this.config == config && Abstract() == FRESH
    {
      this.config := config;
      settingsdExits, shellExits, safeModeActive, safeModeOffered := [], [], false, false;
    }

    /** The exits left after the healthy reset and the loop that pops from the front. */
    method Prune(exits: seq<int>, launchedAt: int, observedAt: int, b: Budget) returns (counted: seq<int>)
      ensures counted == Counted(b, exits, launchedAt, observedAt)
    {
      counted := exits;
      if observedAt - launchedAt >= b.healthyInterval {
        counted := [];
      }
      var windowStart := observedAt - b.rollingWindow;
      ghost var all := counted;
      while counted != [] && counted[0] < windowStart
        invariant DropBefore(counted, windowStart) == DropBefore(all, windowStart)
        decreases |counted|
      {
        counted := counted[1..];
      }
    }

    method ObserveExit(component: Component, reason: ExitReason, launchedAt: int,
        observedAt: int) returns (r: Result<Decision>)
      requires ValidConfig(config)
      modifies this
      ensures (Abstract(), r) == Observe(config, old(Abstract()), component, reason, launchedAt, observedAt)
    {
      hide Counted, Power2;
      if observedAt < launchedAt {
        return Failure(InvalidArgument);
      }
      if reason == Clean {
        return Success(Decision(StopClean, 0, 0));
      }
      if safeModeActive {
        return Success(Decision(StopFailed, 0, 0));
      }
      var b := BudgetOf(config, component);
      var counted := Prune(if component == Settingsd then settingsdExits else shellExits, launchedAt, observedAt, b);
      if |counted| < b.maximumRestarts {
        SetExits(component, counted + [observedAt]);
        var ordinal := |counted| + 1;
        var backoff := BackoffFor(b, ordinal);
        return Success(Decision(RestartComponent, backoff, ordinal));
      }
      SetExits(component, counted);
      if !safeModeOffered {
        safeModeOffered := true;
        return Success(Decision(EnterSafeMode, 0, 0));
      }
      return Success(Decision(StopFailed, 0, 0));
    }

    method SetExits(component: Component, exits: seq<int>)
      modifies `settingsdExits, `shellExits
      ensures Abstract() == WithExits(old(Abstract()), component, exits)
    {
      if component == Settingsd {
        settingsdExits := exits;
      } else {
        shellExits := exits;
      }
    }

    method ActivateSafeMode() returns (error: Option<ErrorCode>)
      modifies this
      ensures (Abstract(), error) == Activate(old(Abstract()))
    {
      if !safeModeOffered || safeModeActive {
        return Some(InvalidArgument);
      }
      safeModeActive := true;
      settingsdExits, shellExits := [], [];
      return None;
    }
  }

  method CreatePolicy(config: Config) returns (policy: SessionRecoveryPolicy?, error: Option<ErrorCode>)
    ensures policy == null <==> error == Some(InvalidArgument)
    ensures policy != null <==> ValidConfig(config)
    ensures policy != null ==> fresh(policy) && policy.config == config && policy.Abstract() == FRESH
  {
    if !ValidBudget(config.settingsd) || !ValidBudget(config.shell) {
      return null, Some(InvalidArgument);
    }
    var created := new SessionRecoveryPolicy(config);
    return created, None;
  }

  // ---------------------------------------------------------------- runs

  datatype Event = Exit(component: Component, reason: ExitReason, launchedAt: int, observedAt: int) | ActivateSafeMode

  /** A policy with what it has decided: restart times by component, and safe-mode offers and activations. */
  datatype Trace = Trace(state: State, settingsdRestarts: seq<int>, shellRestarts: seq<int>, offers: nat,
      activations: nat)

  function RestartsOf(t: Trace, component: Component): seq<int> {
    match component case Settingsd => t.settingsdRestarts case Shell => t.shellRestarts
  }

  function After(c: Config, t: Trace, e: Event): Trace {
    match e
    case ActivateSafeMode =>
      var (s, error) := Activate(t.state);
      t.(state := s, activations := t.activations + if error.None? then 1 else 0)
    case Exit(component, reason, launchedAt, observedAt) =>
      var (s, r) := Observe(c, t.state, component, reason, launchedAt, observedAt);
      var restarted := r.Success? && r.value.action == RestartComponent;
      Trace(
        s,
        if restarted && component == Settingsd then t.settingsdRestarts + [observedAt] else t.settingsdRestarts,
        if restarted && component == Shell then t.shellRestarts + [observedAt] else t.shellRestarts,
        t.offers + (if r.Success? && r.value.action == EnterSafeMode then 1 else 0),
        t.activations)
  }

  function TraceOf(c: Config, events: seq<Event>): Trace {
    if events == [] then Trace(FRESH, [], [], 0, 0)
    else After(c, TraceOf(c, events[..|events| - 1]), events[|events| - 1])
  }

  /** When a component was last seen to exit; `never` when it was not. */
  function LastExit(events: seq<Event>, component: Component, never: int): int {
    if events == [] then never
    else
      var last := events[|events| - 1];
      if last.Exit? && last.component == component then last.observedAt
      else LastExit(events[..|events| - 1], component, never)
  }

  function LastTime(events: seq<Event>, never: int): int {
    if events == [] then never
    else
      var last := events[|events| - 1];
      if last.Exit? then last.observedAt else LastTime(events[..|events| - 1], never)
  }

  /** One monotonic clock, and launches no earlier than the previous exit of the same component. */
  predicate Chronological(events: seq<Event>) {
    events == []
    || (var front, last := events[..|events| - 1], events[|events| - 1];
        && Chronological(front)
        && (last.Exit? ==>
              && LastExit(front, last.component, last.launchedAt) <= last.launchedAt <= last.observedAt
              && LastTime(front, last.observedAt) <= last.observedAt))
  }

  /** More than the maximum of restarts never fall into one window. */
  predicate Spaced(b: Budget, restarts: seq<int>) {
    forall i :: 0 <= i && i + b.maximumRestarts < |restarts| ==>
      restarts[i + b.maximumRestarts] - restarts[i] >= b.rollingWindow
  }

  ghost predicate WindowHolds(c: Config, component: Component) {
    forall events :: Chronological(events) ==> Spaced(BudgetOf(c, component), RestartsOf(TraceOf(c, events), component))
  }

  // ---------------------------------------------------------------- the window bound

  /**
   The exits that count are the latest restarts; every earlier restart lies a window or more before the
   latest time. Once safe mode is active nothing is restarted any more.
   */
  predicate Tracks(b: Budget, exits: seq<int>, restarts: seq<int>, lastExit: int, active: bool) {
    && Ascending(restarts) && Spaced(b, restarts)
    && (forall i :: 0 <= i < |restarts| ==> restarts[i] <= lastExit)
    && (!active ==>
          && |exits| <= |restarts| && exits == restarts[|restarts| - |exits|..]
          && (forall i :: 0 <= i < |restarts| - |exits| ==> lastExit - restarts[i] >= b.rollingWindow))
  }

  /** Pruning keeps a tail. */
  lemma {:induction false} DropBeforeIsTail(exits: seq<int>, start: int)
    ensures var kept := DropBefore(exits, start);
      && |kept| <= |exits| && kept == exits[|exits| - |kept|..]
      && (forall i :: 0 <= i < |exits| - |kept| ==> exits[i] < start)
  {
    if exits != [] && exits[0] < start {
      DropBeforeIsTail(exits[1..], start);
      var kept := DropBefore(exits[1..], start);
      assert exits[1..][|exits| - 1 - |kept|..] == exits[|exits| - |kept|..];
      forall i | 0 <= i < |exits| - |kept| ensures exits[i] < start {
        assert i > 0 ==> exits[i] == exits[1..][i - 1];
      }
    }
  }

  lemma {:induction false} CountedTracks(b: Budget, exits: seq<int>, restarts: seq<int>, lastExit: int,
      launchedAt: int, observedAt: int)
    requires ValidBudget(b) && b.healthyInterval >= b.rollingWindow
    requires Tracks(b, exits, restarts, lastExit, false) && lastExit <= launchedAt <= observedAt
    ensures Tracks(b, Counted(b, exits, launchedAt, observedAt), restarts, observedAt, false)
  {
    var healthy := observedAt - launchedAt >= b.healthyInterval;
    var left := if healthy then [] else exits;
    DropBeforeIsTail(left, observedAt - b.rollingWindow);
    var counted := DropBefore(left, observedAt - b.rollingWindow);
    forall i | 0 <= i < |restarts| - |counted| ensures observedAt - restarts[i] >= b.rollingWindow {
      var first := |restarts| - |exits|;
      assert i >= first ==> restarts[i] == exits[i - first];
    }
  }

  lemma {:induction false} GrantTracks(b: Budget, counted: seq<int>, restarts: seq<int>, observedAt: int)
    requires ValidBudget(b) && Tracks(b, counted, restarts, observedAt, false) && |counted| < b.maximumRestarts
    ensures Tracks(b, counted + [observedAt], restarts + [observedAt], observedAt, false)
  {
    var more := restarts + [observedAt];
    forall i | 0 <= i && i + b.maximumRestarts < |more|
      ensures more[i + b.maximumRestarts] - more[i] >= b.rollingWindow {
      assert i + b.maximumRestarts == |restarts| ==> i < |restarts| - |counted|;
    }
  }

  lemma {:induction false} LaterTracks(b: Budget, exits: seq<int>, restarts: seq<int>, before: int, now: int,
      active: bool)
    requires Tracks(b, exits, restarts, before, active) && before <= now
    ensures Tracks(b, exits, restarts, now, active)
  {
  }

  predicate TracksAll(c: Config, t: Trace, component: Component, lastExit: int) {
    Tracks(BudgetOf(c, component), ExitsOf(t.state, component), RestartsOf(t, component), lastExit, t.state.active)
  }

  lemma {:induction false} ExitTracks(c: Config, t: Trace, e: Event, component: Component, lastExit: int)
    requires ValidConfig(c) && BudgetOf(c, component).healthyInterval >= BudgetOf(c, component).rollingWindow
    requires TracksAll(c, t, component, lastExit) && e.Exit? && e.component == component
    requires lastExit <= e.launchedAt <= e.observedAt
    ensures TracksAll(c, After(c, t, e), component, e.observedAt)
  {
    var b := BudgetOf(c, component);
    LaterTracks(b, ExitsOf(t.state, component), RestartsOf(t, component), lastExit, e.observedAt, t.state.active);
    if e.reason != Clean && !t.state.active {
      CountedTracks(b, ExitsOf(t.state, component), RestartsOf(t, component), lastExit, e.launchedAt, e.observedAt);
      var counted := Counted(b, ExitsOf(t.state, component), e.launchedAt, e.observedAt);
      if |counted| < b.maximumRestarts {
        GrantTracks(b, counted, RestartsOf(t, component), e.observedAt);
      }
    }
    hide Tracks, Counted, ValidConfig, Power2;
  }

  lemma {:induction false} OtherTracks(c: Config, t: Trace, e: Event, component: Component, lastExit: int)
    requires TracksAll(c, t, component, lastExit) && !(e.Exit? && e.component == component)
    ensures TracksAll(c, After(c, t, e), component, lastExit)
  {
    hide Counted, Power2, Ascending, Spaced;
  }

  /** Before its first exit a component has no restarts, so any time serves as its last exit. */
  lemma {:induction false} RunTracks(c: Config, events: seq<Event>, component: Component, never: int)
    requires ValidConfig(c) && BudgetOf(c, component).healthyInterval >= BudgetOf(c, component).rollingWindow
    requires Chronological(events)
    ensures TracksAll(c, TraceOf(c, events), component, LastExit(events, component, never))
    decreases |events|
  {
    hide TracksAll, After, ValidConfig;
    if events == [] {
      NothingTracks(c, component, never);
    } else {
      var front, last := events[..|events| - 1], events[|events| - 1];
      if last.Exit? && last.component == component {
        RunTracks(c, front, component, last.launchedAt);
        ExitTracks(c, TraceOf(c, front), last, component, LastExit(front, component, last.launchedAt));
      } else {
        RunTracks(c, front, component, never);
        OtherTracks(c, TraceOf(c, front), last, component, LastExit(front, component, never));
      }
    }
  }

  lemma {:induction false} NothingTracks(c: Config, component: Component, never: int)
    ensures TracksAll(c, Trace(FRESH, [], [], 0, 0), component, never)
  {
  }

  // ---------------------------------------------------------------- and exactly when it fails

  /** A component that exits over and over at time zero, and once more after the healthy interval. */
  function Storm(component: Component, n: nat): seq<Event> {
    if n == 0 then [] else Storm(component, n - 1) + [Exit(component, Failed, 0, 0)]
  }

  function Zeros(n: nat): (r: seq<int>)
    ensures |r| == n && forall i :: 0 <= i < n ==> r[i] == 0
  {
    seq(n, _ => 0)
  }

  lemma {:induction false} StormIsChronological(component: Component, n: nat, later: nat)
    ensures var events := Storm(component, n);
      Chronological(events) && |events| == n && LastExit(events, component, 0) == 0 && LastTime(events, later) <= later
  {
    if n > 0 {
      StormIsChronological(component, n - 1, 0);
      assert Storm(component, n)[..n - 1] == Storm(component, n - 1);
    }
  }

  lemma {:induction false} ExitAtZeroRestarts(c: Config, t: Trace, component: Component)
    requires ValidConfig(c) && !t.state.active && |ExitsOf(t.state, component)| < BudgetOf(c, component).maximumRestarts
    requires forall i :: 0 <= i < |ExitsOf(t.state, component)| ==> ExitsOf(t.state, component)[i] == 0
    ensures var u := After(c, t, Exit(component, Failed, 0, 0));
      && !u.state.active && ExitsOf(u.state, component) == ExitsOf(t.state, component) + [0]
      && RestartsOf(u, component) == RestartsOf(t, component) + [0]
  {
    var b, exits := BudgetOf(c, component), ExitsOf(t.state, component);
    assert Counted(b, exits, 0, 0) == exits;
    hide Counted, Power2;
  }

  lemma {:induction false} StormRestarts(c: Config, component: Component, n: nat)
    requires ValidConfig(c) && n <= BudgetOf(c, component).maximumRestarts
    ensures var t := TraceOf(c, Storm(component, n));
      !t.state.active && ExitsOf(t.state, component) == RestartsOf(t, component) == Zeros(n)
  {
    if n > 0 {
      StormRestarts(c, component, n - 1);
      ExitAtZeroRestarts(c, TraceOf(c, Storm(component, n - 1)), component);
      var e := Exit(component, Failed, 0, 0);
      assert Storm(component, n) == Storm(component, n - 1) + [e];
      AfterMore(c, Storm(component, n - 1), e);
      assert Zeros(n - 1) + [0] == Zeros(n);
      hide After, TraceOf, Storm, Zeros;
    }
  }

  lemma {:induction false} AfterMore(c: Config, events: seq<Event>, e: Event)
    ensures TraceOf(c, events + [e]) == After(c, TraceOf(c, events), e)
  {
    assert (events + [e])[..|events|] == events;
  }

  /** A component that was up for its healthy interval starts with an empty history. */
  lemma {:induction false} HealthyExitRestarts(c: Config, t: Trace, component: Component)
    requires ValidConfig(c) && !t.state.active
    ensures var h := BudgetOf(c, component).healthyInterval;
      RestartsOf(After(c, t, Exit(component, Failed, 0, h)), component) == RestartsOf(t, component) + [h]
  {
    var b := BudgetOf(c, component);
    assert Counted(b, ExitsOf(t.state, component), 0, b.healthyInterval) == [];
  }

  lemma {:induction false} ShortHealthBreaksWindow(c: Config, component: Component)
    requires ValidConfig(c) && BudgetOf(c, component).healthyInterval < BudgetOf(c, component).rollingWindow
    ensures !WindowHolds(c, component)
  {
    var b := BudgetOf(c, component);
    var n, h := b.maximumRestarts, b.healthyInterval;
    var front, e := Storm(component, n), Exit(component, Failed, 0, h);
    var events := front + [e];
    StormIsChronological(component, n, h);
    StormRestarts(c, component, n);
    AfterMore(c, front, e);
    HealthyExitRestarts(c, TraceOf(c, front), component);
    assert events[..|events| - 1] == front;
    hide After, TraceOf, Storm, Zeros;
    assert Chronological(events);
    var restarts := RestartsOf(TraceOf(c, events), component);
    assert restarts == Zeros(n) + [h] && restarts[0 + n] - restarts[0] == h;
    assert !Spaced(b, restarts);
  }

  /**
   At most the maximum of restarts fall into any window, for every chronological run, exactly when the
   healthy interval is at least the rolling window.
   */
  lemma {:induction false} WindowHoldsExactly(c: Config, component: Component)
    requires ValidConfig(c)
    ensures WindowHolds(c, component)
        <==> BudgetOf(c, component).healthyInterval >= BudgetOf(c, component).rollingWindow
  {
    if BudgetOf(c, component).healthyInterval >= BudgetOf(c, component).rollingWindow {
      forall events | Chronological(events)
        ensures Spaced(BudgetOf(c, component), RestartsOf(TraceOf(c, events), component)) {
        RunTracks(c, events, component, 0);
      }
    } else {
      ShortHealthBreaksWindow(c, component);
    }
  }

  // ---------------------------------------------------------------- when the launch time matters

  /**
   Taking a later time for the launch time changes the decision exactly when it hides a healthy stretch while
   earlier exits still lie in the window.
   */
  lemma {:induction false} LaunchTimeMattersExactly(
      c: Config, s: State, component: Component, reason: ExitReason, launchedAt: int, later: int, observedAt: int)
    requires ValidConfig(c) && launchedAt <= later <= observedAt
    ensures var b := BudgetOf(c, component);
      Observe(c, s, component, reason, later, observedAt).1
      != Observe(c, s, component, reason, launchedAt, observedAt).1
      <==> && reason != Clean && !s.active
           && observedAt - launchedAt >= b.healthyInterval && observedAt - later < b.healthyInterval
           && DropBefore(ExitsOf(s, component), observedAt - b.rollingWindow) != []
  {
    hide Power2;
    var b := BudgetOf(c, component);
    assert Counted(b, ExitsOf(s, component), launchedAt, observedAt) ==
      if observedAt - launchedAt >= b.healthyInterval then []
      else DropBefore(ExitsOf(s, component), observedAt - b.rollingWindow);
    assert Counted(b, ExitsOf(s, component), later, observedAt) ==
      if observedAt - later >= b.healthyInterval then []
      else DropBefore(ExitsOf(s, component), observedAt - b.rollingWindow);
    hide Counted, DropBefore;
  }

  // ---------------------------------------------------------------- histories that an owner builds

  /** All exits, or those of one component, were observed by then. */
  predicate SeenBy(events: seq<Event>, time: int) {
    forall i :: 0 <= i < |events| && events[i].Exit? ==> events[i].observedAt <= time
  }

  predicate SeenOf(events: seq<Event>, component: Component, time: int) {
    forall i :: 0 <= i < |events| && events[i].Exit? && events[i].component == component ==>
      events[i].observedAt <= time
  }

  lemma {:induction false} LastIsSeen(events: seq<Event>, component: Component, since: int, time: int)
    ensures SeenBy(events, time) ==> LastTime(events, time) <= time
    ensures SeenOf(events, component, since) ==> LastExit(events, component, since) <= since
  {
    if events != [] {
      var front := events[..|events| - 1];
      assert forall i :: 0 <= i < |front| ==> front[i] == events[i];
      LastIsSeen(front, component, since, time);
    }
  }

  /**
   An exit of a component launched after its last exit, observed after everything else, extends a
   chronological history.
   */
  lemma {:induction false} ExitExtends(events: seq<Event>, e: Event)
    requires Chronological(events) && e.Exit? && SeenBy(events, e.observedAt)
    requires SeenOf(events, e.component, e.launchedAt) && e.launchedAt <= e.observedAt
    ensures Chronological(events + [e]) && SeenBy(events + [e], e.observedAt)
  {
    LastIsSeen(events, e.component, e.launchedAt, e.observedAt);
    assert (events + [e])[..|events|] == events;
    hide LastExit, LastTime;
  }

  /**
   In every chronological history the restarts of a component are spaced, if its healthy interval covers the
   window.
   */
  lemma {:induction false} ChronologicalIsSpaced(c: Config, events: seq<Event>, component: Component)
    requires ValidConfig(c) && Chronological(events)
    ensures BudgetOf(c, component).healthyInterval >= BudgetOf(c, component).rollingWindow ==>
      Spaced(BudgetOf(c, component), RestartsOf(TraceOf(c, events), component))
  {
    if BudgetOf(c, component).healthyInterval >= BudgetOf(c, component).rollingWindow {
      RunTracks(c, events, component, 0);
    }
  }

  // ---------------------------------------------------------------- safe mode

  /** Safe mode is offered at most once and activated at most once, only after the offer. */
  lemma {:induction false} SafeModeOnce(c: Config, events: seq<Event>)
    ensures var t := TraceOf(c, events);
      && t.offers == (if t.state.offered then 1 else 0)
      && t.activations == (if t.state.active then 1 else 0)
      && (t.state.active ==> t.state.offered && t.state.settingsdExits == [] && t.state.shellExits == [])
  {
    if events != [] {
      SafeModeOnce(c, events[..|events| - 1]);
      hide Counted, Power2;
    }
  }

  /** While safe mode is active every further failure is final. */
  lemma {:induction false} SafeModeIsFinal(c: Config, s: State, component: Component, reason: ExitReason,
      launchedAt: int, observedAt: int)
    requires s.active && launchedAt <= observedAt
    ensures Observe(c, s, component, reason, launchedAt, observedAt)
         == (s, Success(Decision(if reason == Clean then StopClean else StopFailed, 0, 0)))
  {
  }
}
