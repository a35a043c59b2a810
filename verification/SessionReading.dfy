/**
 What a log of a session says event by event when nothing was left undone in it: what every exit that a poll saw is
 followed by, which children every round of the monitor looks at, when a component may be launched again, killed or
 announced, and that an error ends the session.
 */
module SessionReading {
  import opened Foundation
  import opened RestartPolicy
  import opened SessionLog

  /** A log in which nothing was left undone. */
  predicate Watchful(log: seq<LogEvent>) {
    WatchOf(log).ok
  }

  /** The component whose stop is under way after a row of events. */
  function Open(log: seq<LogEvent>): Option<Component> {
    if log == [] then None
    else
      match log[|log| - 1]
      case StopBegins(component) => Some(component)
      case StopEnds(_, _) => None
      case _ => Open(log[..|log| - 1])
  }

  lemma {:induction false} OkBefore(w: Watch, e: LogEvent, settingsdUp: bool, shellUp: bool)
    requires WatchAfter(w, e, settingsdUp, shellUp).ok
    ensures w.ok
  {
  }

  lemma {:induction false} WatchOfFront(log: seq<LogEvent>)
    requires log != []
    ensures var front, last := log[..|log| - 1], log[|log| - 1];
      && WatchOf(log) == WatchAfter(WatchOf(front), last, FateOf(front, Settingsd) == Up, FateOf(front, Shell) == Up)
      && (Watchful(log) ==> Watchful(front))
  {
    hide WatchAfter, FateOf;
    var front := log[..|log| - 1];
    if Watchful(log) {
      OkBefore(WatchOf(front), log[|log| - 1], FateOf(front, Settingsd) == Up, FateOf(front, Shell) == Up);
    }
  }

  /** A log in which nothing was left undone is watchful throughout. */
  lemma {:induction false} WatchfulBefore(log: seq<LogEvent>, n: nat)
    requires Watchful(log) && n <= |log|
    ensures Watchful(log[..n])
    decreases |log|
  {
    hide WatchOf, FateOf;
    if n == |log| {
      assert log[..n] == log;
    } else {
      WatchOfFront(log);
      WatchfulBefore(log[..|log| - 1], n);
      assert log[..|log| - 1][..n] == log[..n];
    }
  }

  /** One event of a watchful log: it was allowed, and this is what it leaves. */
  lemma {:induction false} StepAt(log: seq<LogEvent>, k: nat)
    requires Watchful(log) && k < |log|
    ensures Watchful(log[..k]) && Watchful(log[..k + 1])
    ensures WatchOf(log[..k + 1])
         == WatchAfter(WatchOf(log[..k]), log[k], FateOf(log[..k], Settingsd) == Up, FateOf(log[..k], Shell) == Up)
  {
    hide WatchAfter, FateOf;
    WatchfulBefore(log, k);
    WatchfulBefore(log, k + 1);
    WatchOfFront(log[..k + 1]);
    assert log[..k + 1][..k] == log[..k];
  }

  lemma {:induction false} AtFirst(log: seq<LogEvent>)
    ensures WatchOf(log[..0]) == START && Open(log[..0]) == None
  {
  }

  lemma {:induction false} OpenAt(log: seq<LogEvent>, k: nat)
    requires k < |log|
    ensures Open(log[..k + 1])
         == match log[k]
            case StopBegins(component) => Some(component)
            case StopEnds(_, _) => None
            case _ => Open(log[..k])
  {
    assert log[..k + 1][..k] == log[..k];
  }

  /** The watch knows which stop is under way. */
  lemma {:induction false} StopIsOpen(log: seq<LogEvent>, n: nat)
    requires Watchful(log) && n <= |log|
    ensures Open(log[..n]) == match WatchOf(log[..n]).stop case NoStop => None case Stopping(c, _, _, _) => Some(c)
    ensures Open(log[..n]).Some? ==> WatchOf(log[..n]).owed.None?
    decreases n
  {
    hide WatchOf, FateOf, Open;
    if n > 0 {
      StepAt(log, n - 1);
      OpenAt(log, n - 1);
      StopIsOpen(log, n - 1);
    } else {
      AtFirst(log);
    }
  }

  // ---------------------------------------------------------------- exits are told

  /** The event at that index is news for the policy: a poll outside of a stop saw an exit, or a launch failed. */
  predicate News(log: seq<LogEvent>, i: nat, component: Component, reason: ExitReason)
    requires i < |log|
  {
    match log[i]
    case PollCall(c, Exited(seen)) => Open(log[..i]) == None && c == component && seen == reason
    case LaunchCall(c, _, _, ok, _) => !ok && c == component && reason == Failed
    case _ => false
  }

  predicate Tells(e: LogEvent, component: Component, reason: ExitReason) {
    e.PolicyTold? && e.exit.Exit? && e.exit.component == component && e.exit.reason == reason
  }

  /** What is owed is the last event's news. */
  lemma {:induction false} OwedIsNews(log: seq<LogEvent>, n: nat)
    requires Watchful(log) && n <= |log|
    ensures WatchOf(log[..n]).owed.Some? ==>
      n > 0 && News(log, n - 1, WatchOf(log[..n]).owed.value.0, WatchOf(log[..n]).owed.value.1)
    ensures n > 0 && Open(log[..n]).None? ==>
      forall c, reason :: News(log, n - 1, c, reason) ==> WatchOf(log[..n]).owed == Some((c, reason))
    ensures WatchOf(log[..n]).stopped.Some? ==> n > 0 && log[n - 1] == StopEnds(WatchOf(log[..n]).stopped.value, true)
  {
    hide WatchOf, FateOf, Open;
    if n > 0 {
      StepAt(log, n - 1);
      OpenAt(log, n - 1);
      StopIsOpen(log, n - 1);
      StopIsOpen(log, n);
    } else {
      AtFirst(log);
    }
  }

  /** The event after an exit or a failed launch tells the policy of this component and reason. */
  lemma {:induction false} NewsIsToldNext(log: seq<LogEvent>, i: nat, component: Component, reason: ExitReason)
    requires Watchful(log) && i < |log| && News(log, i, component, reason)
    ensures i + 1 < |log| ==> Tells(log[i + 1], component, reason)
    ensures i + 1 == |log| ==> WatchOf(log).owed == Some((component, reason))
  {
    hide WatchOf, FateOf, Open;
    StepAt(log, i);
    OpenAt(log, i);
    StopIsOpen(log, i);
    StopIsOpen(log, i + 1);
    OwedIsNews(log, i + 1);
    if i + 1 < |log| {
      StepAt(log, i + 1);
    } else {
      assert log[..i + 1] == log;
    }
  }

  /** The policy is told of nothing else, but for components that were stopped because they did not become ready. */
  lemma {:induction false} OnlyNewsIsTold(log: seq<LogEvent>, k: nat)
    requires Watchful(log) && k < |log| && log[k].PolicyTold?
    ensures var e := log[k].exit;
      && k > 0 && e.Exit?
      && (News(log, k - 1, e.component, e.reason)
          || (log[k - 1] == StopEnds(e.component, true) && (e.reason == Failed || e.reason == ReadinessTimeout)))
  {
    hide WatchOf, FateOf, Open;
    StepAt(log, k);
    OwedIsNews(log, k);
  }

  /** What the policy was told, and what it decided, in order. */
  function ToldIn(log: seq<LogEvent>): seq<RestartPolicy.Event> {
    if log == [] then []
    else
      ToldIn(log[..|log| - 1]) +
      match log[|log| - 1]
      case PolicyTold(exit, _) => [exit]
      case ActivateCall(_) => [RestartPolicy.ActivateSafeMode]
      case _ => []
  }

  function DecidedIn(log: seq<LogEvent>): seq<Decision> {
    if log == [] then []
    else
      DecidedIn(log[..|log| - 1]) +
      match log[|log| - 1]
      case PolicyTold(_, decision) => [decision]
      case _ => []
  }

  lemma {:induction false} ToldAfter(w: Watch, e: LogEvent, settingsdUp: bool, shellUp: bool)
    ensures WatchAfter(w, e, settingsdUp, shellUp).told
         == w.told + match e case PolicyTold(exit, _) => [exit]
                             case ActivateCall(_) => [RestartPolicy.ActivateSafeMode]
                             case _ => []
    ensures WatchAfter(w, e, settingsdUp, shellUp).decisions
         == w.decisions + match e case PolicyTold(_, decision) => [decision] case _ => []
  {
  }

  lemma {:induction false} ToldIsLogged(log: seq<LogEvent>)
    ensures WatchOf(log).told == ToldIn(log) && WatchOf(log).decisions == DecidedIn(log)
  {
    hide WatchOf, FateOf;
    if log != [] {
      var front := log[..|log| - 1];
      WatchOfFront(log);
      ToldIsLogged(front);
      ToldAfter(WatchOf(front), log[|log| - 1], FateOf(front, Settingsd) == Up, FateOf(front, Shell) == Up);
      hide WatchAfter;
    } else {
      AtFirst(log);
      assert log[..0] == log;
    }
  }

  // ---------------------------------------------------------------- rounds look at every child

  /** A round of the monitor begins with one of these events, and ends with the next one. */
  predicate Mark(e: LogEvent) {
    e.ReadyCall? || e.RoundEnds?
  }

  predicate Looks(log: seq<LogEvent>, i: nat, component: Component)
    requires i < |log|
  {
    log[i].PollCall? && log[i].component == component && Open(log[..i]) == None
  }

  predicate UpAfter(log: seq<LogEvent>, i: nat, component: Component)
    requires i < |log|
  {
    FateOf(log[..i + 1], component) == Up
  }

  /** What the watch keeps of a round that began at an index. */
  ghost predicate RoundKept(log: seq<LogEvent>, a: nat, n: nat, r: Round)
    requires a < n <= |log|
  {
    && r.shellUp == UpAfter(log, a, Shell)
    && (forall c :: UpAfter(log, a, c) && !Due(r, c) ==> exists i: nat :: a < i < n && Looks(log, i, c))
    && (r.first.None? ==> forall i :: a < i < n ==> !Looks(log, i, Settingsd))
    && (r.first == Some(Shell) ==> exists j: nat :: LooksFirst(log, a, j, n))
  }

  /** The shell is looked at there, and the settings service was not looked at before. */
  predicate LooksFirst(log: seq<LogEvent>, a: nat, j: nat, n: nat)
    requires a < n <= |log|
  {
    a < j < n && Looks(log, j, Shell) && forall i :: a < i < j ==> !Looks(log, i, Settingsd)
  }

  lemma {:induction false} RoundOpens(log: seq<LogEvent>, a: nat, settingsdUp: bool, shellUp: bool)
    requires a < |log| && Mark(log[a])
    requires settingsdUp == (FateOf(log[..a], Settingsd) == Up) && shellUp == (FateOf(log[..a], Shell) == Up)
    ensures RoundKept(log, a, a + 1, Round(settingsdUp, shellUp, shellUp, None))
  {
    assert log[..a + 1][..a] == log[..a];
    assert UpAfter(log, a, Settingsd) == settingsdUp && UpAfter(log, a, Shell) == shellUp;
    hide UpAfter;
    forall c | UpAfter(log, a, c) ensures Due(Round(settingsdUp, shellUp, shellUp, None), c) {
      assert c == Settingsd || c == Shell;
    }
  }

  lemma {:induction false} RoundIsKept(log: seq<LogEvent>, a: nat, n: nat)
    requires Watchful(log) && a < n <= |log| && Mark(log[a])
    requires forall i :: a < i < n ==> !Mark(log[i]) && !log[i].ActivateCall?
    ensures RoundKept(log, a, n, WatchOf(log[..n]).round)
    decreases n
  {
    hide WatchOf, FateOf, Open;
    var k := n - 1;
    StepAt(log, k);
    if k == a {
      RoundOpens(log, a, FateOf(log[..a], Settingsd) == Up, FateOf(log[..a], Shell) == Up);
    } else {
      RoundIsKept(log, a, k);
      StopIsOpen(log, k);
      RoundStep(log, a, k, WatchOf(log[..k]).round, WatchOf(log[..n]).round);
    }
  }

  lemma {:induction false} RoundStep(log: seq<LogEvent>, a: nat, k: nat, before: Round, after: Round)
    requires a < k < |log| && RoundKept(log, a, k, before)
    requires if log[k].PollCall? && Open(log[..k]) == None then after == Looked(before, log[k].component)
             else after == before
    ensures RoundKept(log, a, k + 1, after)
  {
    forall c | UpAfter(log, a, c) && !Due(after, c) ensures exists i: nat :: a < i < k + 1 && Looks(log, i, c) {
      if Due(before, c) {
        assert Looks(log, k, c);
      } else {
        var i: nat :| a < i < k && Looks(log, i, c);
      }
    }
    if after.first == Some(Shell) {
      if before.first == Some(Shell) {
        var j: nat :| LooksFirst(log, a, j, k);
        assert LooksFirst(log, a, j, k + 1);
      } else {
        assert LooksFirst(log, a, k, k + 1);
      }
    }
  }

  /**
   A round that ends without entering safe mode has looked at every child that was up when it began, and at the
   shell before it looked at the settings service.
   */
  lemma {:induction false} RoundsLook(log: seq<LogEvent>, a: nat, b: nat)
    requires Watchful(log) && a < b < |log| && Mark(log[a]) && log[b].RoundEnds?
    requires forall i :: a < i < b ==> !Mark(log[i]) && !log[i].ActivateCall?
    ensures forall c :: UpAfter(log, a, c) ==> exists i: nat :: a < i < b && Looks(log, i, c)
    ensures UpAfter(log, a, Shell) ==> exists j: nat :: LooksFirst(log, a, j, b)
  {
    hide WatchOf, FateOf, Open;
    RoundIsKept(log, a, b);
    StepAt(log, b);
  }

  // ---------------------------------------------------------------- launches, kills and announcements

  predicate Grants(e: LogEvent, component: Component) {
    e.PolicyTold? && e.exit.Exit? && e.exit.component == component && e.decision.action == RestartComponent
  }

  /** A component is launched no earlier than the delay of the last restart that was granted to it. */
  lemma {:induction false} RestartsWait(log: seq<LogEvent>, j: nat, k: nat)
    requires Watchful(log) && j < k < |log| && log[k].LaunchCall? && Grants(log[j], log[k].component)
    requires forall i :: j < i < k ==> !Grants(log[i], log[k].component)
    ensures log[k].at >= log[j].exit.observedAt + log[j].decision.backoff
  {
    hide WatchOf, FateOf, Open;
    StandingLasts(log, log[k].component, j, k);
    StepAt(log, k);
  }

  lemma {:induction false} StandingLasts(log: seq<LogEvent>, component: Component, j: nat, n: nat)
    requires Watchful(log) && j < n <= |log| && Grants(log[j], component)
    requires forall i :: j < i < n ==> !Grants(log[i], component)
    ensures StandingOf(WatchOf(log[..n]), component).notBefore
         == Some(log[j].exit.observedAt + log[j].decision.backoff)
    decreases n
  {
    hide WatchOf, FateOf, Open;
    StepAt(log, n - 1);
    if n - 1 > j {
      StandingLasts(log, component, j, n - 1);
    }
  }

  predicate Probed(log: seq<LogEvent>, j: nat, n: nat, component: Component)
    requires n <= |log|
  {
    && j < n && log[j] == ProbeCall(component, None)
    && forall i :: j < i < n ==> !(log[i].LaunchCall? && log[i].component == component)
  }

  lemma {:induction false} ReadyIsProbed(log: seq<LogEvent>, n: nat, component: Component)
    requires Watchful(log) && n <= |log| && StandingOf(WatchOf(log[..n]), component).ready
    ensures exists j: nat :: Probed(log, j, n, component)
    decreases n
  {
    hide WatchOf, FateOf, Open;
    if n > 0 {
      StepAt(log, n - 1);
      if log[n - 1] == ProbeCall(component, None) {
        assert Probed(log, n - 1, n, component);
      } else {
        ReadyIsProbed(log, n - 1, component);
        var j: nat :| Probed(log, j, n - 1, component);
        assert Probed(log, j, n, component);
      }
    } else {
      AtFirst(log);
    }
  }

  /**
   When readiness is announced, and at the end of every round, each child that is up has answered a probe since its
   last launch; and the settings service did when readiness was announced.
   */
  lemma {:induction false} MarksAreProbed(log: seq<LogEvent>, k: nat, component: Component)
    requires Watchful(log) && k < |log| && Mark(log[k])
    requires FateOf(log[..k], component) == Up || (component == Settingsd && log[k].ReadyCall?)
    ensures exists j: nat :: Probed(log, j, k, component)
  {
    hide WatchOf, FateOf, Open;
    StepAt(log, k);
    ReadyIsProbed(log, k, component);
  }

  /** From there on the stop of one component goes on. */
  predicate SameStop(log: seq<LogEvent>, j: nat, n: nat)
    requires n <= |log|
  {
    forall i :: j < i < n ==> !log[i].StopBegins? && !log[i].StopEnds?
  }

  predicate TerminatedAt(log: seq<LogEvent>, j: nat, n: nat, component: Component, at: int)
    requires n <= |log|
  {
    && j < n && log[j] == TerminateCall(component, at) && SameStop(log, j, n)
    && forall i :: j < i < n ==> !log[i].TerminateCall?
  }

  predicate FailedPoll(e: LogEvent, component: Component) {
    e.PollCall? && e.component == component && FailedSight(e.sight)
  }

  predicate KilledAt(log: seq<LogEvent>, j: nat, n: nat, component: Component)
    requires n <= |log|
  {
    j < n && log[j].KillCall? && log[j].component == component && SameStop(log, j, n)
  }

  predicate FailedAfter(log: seq<LogEvent>, t: nat, j: nat, n: nat, component: Component)
    requires n <= |log|
  {
    t < j < n && FailedPoll(log[j], component)
  }

  ghost predicate StopKept(log: seq<LogEvent>, n: nat, stop: Stop)
    requires n <= |log|
  {
    stop.Stopping? ==>
      && (stop.killed ==> exists j: nat :: KilledAt(log, j, n, stop.component))
      && (stop.terminated.Some? ==>
            exists t: nat ::
              && TerminatedAt(log, t, n, stop.component, stop.terminated.value)
              && (stop.pollFailed ==> exists j: nat :: FailedAfter(log, t, j, n, stop.component)))
  }

  lemma {:induction false} StopIsKept(log: seq<LogEvent>, n: nat)
    requires Watchful(log) && n <= |log|
    ensures StopKept(log, n, WatchOf(log[..n]).stop)
    decreases n
  {
    hide WatchOf, FateOf, Open;
    if n > 0 {
      StepAt(log, n - 1);
      StopIsKept(log, n - 1);
      var k, before, after := n - 1, WatchOf(log[..n - 1]).stop, WatchOf(log[..n]).stop;
      StopAfter(WatchOf(log[..k]), log[k], FateOf(log[..k], Settingsd) == Up, FateOf(log[..k], Shell) == Up);
      hide WatchAfter;
      if after.Stopping? && !log[k].StopBegins? {
        StopStep(log, k, before, after);
      }
    } else {
      AtFirst(log);
    }
  }

  /** What an event other than the beginning of a stop does to the stop under way. */
  predicate StopGoesOn(before: Stop, e: LogEvent, after: Stop) {
    && before.Stopping? && after.Stopping? && after.component == before.component && !e.StopEnds?
    && (after.killed ==> before.killed || (e.KillCall? && e.component == before.component))
    && if e.TerminateCall? then after == Stopping(e.component, Some(e.at), false, false)
       else
         && after.terminated == before.terminated
         && (after.pollFailed ==> before.pollFailed || FailedPoll(e, before.component))
  }

  lemma {:induction false} StopAfter(w: Watch, e: LogEvent, settingsdUp: bool, shellUp: bool)
    ensures var after := WatchAfter(w, e, settingsdUp, shellUp);
      after.ok && after.stop.Stopping? && !e.StopBegins? ==> StopGoesOn(w.stop, e, after.stop)
    ensures e.StopBegins? ==> WatchAfter(w, e, settingsdUp, shellUp).stop == Stopping(e.component, None, false, false)
  {
  }

  lemma {:induction false} StopStep(log: seq<LogEvent>, k: nat, before: Stop, after: Stop)
    requires k < |log| && StopKept(log, k, before)
    requires after.Stopping? && !log[k].StopBegins? && StopGoesOn(before, log[k], after)
    ensures StopKept(log, k + 1, after)
  {
    var c := before.component;
    if after.killed {
      if before.killed {
        var j: nat :| KilledAt(log, j, k, c);
        assert KilledAt(log, j, k + 1, c);
      } else {
        assert KilledAt(log, k, k + 1, c);
      }
    }
    if log[k].TerminateCall? {
      assert TerminatedAt(log, k, k + 1, c, log[k].at);
    } else if after.terminated.Some? {
      var t: nat :|
        && TerminatedAt(log, t, k, c, before.terminated.value)
        && (before.pollFailed ==> exists j: nat :: FailedAfter(log, t, j, k, c));
      assert TerminatedAt(log, t, k + 1, c, after.terminated.value);
      if before.pollFailed {
        var j: nat :| FailedAfter(log, t, j, k, c);
        assert FailedAfter(log, t, j, k + 1, c);
      } else if after.pollFailed {
        assert FailedAfter(log, t, k, k + 1, c);
      }
    }
  }

  /**
   A child is killed only in a stop in which it was told to terminate, and then only after its grace or after a
   poll of it has failed since.
   */
  lemma {:induction false} KillsComeLate(log: seq<LogEvent>, k: nat)
    requires Watchful(log) && k < |log| && log[k].KillCall?
    ensures Open(log[..k]) == Some(log[k].component)
    ensures exists t: nat, when: int ::
      && TerminatedAt(log, t, k, log[k].component, when)
      && (log[k].at >= when + TERMINATE_GRACE || exists j: nat :: FailedAfter(log, t, j, k, log[k].component))
  {
    hide WatchOf, FateOf, Open;
    StepAt(log, k);
    StopIsOpen(log, k);
    StopIsKept(log, k);
  }

  /** A stop that leaves its child up has tried to kill it. */
  lemma {:induction false} NoneIsLeftUnkilled(log: seq<LogEvent>, k: nat)
    requires Watchful(log) && k < |log| && log[k].StopEnds? && FateOf(log[..k], log[k].component) == Up
    ensures exists j: nat :: KilledAt(log, j, k, log[k].component)
  {
    hide WatchOf, FateOf, Open;
    StepAt(log, k);
    StopIsKept(log, k);
  }

  // ---------------------------------------------------------------- an error ends the session

  /** An error that the session does not recover from. */
  predicate Breaks(log: seq<LogEvent>, i: nat)
    requires i < |log|
  {
    match log[i]
    case PollCall(_, sight) => FailedSight(sight) && Open(log[..i]) == None
    case ProbeCall(_, error) => error.Some? && PermanentReadinessError(error.value)
    case StopEnds(_, ok) => !ok
    case MarkSafeCall(ok) => !ok
    case ReadyCall(_, ok) => !ok
    case _ => false
  }

  /** After such an error components are stopped, and nothing else is done. */
  lemma {:induction false} ErrorsEndTheSession(log: seq<LogEvent>, i: nat, k: nat)
    requires Watchful(log) && i < k < |log| && Breaks(log, i)
    ensures WatchOf(log).broken
    ensures exists c :: AboutStopping(log[k], c) && (log[k].PollCall? ==> Open(log[..k]) == Some(c))
  {
    hide WatchOf, FateOf, Open;
    BrokenLasts(log, i, k);
    BrokenLasts(log, i, |log|);
    assert log[..|log|] == log;
    StepAt(log, k);
    StopIsOpen(log, k);
    assert AboutStopping(log[k], log[k].component);
  }

  lemma {:induction false} BrokenLasts(log: seq<LogEvent>, i: nat, n: nat)
    requires Watchful(log) && i < n <= |log| && Breaks(log, i)
    ensures WatchOf(log[..n]).broken
    decreases n
  {
    hide WatchOf, FateOf, Open;
    StepAt(log, n - 1);
    if n - 1 > i {
      BrokenLasts(log, i, n - 1);
    } else {
      StopIsOpen(log, i);
    }
  }
}
