/**
 What the platform sees of a session supervisor, and what a row of such events amounts to: whether launches are
 orderly, what became of each child, and whether everything that had to be done before an event had been done.
 */
module SessionLog {
  import opened Foundation
  import opened RestartPolicy

  /** One unit of time is a nanosecond. */
  const MILLISECOND: int := 1000000
  const TERMINATE_GRACE: int := 2000 * MILLISECOND

  /** What a poll sees of a child: still up, an exit, an error, or an error with which the child was lost. */
  datatype Sight = StillUp | Exited(reason: ExitReason) | Failing | LostSight

  datatype LogEvent =
    | LaunchCall(component: Component, safeMode: bool, alreadyRunning: bool, ok: bool, at: int)
    | PollCall(component: Component, sight: Sight)
    | ProbeCall(component: Component, error: Option<ErrorCode>)
    | StopBegins(component: Component)
    | TerminateCall(component: Component, at: int)
    | KillCall(component: Component, at: int)
    | StopEnds(component: Component, ok: bool)
    | PolicyTold(exit: RestartPolicy.Event, decision: Decision)
    | WaitBegins
    | ActivateCall(ok: bool)
    | MarkSafeCall(ok: bool)
    | ReadyCall(shellRunning: bool, ok: bool)
    | RoundEnds

  // ---------------------------------------------------------------- launches and safe mode

  /** What a row of events amounts to. */
  datatype View = View(
    overlapped: bool, mislabelled: bool, activations: nat, activationFailed: bool, safeSettingsd: nat, safeShell: nat)

  function Seen(v: View, e: LogEvent): View {
    match e
    case LaunchCall(component, safeMode, alreadyRunning, _, _) =>
      var safe := v.activations > 0;
      View(v.overlapped || alreadyRunning, v.mislabelled || safeMode != safe, v.activations, v.activationFailed,
           v.safeSettingsd + (if safe && component == Settingsd then 1 else 0),
           v.safeShell + (if safe && component == Shell then 1 else 0))
    case ActivateCall(ok) => v.(activations := v.activations + 1, activationFailed := v.activationFailed || !ok)
    case _ => v
  }

  function ViewOf(log: seq<LogEvent>): View {
    if log == [] then View(false, false, 0, false, 0, 0) else Seen(ViewOf(log[..|log| - 1]), log[|log| - 1])
  }

  function SafeLaunches(v: View, component: Component): nat {
    match component case Settingsd => v.safeSettingsd case Shell => v.safeShell
  }

  /**
   No child is launched while it runs, safe mode is activated at most once and never in vain, launches say
   whether safe mode is active, and after activation each component is launched at most once.
   */
  predicate Orderly(v: View) {
    && !v.overlapped && !v.mislabelled && v.activations <= 1 && !v.activationFailed
    && v.safeSettingsd <= 1 && v.safeShell <= 1
    && (v.activations == 0 ==> v.safeSettingsd == 0 && v.safeShell == 0)
  }

  lemma {:induction false} ViewOfMore(log: seq<LogEvent>, e: LogEvent)
    ensures ViewOf(log + [e]) == Seen(ViewOf(log), e)
  {
    assert (log + [e])[..|log|] == log;
  }

  // ---------------------------------------------------------------- what became of each child

  /** What was last heard of a child: never launched, up, seen to exit, or lost with an error. */
  datatype Fate = Absent | Up | Left(reason: ExitReason) | Lost

  function FateAfter(fate: Fate, e: LogEvent, component: Component): Fate {
    match e
    case LaunchCall(c, _, _, ok, _) => if c == component && ok then Up else fate
    case PollCall(c, Exited(reason)) => if c == component then Left(reason) else fate
    case PollCall(c, LostSight) => if c == component then Lost else fate
    case _ => fate
  }

  function FateOf(log: seq<LogEvent>, component: Component): Fate {
    if log == [] then Absent else FateAfter(FateOf(log[..|log| - 1], component), log[|log| - 1], component)
  }

  /**
   Readiness is announced with a running shell, unless the last thing that happened to the shell was a clean
   exit that a poll saw.
   */
  predicate ReadyFits(log: seq<LogEvent>) {
    log == []
    || (var front, last := log[..|log| - 1], log[|log| - 1];
        && ReadyFits(front)
        && (last.ReadyCall? ==>
              && (last.shellRunning <==> FateOf(front, Shell) == Up)
              && (!last.shellRunning <==> FateOf(front, Shell) == Left(Clean))))
  }

  /** Readiness said with what is known of the shell, which is up or has left cleanly. */
  predicate MayAnnounce(log: seq<LogEvent>, e: LogEvent) {
    && e.ReadyCall? && (e.shellRunning <==> FateOf(log, Shell) == Up)
    && (FateOf(log, Shell) == Up || FateOf(log, Shell) == Left(Clean))
  }

  lemma {:induction false} ReadyFitsAt(log: seq<LogEvent>, i: nat)
    requires ReadyFits(log) && i < |log| && log[i].ReadyCall?
    ensures log[i].shellRunning <==> FateOf(log[..i], Shell) == Up
    ensures !log[i].shellRunning <==> FateOf(log[..i], Shell) == Left(Clean)
    decreases |log|
  {
    if i < |log| - 1 {
      ReadyFitsAt(log[..|log| - 1], i);
      assert log[..|log| - 1][..i] == log[..i];
    }
  }

  lemma {:induction false} LogMore(log: seq<LogEvent>, e: LogEvent)
    ensures FateOf(log + [e], Settingsd) == FateAfter(FateOf(log, Settingsd), e, Settingsd)
    ensures FateOf(log + [e], Shell) == FateAfter(FateOf(log, Shell), e, Shell)
    ensures ReadyFits(log) && !e.ReadyCall? ==> ReadyFits(log + [e])
    ensures ReadyFits(log) && MayAnnounce(log, e) ==> ReadyFits(log + [e])
  {
    assert (log + [e])[..|log|] == log;
  }

  // ---------------------------------------------------------------- stops

  /** Events of stopping one component, among them what its polls see. */
  predicate AboutStopping(e: LogEvent, component: Component) {
    (e.StopBegins? || e.StopEnds? || e.PollCall? || e.TerminateCall? || e.KillCall?) && e.component == component
  }

  predicate Extends(before: seq<LogEvent>, after: seq<LogEvent>, component: Component) {
    && before <= after
    && forall i :: |before| <= i < |after| ==> AboutStopping(after[i], component)
  }

  function Other(component: Component): Component {
    if component == Settingsd then Shell else Settingsd
  }

  /** The last events stop the shell for good and then the settings service. */
  ghost predicate StoppedInOrder(before: seq<LogEvent>, after: seq<LogEvent>) {
    exists middle ::
      before <= middle <= after && Stops(middle[|before|..], Shell, true) && Stops(after[|middle|..], Settingsd, true)
  }

  /** The events of one stop, from its beginning to its end, and nothing else. */
  predicate Stops(events: seq<LogEvent>, component: Component, ok: bool) {
    && |events| >= 2 && events[0] == StopBegins(component) && events[|events| - 1] == StopEnds(component, ok)
    && forall i :: 0 <= i < |events| ==> AboutStopping(events[i], component)
  }

  lemma {:induction false} OneStop(
      before: seq<LogEvent>, begun: seq<LogEvent>, done: seq<LogEvent>, component: Component, ok: bool)
    requires begun == before + [StopBegins(component)] && Extends(begun, done, component)
    ensures before <= done + [StopEnds(component, ok)]
    ensures Stops((done + [StopEnds(component, ok)])[|before|..], component, ok)
  {
    var after := done + [StopEnds(component, ok)];
    var events := after[|before|..];
    assert before <= begun <= after;
    forall i | 0 <= i < |events| ensures AboutStopping(events[i], component) {
      assert events[i] == after[|before| + i];
    }
    assert events[0] == begun[|before|];
  }

  lemma {:induction false} InOrder(before: seq<LogEvent>, middle: seq<LogEvent>, after: seq<LogEvent>)
    requires before <= middle <= after
    requires Stops(middle[|before|..], Shell, true) && Stops(after[|middle|..], Settingsd, true)
    ensures StoppedInOrder(before, after)
  {
  }

  // ---------------------------------------------------------------- what has to be done before what

  /** A stop under way: when termination was requested, whether a poll failed since, and whether a kill was tried. */
  datatype Stop = NoStop | Stopping(component: Component, terminated: Option<int>, pollFailed: bool, killed: bool)

  /**
   A round of the monitor: the components that were up when it began and have not been polled since, whether the
   shell was up, and which component was polled first. Polls during a stop do not count, and entering safe mode
   ends what the round owes.
   */
  datatype Round = Round(settingsdDue: bool, shellDue: bool, shellUp: bool, first: Option<Component>)

  /** A component since its last launch: whether a readiness probe succeeded; and when it may be launched again. */
  datatype Standing = Standing(ready: bool, notBefore: Option<int>)

  /**
   What a row of events leaves to be done: the exit that a poll saw, or the launch that failed, and that the policy
   was not told of; the component whose stop has just succeeded; whether an error has ended the session, so that
   only stops may follow; the stop under way, the round, and the standing of both components; and what the policy
   was told and has decided. `ok` says that nothing has been left undone so far.
   */
  datatype Watch = Watch(
    ok: bool, broken: bool, owed: Option<(Component, ExitReason)>, stopped: Option<Component>, stop: Stop,
    round: Round, settingsd: Standing, shell: Standing, told: seq<RestartPolicy.Event>, decisions: seq<Decision>)

  const NO_STANDING := Standing(false, None)
  const NO_ROUND := Round(false, false, false, None)
  const START := Watch(true, false, None, None, NoStop, NO_ROUND, NO_STANDING, NO_STANDING, [], [])

  function StandingOf(w: Watch, component: Component): Standing {
    match component case Settingsd => w.settingsd case Shell => w.shell
  }

  function WithStanding(w: Watch, component: Component, standing: Standing): Watch {
    match component case Settingsd => w.(settingsd := standing) case Shell => w.(shell := standing)
  }

  predicate Due(r: Round, component: Component) {
    match component case Settingsd => r.settingsdDue case Shell => r.shellDue
  }

  function Looked(r: Round, component: Component): Round {
    Round(r.settingsdDue && component != Settingsd, r.shellDue && component != Shell, r.shellUp,
          if r.first.None? then Some(component) else r.first)
  }

  predicate RoundDone(r: Round) {
    !r.settingsdDue && !r.shellDue && (r.shellUp ==> r.first == Some(Shell))
  }

  predicate PermanentReadinessError(error: ErrorCode) {
    error == InvalidArgument || error == ValidationError || error == Unsupported
  }

  predicate FailedSight(sight: Sight) {
    sight == Failing || sight == LostSight
  }

  function Require(w: Watch, done: bool): Watch {
    w.(ok := w.ok && done)
  }

  /** Nothing is owed, no error has ended the session, and no stop is under way. */
  predicate Free(w: Watch) {
    w.owed.None? && !w.broken && w.stop.NoStop?
  }

  predicate StopsNow(w: Watch, component: Component) {
    w.stop.Stopping? && w.stop.component == component
  }

  function AfterPoll(w: Watch, component: Component, sight: Sight): Watch {
    if w.stop.Stopping? then
      Require(w, StopsNow(w, component)).(
        stop := w.stop.(pollFailed := w.stop.pollFailed || FailedSight(sight)), stopped := None)
    else
      Require(w, Free(w)).(
        round := Looked(w.round, component), stopped := None, broken := w.broken || FailedSight(sight),
        owed := if sight.Exited? then Some((component, sight.reason)) else w.owed)
  }

  /** The policy is told of what is owed, or of a component that was stopped because it did not become ready. */
  function AfterTold(w: Watch, exit: RestartPolicy.Event, decision: Decision): Watch {
    var more := w.(owed := None, stopped := None, told := w.told + [exit], decisions := w.decisions + [decision]);
    if !exit.Exit? then Require(more, false)
    else
      var next := Require(more, !w.broken && w.stop.NoStop? && MayTellOf(w, exit.component, exit.reason));
      if decision.action != RestartComponent then next
      else
        WithStanding(next, exit.component,
                     StandingOf(w, exit.component).(notBefore := Some(exit.observedAt + decision.backoff)))
  }

  predicate MayTellOf(w: Watch, component: Component, reason: ExitReason) {
    if w.owed.Some? then w.owed.value == (component, reason)
    else (reason == Failed || reason == ReadinessTimeout) && w.stopped == Some(component)
  }

  /** The next watch; the two flags tell which children are up. */
  function WatchAfter(w: Watch, e: LogEvent, settingsdUp: bool, shellUp: bool): Watch {
    var next := Next(w, e, settingsdUp, shellUp);
    next.(stopped := if e.StopEnds? && e.ok then Some(e.component) else None)
  }

  function Next(w: Watch, e: LogEvent, settingsdUp: bool, shellUp: bool): Watch {
    match e
    case LaunchCall(component, _, _, ok, at) =>
      var standing := StandingOf(w, component);
      WithStanding(Require(w, Free(w) && (standing.notBefore.Some? ==> at >= standing.notBefore.value)),
                   component, standing.(ready := false))
        .(owed := if ok then None else Some((component, Failed)))
    case PollCall(component, sight) => AfterPoll(w, component, sight)
    case ProbeCall(component, error) =>
      var standing := StandingOf(w, component);
      WithStanding(Require(w, Free(w)), component, standing.(ready := standing.ready || error.None?))
        .(broken := w.broken || (error.Some? && PermanentReadinessError(error.value)))
    case StopBegins(component) =>
      Require(w, w.owed.None? && w.stop.NoStop?).(stop := Stopping(component, None, false, false))
    case TerminateCall(component, at) =>
      Require(w, StopsNow(w, component)).(stop := Stopping(component, Some(at), false, false))
    case KillCall(component, at) =>
      Require(w, && StopsNow(w, component) && w.stop.terminated.Some?
                 && (w.stop.pollFailed || at >= w.stop.terminated.value + TERMINATE_GRACE))
        .(stop := if w.stop.Stopping? then w.stop.(killed := true) else NoStop)
    case StopEnds(component, ok) =>
      var up := if component == Settingsd then settingsdUp else shellUp;
      Require(w, StopsNow(w, component) && (up ==> w.stop.killed)).(stop := NoStop, broken := w.broken || !ok)
    case PolicyTold(exit, decision) => AfterTold(w, exit, decision)
    case WaitBegins => Require(w, Free(w))
    case ActivateCall(_) =>
      Require(w, Free(w)).(round := Round(false, false, false, w.round.first),
                           told := w.told + [RestartPolicy.ActivateSafeMode])
    case MarkSafeCall(ok) => Require(w, Free(w)).(broken := w.broken || !ok)
    case ReadyCall(_, ok) =>
      Require(w, Free(w) && w.settingsd.ready && (shellUp ==> w.shell.ready))
        .(round := Round(settingsdUp, shellUp, shellUp, None), broken := w.broken || !ok)
    case RoundEnds =>
      Require(w, && Free(w) && RoundDone(w.round)
                 && (settingsdUp ==> w.settingsd.ready) && (shellUp ==> w.shell.ready))
        .(round := Round(settingsdUp, shellUp, shellUp, None))
  }

  function WatchOf(log: seq<LogEvent>): Watch {
    if log == [] then START
    else
      var front := log[..|log| - 1];
      WatchAfter(WatchOf(front), log[|log| - 1], FateOf(front, Settingsd) == Up, FateOf(front, Shell) == Up)
  }

  lemma {:induction false} WatchOfMore(log: seq<LogEvent>, e: LogEvent)
    ensures WatchOf(log + [e])
         == WatchAfter(WatchOf(log), e, FateOf(log, Settingsd) == Up, FateOf(log, Shell) == Up)
  {
    assert (log + [e])[..|log|] == log;
  }

  /** What an operation leaves of a round: it never owes more, and the first component polled stays the first. */
  predicate Onward(before: Round, after: Round) {
    && (after.settingsdDue ==> before.settingsdDue) && (after.shellDue ==> before.shellDue)
    && (after.shellUp ==> before.shellUp) && (before.first.Some? ==> after.first == before.first)
  }

  /** What stopping a component leaves: nothing more is owed, and the policy was told of nothing. */
  predicate OnlyStopped(before: Watch, after: Watch) {
    && after.owed == before.owed && after.settingsd == before.settingsd && after.shell == before.shell
    && after.told == before.told && after.decisions == before.decisions && after.round == before.round
    && (before.broken ==> after.broken)
  }

  /** The decisions of the policy on the exits of a history. */
  function DecisionsOf(c: Config, events: seq<RestartPolicy.Event>): seq<Decision> {
    if events == [] then []
    else
      var front, last := events[..|events| - 1], events[|events| - 1];
      DecisionsOf(c, front) +
      match last
      case ActivateSafeMode => []
      case Exit(component, reason, launchedAt, observedAt) =>
        match Observe(c, TraceOf(c, front).state, component, reason, launchedAt, observedAt).1
        case Failure(_) => []
        case Success(decision) => [decision]
  }
}
