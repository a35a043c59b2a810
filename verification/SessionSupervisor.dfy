/**
 The session supervisor: it starts the settings service and the shell, restarts them within the recovery
 policy, falls back to safe mode once, and stops the shell before the settings service.

 The platform is a class whose answers are given by arbitrary functions of the number of calls made so far,
 with a clock that only moves forward. A shutdown request stays in force once made; `patience` is the number
 of polls before it arrives. Since that number is arbitrary, the runs modelled here cover every finite part of
 every run.
 */
module SessionSupervisor {
  import opened Foundation
  import opened RestartPolicy
  import opened SessionLog

  const MONITOR_INTERVAL: int := 25 * MILLISECOND
  const READINESS_TIMEOUT: int := 5000 * MILLISECOND
  const READINESS_ATTEMPT_TIMEOUT: int := 100 * MILLISECOND
  const KILL_REAP_GRACE: int := 1000 * MILLISECOND

  datatype Progress = Running | CleanStop | SafeModeNeeded | ShutdownAsked

  datatype Termination = CleanTermination | RequestedTermination

  // ---------------------------------------------------------------- waiting

  /** The time to wait until a deadline, rounded up to milliseconds and cut to a slice. */
  function WaitSliceUntil(deadline: int, now: int, maximumSlice: int): int {
    if now >= deadline then 0 else Min(maximumSlice, (deadline - now + MILLISECOND - 1) / MILLISECOND * MILLISECOND)
  }

  /** The wait is positive exactly before the deadline, and overshoots it by less than a millisecond. */
  lemma {:induction false} WaitSliceIsBounded(deadline: int, now: int, maximumSlice: int)
    requires maximumSlice > 0
    ensures var slice := WaitSliceUntil(deadline, now, maximumSlice);
      && 0 <= slice <= maximumSlice && (slice > 0 <==> now < deadline)
      && (now < deadline ==> now + slice < deadline + MILLISECOND)
      && (now < deadline && slice < maximumSlice ==> now + slice >= deadline)
  {
    if now < deadline {
      RoundedUp(deadline - now, MILLISECOND);
    }
  }

  lemma {:induction false} RoundedUp(d: int, unit: int)
    requires d > 0 && unit > 0
    ensures d <= (d + unit - 1) / unit * unit < d + unit
  {
  }

  // ---------------------------------------------------------------- the platform

  /** The answer to one call: an error, an exit that was observed, and whether the child was lost with the error. */
  datatype Response = Response(error: Option<ErrorCode>, exited: Option<ExitReason>, lost: bool)

  class Platform {
    const script: nat -> Response
    const tick: nat -> nat
    var calls: nat
    var ticks: nat
    var clock: int
    var patience: nat
    var settingsdRunning: bool
    var shellRunning: bool
    var log: seq<LogEvent>
    /** What the log leaves to be done. */
    ghost var watch: Watch

    constructor (script: nat -> Response, tick: nat -> nat, clock: int, patience: nat)
      ensures this.script == script && this.tick == tick && this.clock == clock && this.patience == patience
      ensures calls == 0 && ticks == 0 && !settingsdRunning && !shellRunning && log == [] && watch == START
    {
      this.script, this.tick, this.clock, this.patience := script, tick, clock, patience;
      calls, ticks, settingsdRunning, shellRunning, log, watch := 0, 0, false, false, [], START;
    }

    /**
     The children run that the log says are up, readiness was announced as it should be, and nothing that had
     to be done before an event was left undone.
     */
    ghost predicate Consistent()
      reads this
    {
      && (settingsdRunning <==> FateOf(log, Settingsd) == Up) && (shellRunning <==> FateOf(log, Shell) == Up)
      && ReadyFits(log) && watch == WatchOf(log) && watch.ok
    }

    predicate IsRunning(component: Component)
      reads this
    {
      match component case Settingsd => settingsdRunning case Shell => shellRunning
    }

    /** The clock stands still from that look on. */
    ghost predicate Still(n: nat) {
      forall m: nat :: m >= n ==> tick(m) == 0
    }

    /** From that call on a termination request is accepted and the next poll sees the exit. */
    predicate Obedient(k: nat) {
      && script(k).error.None? && script(k + 1).error.None? && script(k + 1).exited.Some?
    }

    /** A child that is up when it is polled, but whose deadline has then passed, and that stops when it is told to. */
    ghost predicate Unready(k: nat, n: nat) {
      && script(k).error.None? && script(k).exited.None? && Obedient(k + 1)
      && tick(n) == READINESS_TIMEOUT && Still(n + 1)
    }

    ghost predicate Stalls(k: nat, n: nat) {
      tick(n) == 0 && Unready(k, n + 1)
    }

    method SetRunning(component: Component, running: bool)
      modifies `settingsdRunning, `shellRunning
      ensures IsRunning(component) == running
      ensures IsRunning(Other(component)) == old(IsRunning(Other(component)))
    {
      if component == Settingsd {
        settingsdRunning := running;
      } else {
        shellRunning := running;
      }
    }

    method Note(e: LogEvent)
      requires watch == WatchOf(log)
      modifies `log, `watch
      ensures log == old(log) + [e] && ViewOf(log) == Seen(ViewOf(old(log)), e)
      ensures FateOf(log, Settingsd) == FateAfter(FateOf(old(log), Settingsd), e, Settingsd)
      ensures FateOf(log, Shell) == FateAfter(FateOf(old(log), Shell), e, Shell)
      ensures ReadyFits(old(log)) && !e.ReadyCall? ==> ReadyFits(log)
      ensures ReadyFits(old(log)) && MayAnnounce(old(log), e) ==> ReadyFits(log)
      ensures watch == WatchOf(log)
      ensures watch == WatchAfter(old(watch), e, FateOf(old(log), Settingsd) == Up, FateOf(old(log), Shell) == Up)
    {
      ViewOfMore(log, e);
      LogMore(log, e);
      WatchOfMore(log, e);
      log := log + [e];
      watch := WatchOf(log);
    }

    method Now() returns (now: int)
      modifies `clock, `ticks
      ensures now == clock == old(clock) + tick(old(ticks)) && ticks == old(ticks) + 1
    {
      clock := clock + tick(ticks);
      ticks := ticks + 1;
      now := clock;
    }

    /** Waiting takes at least as long as asked. */
    method WaitFor(duration: int)
      requires duration >= 0
      modifies `clock, `ticks
      ensures clock == old(clock) + duration + tick(old(ticks)) && ticks == old(ticks) + 1
    {
      clock := clock + duration + tick(ticks);
      ticks := ticks + 1;
    }

    /** A slice of the wait for a deadline, between two looks at the clock. */
    method WaitSlice(deadline: int) returns (now: int)
      requires clock < deadline
      modifies `clock, `ticks
      ensures now == clock && clock >= old(clock) && ticks >= old(ticks)
      ensures now < deadline ==> now > old(clock)
    {
      now := Now();
      WaitSliceIsBounded(deadline, now, MONITOR_INTERVAL);
      WaitFor(WaitSliceUntil(deadline, now, MONITOR_INTERVAL));
      now := Now();
    }

    method ShutdownRequested() returns (requested: bool)
      modifies `patience
      ensures requested <==> old(patience) == 0
      ensures patience == if requested then 0 else old(patience) - 1
    {
      requested := patience == 0;
      if patience > 0 {
        patience := patience - 1;
      }
    }

    method Answer() returns (response: Response)
      modifies `calls
      ensures response == script(old(calls)) && calls == old(calls) + 1
    {
      response := script(calls);
      calls := calls + 1;
    }

    /** No launch before the delay of a restart is over. */
    ghost predicate MayLaunch(component: Component)
      reads this
    {
      var standing := StandingOf(watch, component);
      standing.notBefore.Some? ==> clock >= standing.notBefore.value
    }

    /** A running child is not launched again. */
    method Launch(component: Component, safeMode: bool) returns (error: Option<ErrorCode>)
      requires Consistent() && Free(watch) && MayLaunch(component)
      modifies `calls, `settingsdRunning, `shellRunning, `log, `watch
      ensures Consistent() && FateOf(log, Other(component)) == FateOf(old(log), Other(component))
      ensures watch
           == WithStanding(old(watch), component, StandingOf(old(watch), component).(ready := false))
                .(stopped := None, owed := if error.None? then None else Some((component, Failed)))
      ensures calls == old(calls) + 1
      ensures error == if old(IsRunning(component)) then Some(InvalidArgument) else script(old(calls)).error
      ensures IsRunning(component) == (old(IsRunning(component)) || error.None?)
      ensures IsRunning(Other(component)) == old(IsRunning(Other(component)))
      ensures ViewOf(log)
           == Seen(ViewOf(old(log)), LaunchCall(component, safeMode, old(IsRunning(component)), error.None?, clock))
      ensures old(log) <= log
    {
      hide ViewOf, FateOf, ReadyFits, WatchOf;
      var already := IsRunning(component);
      var response := Answer();
      error := if already then Some(InvalidArgument) else response.error;
      if error.None? {
        SetRunning(component, true);
      }
      Note(LaunchCall(component, safeMode, already, error.None?, clock));
    }

    /** What a poll is logged as. */
    function SightOf(r: Result<Option<ExitReason>>, lost: bool): Sight {
      match r
      case Failure(_) => if lost then LostSight else Failing
      case Success(None) => StillUp
      case Success(Some(reason)) => Exited(reason)
    }

    /** The answer to a poll, and whether the child was lost with an error. */
    method Collect(component: Component) returns (r: Result<Option<ExitReason>>, lost: bool)
      modifies `calls
      ensures calls == old(calls) + 1 && (lost ==> r.Failure? && IsRunning(component))
      ensures r == if !IsRunning(component) then Failure(InvalidArgument)
        else if script(old(calls)).error.Some? then Failure(script(old(calls)).error.value)
        else Success(script(old(calls)).exited)
    {
      var response := Answer();
      if !IsRunning(component) {
        return Failure(InvalidArgument), false;
      }
      if response.error.Some? {
        return Failure(response.error.value), response.lost;
      }
      return Success(response.exited), false;
    }

    /** The exit of a running child, if it is seen; only a child that runs can be polled. */
    method Poll(component: Component) returns (r: Result<Option<ExitReason>>)
      requires Consistent() && if watch.stop.Stopping? then StopsNow(watch, component) else Free(watch)
      modifies `calls, `settingsdRunning, `shellRunning, `log, `watch
      ensures Consistent() && calls == old(calls) + 1
      ensures watch == AfterPoll(old(watch), component, SightOf(r, false))
      ensures old(watch).stop.Stopping? ==> Reaping(old(watch), watch) && (r.Failure? ==> watch.stop.pollFailed)
      ensures !old(IsRunning(component)) ==> r == Failure(InvalidArgument)
      ensures old(IsRunning(component)) ==>
        r == if script(old(calls)).error.Some? then Failure(script(old(calls)).error.value)
          else Success(script(old(calls)).exited)
      ensures IsRunning(component) ==> old(IsRunning(component))
      ensures r.Success? ==> IsRunning(component) == r.value.None?
      ensures r.Success? && r.value.Some? ==> FateOf(log, component) == Left(r.value.value)
      ensures IsRunning(Other(component)) == old(IsRunning(Other(component)))
      ensures Extends(old(log), log, component) && ViewOf(log) == ViewOf(old(log))
      ensures FateOf(log, Other(component)) == FateOf(old(log), Other(component))
    {
      hide ViewOf, FateOf, ReadyFits, WatchOf;
      var lost: bool;
      r, lost := Collect(component);
      Record(component, SightOf(r, lost));
    }

    /** A child that was seen to exit, or was lost, runs no longer. */
    method Record(component: Component, sight: Sight)
      requires Consistent() && if watch.stop.Stopping? then StopsNow(watch, component) else Free(watch)
      requires sight.Exited? || sight.LostSight? ==> IsRunning(component)
      modifies `settingsdRunning, `shellRunning, `log, `watch
      ensures Consistent() && watch == AfterPoll(old(watch), component, sight)
      ensures IsRunning(component) == (old(IsRunning(component)) && !sight.Exited? && !sight.LostSight?)
      ensures sight.Exited? ==> FateOf(log, component) == Left(sight.reason)
      ensures IsRunning(Other(component)) == old(IsRunning(Other(component)))
      ensures Extends(old(log), log, component) && ViewOf(log) == ViewOf(old(log))
      ensures FateOf(log, Other(component)) == FateOf(old(log), Other(component))
    {
      hide ViewOf, FateOf, ReadyFits, WatchOf;
      if sight.Exited? || sight.LostSight? {
        SetRunning(component, false);
      }
      Note(PollCall(component, sight));
    }

    /** A probe of readiness. */
    method Probe(component: Component) returns (error: Option<ErrorCode>)
      requires Consistent() && Free(watch)
      modifies `calls, `log, `watch
      ensures Consistent() && old(log) <= log && ViewOf(log) == ViewOf(old(log))
      ensures FateOf(log, Other(component)) == FateOf(old(log), Other(component))
      ensures error == script(old(calls)).error && calls == old(calls) + 1
      ensures var standing := StandingOf(old(watch), component);
        watch == WithStanding(old(watch), component, standing.(ready := standing.ready || error.None?))
          .(stopped := None, broken := error.Some? && PermanentReadinessError(error.value))
    {
      hide ViewOf, FateOf, ReadyFits, WatchOf;
      error := Try();
      Note(ProbeCall(component, error));
    }

    /** The answer of the policy to an exit. */
    method Tell(e: RestartPolicy.Event, decision: Decision)
      requires Consistent() && watch.stop.NoStop? && !watch.broken
      requires e.Exit? && MayTellOf(watch, e.component, e.reason)
      modifies `log, `watch
      ensures Consistent() && log == old(log) + [PolicyTold(e, decision)] && ViewOf(log) == ViewOf(old(log))
      ensures FateOf(log, Settingsd) == FateOf(old(log), Settingsd) && FateOf(log, Shell) == FateOf(old(log), Shell)
      ensures watch == AfterTold(old(watch), e, decision)
      ensures watch.stop.NoStop? && watch.told == old(watch).told + [e]
      ensures watch.decisions == old(watch).decisions + [decision]
    {
      hide ViewOf, FateOf, ReadyFits, WatchOf;
      Note(PolicyTold(e, decision));
    }

    method BeginStop(component: Component)
      requires Consistent() && watch.owed.None? && watch.stop.NoStop?
      modifies `log, `watch
      ensures Consistent() && log == old(log) + [StopBegins(component)] && ViewOf(log) == ViewOf(old(log))
      ensures FateOf(log, Other(component)) == FateOf(old(log), Other(component))
      ensures watch == old(watch).(stop := Stopping(component, None, false, false), stopped := None)
    {
      hide ViewOf, FateOf, ReadyFits, WatchOf;
      Note(StopBegins(component));
    }

    method EndStop(component: Component, ok: bool)
      requires Consistent() && StopsNow(watch, component) && (IsRunning(component) ==> watch.stop.killed)
      modifies `log, `watch
      ensures Consistent() && log == old(log) + [StopEnds(component, ok)] && ViewOf(log) == ViewOf(old(log))
      ensures FateOf(log, Other(component)) == FateOf(old(log), Other(component))
      ensures watch == old(watch).(
        stop := NoStop, broken := old(watch).broken || !ok, stopped := if ok then Some(component) else None)
    {
      hide ViewOf, FateOf, ReadyFits, WatchOf;
      Note(StopEnds(component, ok));
    }

    method RequestTerminate(component: Component) returns (error: Option<ErrorCode>)
      requires Consistent() && StopsNow(watch, component)
      modifies `calls, `log, `watch
      ensures Consistent() && Extends(old(log), log, component) && ViewOf(log) == ViewOf(old(log))
      ensures FateOf(log, Other(component)) == FateOf(old(log), Other(component))
      ensures error == script(old(calls)).error && calls == old(calls) + 1
      ensures watch == old(watch).(stop := Stopping(component, Some(clock), false, false), stopped := None)
    {
      hide ViewOf, FateOf, ReadyFits, WatchOf;
      error := Try();
      Note(TerminateCall(component, clock));
    }

    method ForceKill(component: Component) returns (error: Option<ErrorCode>)
      requires Consistent() && StopsNow(watch, component) && watch.stop.terminated.Some?
      requires watch.stop.pollFailed || clock >= watch.stop.terminated.value + TERMINATE_GRACE
      modifies `calls, `log, `watch
      ensures Consistent() && Extends(old(log), log, component) && ViewOf(log) == ViewOf(old(log))
      ensures FateOf(log, Other(component)) == FateOf(old(log), Other(component))
      ensures error == script(old(calls)).error && calls == old(calls) + 1
      ensures watch == old(watch).(stop := old(watch).stop.(killed := true), stopped := None)
    {
      hide ViewOf, FateOf, ReadyFits, WatchOf;
      error := Try();
      Note(KillCall(component, clock));
    }

    /** Markers, probes and signals succeed or fail without touching the children. */
    method Try() returns (error: Option<ErrorCode>)
      modifies `calls
      ensures error == script(old(calls)).error && calls == old(calls) + 1
    {
      var response := Answer();
      error := response.error;
    }
  }

  // ---------------------------------------------------------------- the supervisor

  class Supervisor {
    const platform: Platform
    const config: Config
    var recovery: State
    /** What the recovery policy has been told, in order. */
    ghost var history: seq<RestartPolicy.Event>
    var settingsdLaunchedAt: Option<int>
    var shellLaunchedAt: Option<int>

    constructor (platform: Platform, config: Config)
      requires ValidConfig(config)
      requires platform.log == [] && platform.watch == START && !platform.settingsdRunning && !platform.shellRunning
      ensures this.platform == platform && this.config == config && recovery == FRESH && history == [] && Going()
      ensures settingsdLaunchedAt == None && shellLaunchedAt == None
    {
      this.platform, this.config, recovery, history := platform, config, FRESH, [];
      settingsdLaunchedAt, shellLaunchedAt := None, None;
    }

    function LaunchTime(component: Component): Option<int>
      reads this
    {
      match component case Settingsd => settingsdLaunchedAt case Shell => shellLaunchedAt
    }

    ghost predicate Valid()
      reads this, platform
    {
      Sound() && Rested() && platform.watch.owed.None?
    }

    /** What holds at all times outside of a stop. */
    ghost predicate Sound()
      reads this, platform
    {
      && ValidConfig(config)
      && Orderly(ViewOf(platform.log)) && platform.Consistent() && platform.watch.stop.NoStop?
      && ViewOf(platform.log).activations == (if recovery.active then 1 else 0)
      && recovery == TraceOf(config, history).state && Chronological(history) && SeenBy(history, platform.clock)
      && platform.watch.told == history && platform.watch.decisions == DecisionsOf(config, history)
      && LaunchTimeFits(Settingsd) && LaunchTimeFits(Shell)
    }

    /** The delays of restarts are over, unless shutdown has been requested. */
    ghost predicate Rested()
      reads this, platform
    {
      platform.patience > 0 ==> platform.MayLaunch(Settingsd) && platform.MayLaunch(Shell)
    }

    /** No error has ended the session. */
    ghost predicate Going()
      reads this, platform
    {
      Valid() && !platform.watch.broken
    }

    /** A poll has just seen that exit, or a launch has just failed. */
    ghost predicate Owes(component: Component, reason: ExitReason)
      reads this, platform
    {
      Sound() && Rested() && platform.watch.owed == Some((component, reason)) && !platform.watch.broken
    }

    /** A component that runs has its launch time recorded and became ready after its launch. */
    ghost predicate Settled(component: Component)
      reads this, platform
    {
      platform.IsRunning(component) ==> LaunchTime(component).Some? && StandingOf(platform.watch, component).ready
    }

    /** A round of the monitor is about to begin. */
    ghost predicate RoundBegins()
      reads this, platform
    {
      platform.watch.round == Round(platform.settingsdRunning, platform.shellRunning, platform.shellRunning, None)
    }

    /** A recorded launch time lies between the last exit of its component and now. */
    ghost predicate LaunchTimeFits(component: Component)
      reads this, platform
    {
      LaunchTime(component).Some? ==>
        LaunchTime(component).value <= platform.clock && SeenOf(history, component, LaunchTime(component).value)
    }

    method SetLaunchTime(component: Component, time: Option<int>)
      modifies `settingsdLaunchedAt, `shellLaunchedAt
      ensures LaunchTime(component) == time
      ensures LaunchTime(Other(component)) == old(LaunchTime(Other(component)))
    {
      if component == Settingsd {
        settingsdLaunchedAt := time;
      } else {
        shellLaunchedAt := time;
      }
    }

    /** A look at the clock. */
    method Look() returns (now: int)
      requires Sound() && Rested()
      modifies platform`clock, platform`ticks
      ensures Sound() && Rested()
      ensures now == platform.clock == old(platform.clock + platform.tick(platform.ticks))
      ensures platform.ticks == old(platform.ticks) + 1
      ensures SeenOf(history, Settingsd, now) && SeenOf(history, Shell, now)
    {
      hide ViewOf, FateOf, ReadyFits, WatchOf, Orderly, TraceOf, Chronological, DecisionsOf;
      now := platform.Now();
    }

    /** Whether shutdown has been requested; as long as it has not, the delays of restarts are over. */
    method Asked() returns (requested: bool)
      requires Valid()
      modifies platform`patience
      ensures Valid() && (requested <==> old(platform.patience) == 0)
      ensures platform.patience == if requested then 0 else old(platform.patience) - 1
      ensures !requested ==> platform.MayLaunch(Settingsd) && platform.MayLaunch(Shell)
    {
      hide ViewOf, FateOf, ReadyFits, WatchOf, Orderly, TraceOf, Chronological, DecisionsOf, SeenBy, SeenOf;
      requested := platform.ShutdownRequested();
    }

    /** A poll of a running component outside of a stop; the exit that it sees is owed to the policy. */
    method PollChild(component: Component) returns (status: Result<Option<ExitReason>>)
      requires Going() && platform.IsRunning(component)
      modifies platform`calls, platform`settingsdRunning, platform`shellRunning, platform`log, platform`watch
      ensures status == if old(platform.script(platform.calls)).error.Some?
        then Failure(old(platform.script(platform.calls)).error.value)
        else Success(old(platform.script(platform.calls)).exited)
      ensures status.Success? && status.value.Some? ==>
        && Owes(component, status.value.value) && !platform.IsRunning(component)
        && FateOf(platform.log, component) == Left(status.value.value)
      ensures status.Success? && status.value.None? ==> platform.IsRunning(component) && Going()
      ensures status.Failure? ==> Valid()
      ensures platform.IsRunning(Other(component)) == old(platform.IsRunning(Other(component)))
      ensures old(platform.log) <= platform.log && ViewOf(platform.log) == ViewOf(old(platform.log))
      ensures platform.calls == old(platform.calls) + 1
      ensures platform.watch.round == Looked(old(platform.watch.round), component)
      ensures platform.watch.settingsd == old(platform.watch.settingsd)
      ensures platform.watch.shell == old(platform.watch.shell)
    {
      hide ViewOf, FateOf, ReadyFits, WatchOf, Orderly, TraceOf, Chronological, DecisionsOf, SeenBy, SeenOf;
      status := platform.Poll(component);
    }

    /** Waiting in slices, given up when shutdown is requested. */
    method WaitInterruptibly(duration: int) returns (completed: bool)
      requires platform.Consistent() && Free(platform.watch)
      modifies platform`clock, platform`ticks, platform`patience, platform`log, platform`watch
      ensures platform.Consistent() && platform.watch == old(platform.watch).(stopped := None)
      ensures platform.log == old(platform.log) + [WaitBegins] && ViewOf(platform.log) == ViewOf(old(platform.log))
      ensures FateOf(platform.log, Settingsd) == FateOf(old(platform.log), Settingsd)
      ensures FateOf(platform.log, Shell) == FateOf(old(platform.log), Shell)
      ensures platform.clock >= old(platform.clock) && platform.patience <= old(platform.patience)
      ensures completed && duration > 0 ==> platform.clock >= old(platform.clock) + duration
      ensures if completed then platform.patience < old(platform.patience) else platform.patience == 0
      ensures duration <= 0 ==>
        && completed == (old(platform.patience) > 0) && (completed ==> platform.patience == old(platform.patience) - 1)
        && platform.clock == old(platform.clock) && platform.ticks == old(platform.ticks)
    {
      hide ViewOf, FateOf, ReadyFits, WatchOf;
      platform.Note(WaitBegins);
      var remaining := duration;
      while remaining > 0
        invariant platform.Consistent() && platform.watch == old(platform.watch).(stopped := None)
        invariant platform.log == old(platform.log) + [WaitBegins]
        invariant platform.clock >= old(platform.clock) && platform.patience <= old(platform.patience)
        invariant duration <= 0 ==>
          && platform.clock == old(platform.clock) && platform.ticks == old(platform.ticks)
          && platform.patience == old(platform.patience)
        invariant duration > 0 ==> remaining >= 0 && platform.clock >= old(platform.clock) + duration - remaining
        decreases remaining
      {
        var requested := platform.ShutdownRequested();
        if requested {
          return false;
        }
        var slice := Min(MONITOR_INTERVAL, remaining);
        platform.WaitFor(slice);
        remaining := remaining - slice;
      }
      var requested := platform.ShutdownRequested();
      return !requested;
    }

    /** Polling a child until it is seen to exit or a deadline passes; the first error is kept. */
    method ReapUntil(component: Component, deadline: int, error: Option<ErrorCode>)
        returns (reaped: bool, firstError: Option<ErrorCode>)
      requires platform.Consistent() && StopsNow(platform.watch, component)
      modifies platform`calls, platform`clock, platform`ticks, platform`settingsdRunning, platform`shellRunning,
        platform`log, platform`watch
      ensures platform.Consistent() && platform.clock >= old(platform.clock)
      ensures Reaping(old(platform.watch), platform.watch)
      ensures !reaped && platform.IsRunning(component) ==>
        platform.watch.stop.pollFailed || platform.clock >= deadline
      ensures reaped ==> !platform.IsRunning(component)
      ensures platform.IsRunning(component) ==> old(platform.IsRunning(component))
      ensures platform.IsRunning(Other(component)) == old(platform.IsRunning(Other(component)))
      ensures firstError.None? ==> error.None?
      ensures platform.Still(old(platform.ticks)) && old(platform.IsRunning(component))
              && old(platform.clock) < deadline && old(platform.script(platform.calls).error).None?
              && old(platform.script(platform.calls).exited).Some? ==>
                reaped && firstError == error && platform.clock == old(platform.clock)
                  && platform.ticks >= old(platform.ticks)
      ensures Extends(old(platform.log), platform.log, component) && ViewOf(platform.log) == ViewOf(old(platform.log))
      ensures FateOf(platform.log, Other(component)) == FateOf(old(platform.log), Other(component))
    {
      hide ViewOf, FateOf, ReadyFits, WatchOf, AfterPoll;
      firstError := error;
      ghost var obeys := platform.Still(platform.ticks) && platform.IsRunning(component) && platform.clock < deadline
        && platform.script(platform.calls).error.None? && platform.script(platform.calls).exited.Some?;
      var now := platform.Now();
      while platform.IsRunning(component) && now < deadline
        invariant platform.Consistent() && platform.clock >= old(platform.clock) && now == platform.clock
        invariant Reaping(old(platform.watch), platform.watch)
        invariant platform.IsRunning(component) ==> old(platform.IsRunning(component))
        invariant platform.IsRunning(Other(component)) == old(platform.IsRunning(Other(component)))
        invariant firstError.None? ==> error.None?
        invariant obeys ==>
          && platform.calls == old(platform.calls) && firstError == error && platform.clock == old(platform.clock)
          && platform.ticks >= old(platform.ticks) && platform.IsRunning(component)
        invariant Extends(old(platform.log), platform.log, component)
        invariant ViewOf(platform.log) == ViewOf(old(platform.log))
        invariant FateOf(platform.log, Other(component)) == FateOf(old(platform.log), Other(component))
        decreases deadline - now
      {
        var status := platform.Poll(component);
        if status.Failure? {
          if firstError.None? {
            firstError := Some(status.error);
          }
          return false, firstError;
        }
        if status.value.Some? {
          return true, firstError;
        }
        now := platform.WaitSlice(deadline);
      }
      return false, firstError;
    }

    /** Termination, then a forced kill, each with its grace; a child that is gone needs neither. */
    method StopComponent(component: Component) returns (error: Option<ErrorCode>)
      requires Valid()
      modifies this`settingsdLaunchedAt, this`shellLaunchedAt, platform
      ensures Valid() && OnlyStopped(old(platform.watch), platform.watch) && old(platform.log) <= platform.log
      ensures Stops(platform.log[|old(platform.log)|..], component, error.None?)
      ensures error.None? ==>
        platform.watch.broken == old(platform.watch.broken) && platform.watch.stopped == Some(component)
      ensures error.Some? ==> platform.watch.broken
      ensures old(platform.Obedient(platform.calls)) && platform.Still(old(platform.ticks))
              && old(platform.IsRunning(component)) ==>
        error.None? && platform.clock == old(platform.clock) && platform.ticks >= old(platform.ticks)
      ensures error.None? ==> !platform.IsRunning(component)
      ensures platform.IsRunning(component) ==> old(platform.IsRunning(component))
      ensures platform.IsRunning(Other(component)) == old(platform.IsRunning(Other(component)))
      ensures LaunchTime(component) == None && LaunchTime(Other(component)) == old(LaunchTime(Other(component)))
      ensures platform.clock >= old(platform.clock) && platform.patience == old(platform.patience)
      ensures ViewOf(platform.log) == ViewOf(old(platform.log))
      ensures FateOf(platform.log, Other(component)) == FateOf(old(platform.log), Other(component))
    {
      hide ViewOf, FateOf, ReadyFits, WatchOf, Orderly, TraceOf, Chronological, DecisionsOf, SeenOf, Observe, Stops,
        Extends;
      error := StopChild(component);
      SetLaunchTime(component, None);
    }

    /** The stop itself, from its beginning to its end. */
    method StopChild(component: Component) returns (error: Option<ErrorCode>)
      requires platform.Consistent() && platform.watch.owed.None? && platform.watch.stop.NoStop?
      modifies platform`calls, platform`clock, platform`ticks, platform`settingsdRunning, platform`shellRunning,
        platform`log, platform`watch
      ensures platform.Consistent() && platform.watch.stop.NoStop? && OnlyStopped(old(platform.watch), platform.watch)
      ensures old(platform.log) <= platform.log && platform.clock >= old(platform.clock)
      ensures Stops(platform.log[|old(platform.log)|..], component, error.None?)
      ensures error.None? ==>
        platform.watch.broken == old(platform.watch.broken) && platform.watch.stopped == Some(component)
      ensures error.Some? ==> platform.watch.broken
      ensures old(platform.Obedient(platform.calls)) && platform.Still(old(platform.ticks))
              && old(platform.IsRunning(component)) ==>
        error.None? && platform.clock == old(platform.clock) && platform.ticks >= old(platform.ticks)
      ensures error.None? ==> !platform.IsRunning(component)
      ensures platform.IsRunning(component) ==> old(platform.IsRunning(component))
      ensures platform.IsRunning(Other(component)) == old(platform.IsRunning(Other(component)))
      ensures ViewOf(platform.log) == ViewOf(old(platform.log))
      ensures FateOf(platform.log, Other(component)) == FateOf(old(platform.log), Other(component))
    {
      hide ViewOf, FateOf, ReadyFits, WatchOf, Stops, Extends;
      platform.BeginStop(component);
      ghost var begun := platform.log;
      error := TerminateAndKill(component);
      OneStop(old(platform.log), begun, platform.log, component, error.None?);
      platform.EndStop(component, error.None?);
    }

    method TerminateAndKill(component: Component) returns (error: Option<ErrorCode>)
      requires platform.Consistent() && StopsNow(platform.watch, component)
      modifies platform`calls, platform`clock, platform`ticks, platform`settingsdRunning, platform`shellRunning,
        platform`log, platform`watch
      ensures platform.Consistent() && StopsNow(platform.watch, component)
      ensures OnlyStopped(old(platform.watch), platform.watch) && platform.watch.broken == old(platform.watch.broken)
      ensures platform.IsRunning(component) ==> platform.watch.stop.killed
      ensures old(platform.Obedient(platform.calls)) && platform.Still(old(platform.ticks))
              && old(platform.IsRunning(component)) ==>
        error.None? && platform.clock == old(platform.clock) && platform.ticks >= old(platform.ticks)
      ensures Extends(old(platform.log), platform.log, component) && ViewOf(platform.log) == ViewOf(old(platform.log))
      ensures FateOf(platform.log, Other(component)) == FateOf(old(platform.log), Other(component))
      ensures error.None? ==> !platform.IsRunning(component)
      ensures platform.IsRunning(component) ==> old(platform.IsRunning(component))
      ensures platform.IsRunning(Other(component)) == old(platform.IsRunning(Other(component)))
      ensures platform.clock >= old(platform.clock)
    {
      hide ViewOf, FateOf, ReadyFits, WatchOf;
      if !platform.IsRunning(component) {
        return None;
      }
      var reaped: bool;
      error := platform.RequestTerminate(component);
      var now := platform.Now();
      reaped, error := ReapUntil(component, now + TERMINATE_GRACE, error);
      if reaped {
        return;
      }
      if platform.IsRunning(component) {
        reaped, error := Kill(component, error);
        if reaped {
          return;
        }
      }
      if error.None? && platform.IsRunning(component) {
        error := Some(IoError);
      }
    }

    /** A forced kill and its grace; the first error is kept. */
    method Kill(component: Component, first: Option<ErrorCode>) returns (reaped: bool, error: Option<ErrorCode>)
      requires platform.Consistent() && StopsNow(platform.watch, component) && platform.watch.stop.terminated.Some?
      requires platform.watch.stop.pollFailed
        || platform.clock >= platform.watch.stop.terminated.value + TERMINATE_GRACE
      modifies platform`calls, platform`clock, platform`ticks, platform`settingsdRunning, platform`shellRunning,
        platform`log, platform`watch
      ensures platform.Consistent() && StopsNow(platform.watch, component) && platform.watch.stop.killed
      ensures OnlyStopped(old(platform.watch), platform.watch) && platform.watch.broken == old(platform.watch.broken)
      ensures Extends(old(platform.log), platform.log, component) && ViewOf(platform.log) == ViewOf(old(platform.log))
      ensures FateOf(platform.log, Other(component)) == FateOf(old(platform.log), Other(component))
      ensures reaped ==> !platform.IsRunning(component)
      ensures error.None? ==> first.None?
      ensures platform.IsRunning(component) ==> old(platform.IsRunning(component))
      ensures platform.IsRunning(Other(component)) == old(platform.IsRunning(Other(component)))
      ensures platform.clock >= old(platform.clock)
    {
      hide ViewOf, FateOf, ReadyFits, WatchOf;
      error := first;
      var killed := platform.ForceKill(component);
      if killed.Some? && error.None? {
        error := killed;
      }
      var now := platform.Now();
      reaped, error := ReapUntil(component, now + KILL_REAP_GRACE, error);
    }

    /** The shell is stopped before the settings service; both are tried, and the first error is kept. */
    method ShutdownAll() returns (error: Option<ErrorCode>)
      requires Valid()
      modifies this`settingsdLaunchedAt, this`shellLaunchedAt, platform
      ensures Valid()
      ensures error.None? ==>
        && !platform.shellRunning && !platform.settingsdRunning && StoppedInOrder(old(platform.log), platform.log)
        && platform.watch.broken == old(platform.watch.broken)
      ensures platform.clock >= old(platform.clock) && platform.patience == old(platform.patience)
      ensures ViewOf(platform.log) == ViewOf(old(platform.log)) && OnlyStopped(old(platform.watch), platform.watch)
      ensures old(platform.log) <= platform.log
    {
      hide ViewOf, FateOf, ReadyFits, WatchOf, Sound, SeenOf, SeenBy, Orderly, TraceOf, Chronological, DecisionsOf,
        Stops;
      error := StopComponent(Shell);
      ghost var middle := platform.log;
      var second := StopComponent(Settingsd);
      if error.None? {
        error := second;
      }
      assert error.None? ==> StoppedInOrder(old(platform.log), platform.log) by {
        if error.None? {
          InOrder(old(platform.log), middle, platform.log);
        }
      }
    }

    /**
     The exit that the policy is told of is what is owed, or else the failure to become ready of a component that
     was stopped for it.
     */
    ghost predicate MayTell(component: Component, reason: ExitReason)
      reads this, platform
    {
      MayTellOf(platform.watch, component, reason) && !platform.watch.broken
    }

    /** The policy is told of an exit, which it has now been observed to be, and decides. */
    method Decide(component: Component, reason: ExitReason, launchedAt: int) returns (decision: Decision)
      requires Sound() && MayTell(component, reason)
      requires launchedAt <= platform.clock && SeenOf(history, component, launchedAt) && LaunchTime(component).None?
      modifies this`recovery, this`history, platform`clock, platform`ticks, platform`log, platform`watch
      ensures Sound() && platform.clock >= old(platform.clock) && platform.ticks == old(platform.ticks) + 1
      ensures var e := Exit(component, reason, launchedAt, platform.clock);
        && history == old(history) + [e] && platform.clock == old(platform.clock + platform.tick(platform.ticks))
        && platform.watch == AfterTold(old(platform.watch), e, decision)
        && platform.log == old(platform.log) + [PolicyTold(e, decision)]
        && (recovery, Success(decision))
            == Observe(config, old(recovery), component, reason, launchedAt, platform.clock)
      ensures ViewOf(platform.log) == ViewOf(old(platform.log))
      ensures FateOf(platform.log, Settingsd) == FateOf(old(platform.log), Settingsd)
      ensures FateOf(platform.log, Shell) == FateOf(old(platform.log), Shell)
    {
      hide ViewOf, FateOf, ReadyFits, WatchOf, Orderly, TraceOf, Chronological, Observe, SeenBy, SeenOf, DecisionsOf,
        AfterTold;
      var now := platform.Now();
      ghost var e := Exit(component, reason, launchedAt, now);
      ObserveDecides(config, recovery, component, reason, launchedAt, now);
      var (next, decided) := Observe(config, recovery, component, reason, launchedAt, now);
      DecisionExtends(config, history, e, old(platform.clock));
      DecisionIsListed(config, history, e);
      if LaunchTime(Other(component)).Some? {
        OtherStaysSeen(history, e, Other(component), LaunchTime(Other(component)).value);
      }
      recovery, history := next, history + [e];
      decision := decided.value;
      platform.Tell(Exit(component, reason, launchedAt, now), decision);
    }

    /** The policy's decision on an exit, with the delay before a restart waited for. */
    method Recover(component: Component, reason: ExitReason, launchedAt: int) returns (r: Result<Progress>)
      requires Sound() && Rested() && MayTell(component, reason)
      requires launchedAt <= platform.clock && SeenOf(history, component, launchedAt) && LaunchTime(component).None?
      modifies this`recovery, this`history, platform`clock, platform`ticks, platform`patience, platform`log,
        platform`watch
      ensures Going()
      ensures history
           == old(history) + [Exit(component, reason, launchedAt, old(platform.clock + platform.tick(platform.ticks)))]
      ensures recovery.active == old(recovery.active)
      ensures r == Success(SafeModeNeeded) ==> recovery.offered && !recovery.active
      ensures old(recovery.active) ==> r != Success(Running) && r != Success(SafeModeNeeded)
      ensures reason == Clean ==> platform.patience == old(platform.patience)
      ensures platform.clock >= old(platform.clock) && platform.patience <= old(platform.patience)
      ensures r == Success(Running) ==> platform.patience < old(platform.patience)
      ensures r == Success(Running) ==>
        platform.clock >= history[|history| - 1].observedAt + BackoffOn(config, old(recovery), history[|history| - 1])
      ensures Obeys(r, ActionOn(config, old(recovery), history[|history| - 1]), platform.patience)
      ensures r == Success(CleanStop) <==> reason == Clean
      ensures recovery == Told(config, old(recovery), history[|history| - 1])
      ensures BudgetOf(config, component).maximumBackoff == 0 && old(platform.patience) > 0
              && ActionOn(config, old(recovery), history[|history| - 1]) == Some(RestartComponent) ==>
                && r == Success(Running) && platform.patience == old(platform.patience) - 1
                && platform.clock == history[|history| - 1].observedAt && platform.ticks == old(platform.ticks) + 1
      ensures OnlyTold(component) && old(platform.log) <= platform.log
    {
      hide Observe, ViewOf, FateOf, ReadyFits, WatchOf, Orderly, TraceOf, Chronological, DecisionsOf;
      var decision := Decide(component, reason, launchedAt);
      ObserveDecides(config, old(recovery), component, reason, launchedAt, platform.clock);
      match decision.action {
        case StopClean => return Success(CleanStop);
        case RestartComponent =>
          var completed := WaitInterruptibly(decision.backoff);
          return Success(if completed then Running else ShutdownAsked);
        case EnterSafeMode => return Success(SafeModeNeeded);
        case StopFailed => return Failure(IoError);
      }
    }

    /** What telling the policy leaves alone. */
    twostate predicate OnlyTold(component: Component)
      reads this, platform
    {
      && ViewOf(platform.log) == ViewOf(old(platform.log)) && platform.watch.round == old(platform.watch.round)
      && FateOf(platform.log, Settingsd) == FateOf(old(platform.log), Settingsd)
      && FateOf(platform.log, Shell) == FateOf(old(platform.log), Shell)
      && StandingOf(platform.watch, Other(component)) == old(StandingOf(platform.watch, Other(component)))
    }

    /** What a start promises: a component that runs, or one that does not and the reason why. */
    ghost predicate Started(component: Component, r: Result<Progress>)
      reads this, platform
    {
      && (r == Success(Running) ==>
            && platform.IsRunning(component) && LaunchTime(component).Some?
            && StandingOf(platform.watch, component).ready)
      && (r.Success? ==> !platform.watch.broken)
      && (r.Success? && r != Success(Running) ==> !platform.IsRunning(component))
      && (r == Success(SafeModeNeeded) ==> recovery.offered && !recovery.active)
      && (recovery.active ==> r != Success(SafeModeNeeded))
      && (r == Success(CleanStop) ==> FateOf(platform.log, component) == Left(Clean))
    }

    /** What a start leaves alone. */
    twostate predicate KeepsOther(component: Component)
      reads this, platform
    {
      && platform.IsRunning(Other(component)) == old(platform.IsRunning(Other(component)))
      && LaunchTime(Other(component)) == old(LaunchTime(Other(component)))
      && recovery.active == old(recovery.active)
      && SafeLaunches(ViewOf(platform.log), Other(component))
          == old(SafeLaunches(ViewOf(platform.log), Other(component)))
      && platform.clock >= old(platform.clock) && platform.patience <= old(platform.patience)
      && old(platform.log) <= platform.log && old(history) <= history
      && Onward(old(platform.watch.round), platform.watch.round)
      && StandingOf(platform.watch, Other(component)) == old(StandingOf(platform.watch, Other(component)))
    }

    /** A failure at that time would be answered by an immediate restart. */
    ghost predicate FailsOnce(component: Component, s: State, time: int, n: nat)
    {
      && BudgetOf(config, component).maximumBackoff == 0 && platform.tick(n) == 0 && platform.tick(n + 1) == 0
      && ActionOn(config, s, Exit(component, Failed, time, time)) == Some(RestartComponent)
    }

    /** A launch that failed is recovered from the present moment. */
    method RecoverFromFailure(component: Component) returns (a: Attempt)
      requires Owes(component, Failed) && !platform.IsRunning(component)
      modifies this, platform`clock, platform`ticks, platform`patience, platform`log, platform`watch
      ensures Going() && KeepsOther(component) && a != Continue
      ensures a.Finish? ==> Started(component, a.result)
      ensures a == Relaunch ==> !recovery.active && platform.patience < old(platform.patience)
      ensures !platform.IsRunning(component)
      ensures FailsOnce(component, old(recovery), old(platform.clock), old(platform.ticks))
              && old(platform.patience) > 0 ==>
        && a == Relaunch && platform.patience == old(platform.patience) - 1
        && platform.clock == old(platform.clock) && platform.ticks == old(platform.ticks) + 2
        && history == old(history) + [Exit(component, Failed, platform.clock, platform.clock)]
        && recovery == Told(config, old(recovery), history[|history| - 1])
    {
      hide ViewOf, FateOf, ReadyFits, WatchOf, Orderly, TraceOf, Chronological, Observe, SeenOf, DecisionsOf;
      SetLaunchTime(component, None);
      var now := Look();
      var r := Recover(component, Failed, now);
      a := if r == Success(Running) then Relaunch else Finish(r);
    }

    /** The launch itself, with its time recorded before it is tried. */
    method LaunchNow(component: Component) returns (failed: Option<ErrorCode>)
      requires Going() && !platform.IsRunning(component) && platform.MayLaunch(component)
      requires recovery.active ==> SafeLaunches(ViewOf(platform.log), component) == 0
      modifies this`settingsdLaunchedAt, this`shellLaunchedAt
      modifies platform`calls, platform`clock, platform`ticks, platform`settingsdRunning, platform`shellRunning,
        platform`log, platform`watch
      ensures if failed.None? then Going() else Owes(component, Failed)
      ensures failed == old(platform.script(platform.calls)).error
      ensures platform.IsRunning(component) == failed.None? && LaunchTime(component) == Some(platform.clock)
      ensures platform.IsRunning(Other(component)) == old(platform.IsRunning(Other(component)))
      ensures LaunchTime(Other(component)) == old(LaunchTime(Other(component)))
      ensures SafeLaunches(ViewOf(platform.log), Other(component))
           == old(SafeLaunches(ViewOf(platform.log), Other(component)))
      ensures platform.watch.round == old(platform.watch.round)
      ensures StandingOf(platform.watch, Other(component)) == old(StandingOf(platform.watch, Other(component)))
      ensures old(platform.log) <= platform.log && platform.calls == old(platform.calls) + 1
      ensures platform.clock == old(platform.clock + platform.tick(platform.ticks))
      ensures platform.ticks == old(platform.ticks) + 1
    {
      hide ViewOf, FateOf, ReadyFits, WatchOf, TraceOf, Chronological;
      var launchedAt := platform.Now();
      SetLaunchTime(component, Some(launchedAt));
      failed := platform.Launch(component, recovery.active);
    }

    /** One launch and the wait for its readiness. */
    method LaunchOnce(component: Component) returns (a: Attempt)
      requires Going() && !platform.IsRunning(component)
      requires recovery.active ==> SafeLaunches(ViewOf(platform.log), component) == 0
      modifies this, platform
      ensures Valid() && KeepsOther(component) && a != Continue
      ensures !a.Finish? ==> Going()
      ensures a.Finish? ==> Started(component, a.result)
      ensures a == Relaunch ==>
        !platform.IsRunning(component) && !recovery.active && platform.patience < old(platform.patience)
      ensures old(Smooth(component)) ==>
        && a == Finish(Success(if platform.script(old(platform.calls) + 1).exited.Some? then CleanStop else Running))
        && platform.patience == old(platform.patience) - 2
        && platform.calls == old(platform.calls) + (if a.result == Success(Running) then 3 else 2)
      ensures old(FailsNow(component)) ==>
        && a == Relaunch && platform.patience == old(platform.patience) - 2 && platform.calls == old(platform.calls) + 1
        && platform.clock == old(platform.clock) && platform.ticks == old(platform.ticks) + 3
        && history == old(history) + [FailedLaunch(component, platform.clock)]
        && recovery == Told(config, old(recovery), FailedLaunch(component, platform.clock))
      ensures old(StallsNow(component)) ==>
        && history == old(history) + [StallExit(component, old(platform.clock))]
        && Obeys(AsResult(a), ActionOn(config, old(recovery), history[|history| - 1]), platform.patience)
    {
      hide ViewOf, FateOf, ReadyFits, WatchOf, TraceOf, Chronological, Orderly, Observe, SeenOf, SeenBy, Sound,
        DecisionsOf;
      var requested := Asked();
      if requested {
        return Finish(Success(ShutdownAsked));
      }
      var failed := LaunchNow(component);
      if failed.Some? {
        a := RecoverFromFailure(component);
        return;
      }
      a := AwaitReadiness(component);
    }

    /**
     Launching until the component is ready, recovery gives up, or shutdown is requested. In safe mode there is
     one launch and no restart.
     */
    method StartUntilStable(component: Component) returns (r: Result<Progress>)
      requires Going() && !platform.IsRunning(component)
      requires recovery.active ==> SafeLaunches(ViewOf(platform.log), component) == 0
      modifies this, platform
      ensures Valid() && Started(component, r) && KeepsOther(component) && FirstTry(component, r)
      ensures old(FailsThenStalls(component)) ==>
        && r == Success(SafeModeNeeded)
        && history == old(history) + [FailedLaunch(component, old(platform.clock)),
            StallExit(component, old(platform.clock))]
    {
      hide ViewOf, FateOf, ReadyFits, WatchOf, Orderly, Started, TraceOf, Chronological, Observe, Valid, Smooth;
      var a := LaunchOnce(component);
      assert InStallStory(component, a);
      hide FailsThenStalls, StallsNow, FailsNow;
      while !a.Finish?
        invariant Valid() && KeepsOther(component) && a != Continue && (!a.Finish? ==> Going())
        invariant a.Finish? ==> Started(component, a.result)
        invariant a == Relaunch ==> !platform.IsRunning(component) && !recovery.active
        invariant a.Finish? ==> FirstTry(component, a.result)
        invariant a == Relaunch ==> !old(Smooth(component))
        invariant InStallStory(component, a)
        decreases platform.patience, if a.Finish? then 0 else 1
      {
        a := LaunchOnce(component);
      }
      r := a.result;
    }

    /** The next launch fails, and is to be tried again at once. */
    ghost predicate FailsNow(component: Component)
      reads this, platform
    {
      && platform.patience >= 2 && platform.script(platform.calls).error.Some? && platform.tick(platform.ticks) == 0
      && FailsOnce(component, recovery, platform.clock, platform.ticks + 1)
    }

    /** The next launch succeeds, and the child stalls. */
    ghost predicate StallsNow(component: Component)
      reads this, platform
    {
      && platform.patience >= 2 && platform.script(platform.calls).error.None? && platform.tick(platform.ticks) == 0
      && platform.Stalls(platform.calls + 1, platform.ticks + 1)
    }

    /** The first launch fails; the second child stalls; after both the policy has no restart left. */
    ghost predicate FailsThenStalls(component: Component)
      reads this, platform
    {
      var k, n, time := platform.calls, platform.ticks, platform.clock;
      && FailsNow(component) && platform.patience >= 4
      && platform.script(k + 1).error.None? && platform.tick(n + 3) == 0 && platform.Stalls(k + 2, n + 4)
      && ActionOn(config, Told(config, recovery, FailedLaunch(component, time)), StallExit(component, time))
          == Some(Action.EnterSafeMode)
    }

    /** After the failed first launch, and after the stall. */
    twostate predicate InStallStory(component: Component, a: Attempt)
      reads this, platform
    {
      old(FailsThenStalls(component)) ==>
        if a == Relaunch then
          && StallsNow(component) && platform.clock == old(platform.clock)
          && history == old(history) + [FailedLaunch(component, platform.clock)]
          && ActionOn(config, recovery, StallExit(component, platform.clock)) == Some(Action.EnterSafeMode)
        else
          && a == Finish(Success(SafeModeNeeded))
          && history == old(history) + [FailedLaunch(component, old(platform.clock))]
              + [StallExit(component, old(platform.clock))]
    }

    /**
     The first launch meets no obstacle: no shutdown, no launch error, no error of the first poll, a clock
     that stands still.
     */
    ghost predicate Smooth(component: Component)
      reads this, platform
    {
      && platform.patience >= 2
      && platform.script(platform.calls).error.None?
      && platform.script(platform.calls + 1).error.None?
      && (platform.script(platform.calls + 1).exited == None ==> platform.script(platform.calls + 2).error.None?)
      && (platform.script(platform.calls + 1).exited.Some? ==>
          platform.script(platform.calls + 1).exited.value == Clean)
      && (forall n :: platform.tick(n) == 0)
    }

    /** A smooth first launch ends with the exit that its first poll saw, or with a ready component. */
    twostate predicate FirstTry(component: Component, r: Result<Progress>)
      reads this, platform
    {
      old(Smooth(component)) ==>
        && r == Success(if platform.script(old(platform.calls) + 1).exited.Some? then CleanStop else Running)
        && platform.patience == old(platform.patience) - 2
        && platform.calls == old(platform.calls) + (if r == Success(Running) then 3 else 2)
    }

    method StopForShutdown(component: Component) returns (a: Attempt)
      requires Going()
      modifies this, platform
      ensures Valid() && KeepsOther(component) && ViewOf(platform.log) == ViewOf(old(platform.log))
      ensures a.Finish? && a.result != Success(Running) && Started(component, a.result)
    {
      hide ViewOf, FateOf, ReadyFits, WatchOf, Orderly, TraceOf, Chronological;
      var stopError := StopComponent(component);
      a := Finish(if stopError.None? then Success(ShutdownAsked) else Failure(stopError.value));
    }

    /** One round of the readiness loop: shutdown, an exit, the deadline and the probe are looked at in turn. */
    method AttemptReadiness(component: Component, deadline: int) returns (a: Attempt)
      requires Going() && platform.IsRunning(component) && LaunchTime(component).Some?
      modifies this, platform
      ensures Valid() && KeepsOther(component) && ViewOf(platform.log) == ViewOf(old(platform.log))
      ensures !a.Finish? ==> Going()
      ensures a.Finish? ==> Started(component, a.result)
      ensures a == Relaunch ==> !platform.IsRunning(component) && !recovery.active
      ensures a == Continue ==>
        platform.IsRunning(component) && LaunchTime(component).Some? && platform.patience < old(platform.patience)
      ensures old(platform.patience) >= 1 && deadline == old(platform.clock) + READINESS_TIMEOUT
              && old(platform.Unready(platform.calls, platform.ticks)) ==>
        && history == old(history) + [StallExit(component, old(platform.clock))] && a != Continue
        && Obeys(AsResult(a), ActionOn(config, old(recovery), history[|history| - 1]), platform.patience)
      ensures old(SmoothAfterLaunch(component)) && old(platform.clock) < deadline ==>
        && a == Finish(Success(if platform.script(old(platform.calls)).exited.Some? then CleanStop else Running))
        && platform.patience == old(platform.patience) - 1
        && platform.calls == old(platform.calls) + (if a.result == Success(Running) then 2 else 1)
    {
      hide ViewOf, FateOf, ReadyFits, WatchOf, Orderly, TraceOf, Chronological, Observe, SeenOf, SeenBy, DecisionsOf,
        Sound;
      var requested := Asked();
      if requested {
        a := StopForShutdown(component);
        return;
      }
      a := CheckReadiness(component, deadline);
    }

    /** A component that could not be polled is stopped, whether or not that succeeds. */
    method StopUnseen(component: Component)
      requires Valid()
      modifies this`settingsdLaunchedAt, this`shellLaunchedAt, platform
      ensures Valid() && KeepsOther(component) && ViewOf(platform.log) == ViewOf(old(platform.log))
    {
      hide ViewOf, FateOf, ReadyFits, WatchOf, Orderly, TraceOf, Chronological, Observe, SeenOf, SeenBy, DecisionsOf,
        Sound;
      var ignored := StopComponent(component);
    }

    /** The rest of the round: an exit, the deadline and the probe. */
    method CheckReadiness(component: Component, deadline: int) returns (a: Attempt)
      requires Going() && platform.IsRunning(component) && LaunchTime(component).Some?
      modifies this, platform
      ensures Valid() && KeepsOther(component) && ViewOf(platform.log) == ViewOf(old(platform.log))
      ensures !a.Finish? ==> Going()
      ensures a.Finish? ==> Started(component, a.result)
      ensures a == Relaunch ==> !platform.IsRunning(component) && !recovery.active
      ensures a == Continue ==> platform.IsRunning(component) && LaunchTime(component).Some?
      ensures deadline == old(platform.clock) + READINESS_TIMEOUT
              && old(platform.Unready(platform.calls, platform.ticks)) ==>
        && history == old(history) + [StallExit(component, old(platform.clock))] && a != Continue
        && Obeys(AsResult(a), ActionOn(config, old(recovery), history[|history| - 1]), platform.patience)
      ensures old(SmoothFrom(platform.calls)) && old(platform.clock) < deadline ==>
        && a == Finish(Success(if platform.script(old(platform.calls)).exited.Some? then CleanStop else Running))
        && platform.patience == old(platform.patience)
        && platform.calls == old(platform.calls) + (if a.result == Success(Running) then 2 else 1)
    {
      hide ViewOf, FateOf, ReadyFits, WatchOf, Orderly, TraceOf, Chronological, Observe, SeenOf, SeenBy, DecisionsOf,
        Sound, ActionOn, Told, Obeys, BackoffOn;
      var status := PollChild(component);
      if status.Failure? {
        StopUnseen(component);
        return Finish(Failure(IoError));
      }
      if status.value.Some? {
        a := RecoverAfter(component, status.value.value);
        return;
      }
      a := ProbeReadiness(component, deadline);
    }

    /** One probe; an error that readiness cannot recover from ends the session. */
    method ProbeChild(component: Component) returns (error: Option<ErrorCode>)
      requires Going() && platform.IsRunning(component)
      modifies platform`calls, platform`log, platform`watch
      ensures Valid() && KeepsOther(component) && ViewOf(platform.log) == ViewOf(old(platform.log))
      ensures error == old(platform.script(platform.calls)).error && platform.calls == old(platform.calls) + 1
      ensures platform.watch.broken <==> error.Some? && PermanentReadinessError(error.value)
      ensures error.None? ==> StandingOf(platform.watch, component).ready
    {
      hide ViewOf, FateOf, ReadyFits, WatchOf, Orderly, TraceOf, Chronological, SeenOf, SeenBy, DecisionsOf;
      error := platform.Probe(component);
    }

    /** The end of a round: the deadline, and one probe before it. */
    method ProbeReadiness(component: Component, deadline: int) returns (a: Attempt)
      requires Going() && platform.IsRunning(component) && LaunchTime(component).Some?
      modifies this, platform
      ensures Valid() && KeepsOther(component) && ViewOf(platform.log) == ViewOf(old(platform.log))
      ensures !a.Finish? ==> Going()
      ensures a.Finish? ==> Started(component, a.result)
      ensures a == Relaunch ==> !platform.IsRunning(component) && !recovery.active
      ensures a == Continue ==> platform.IsRunning(component) && LaunchTime(component).Some?
      ensures deadline == old(platform.clock) + READINESS_TIMEOUT == old(platform.clock + platform.tick(platform.ticks))
              && platform.Still(old(platform.ticks) + 1) && old(platform.Obedient(platform.calls)) ==>
        && history == old(history) + [StallExit(component, old(platform.clock))] && a != Continue
        && Obeys(AsResult(a), ActionOn(config, old(recovery), history[|history| - 1]), platform.patience)
      ensures old(platform.clock + platform.tick(platform.ticks)) < deadline
              && old(platform.script(platform.calls).error).None? ==>
        a == Finish(Success(Running)) && platform.patience == old(platform.patience)
          && platform.calls == old(platform.calls) + 1
    {
      hide ViewOf, FateOf, ReadyFits, WatchOf, Orderly, TraceOf, Chronological, Observe, SeenOf, SeenBy, DecisionsOf,
        ActionOn, Told, Obeys, BackoffOn;
      var now := Look();
      WaitSliceIsBounded(deadline, now, READINESS_ATTEMPT_TIMEOUT);
      if WaitSliceUntil(deadline, now, READINESS_ATTEMPT_TIMEOUT) == 0 {
        a := StopAndRecover(component, ReadinessTimeout, None);
        return;
      }
      var unready := ProbeChild(component);
      if unready.None? {
        return Finish(Success(Running));
      }
      if unready.value != NotFound {
        a := StopAndRecover(component, Failed, unready);
        return;
      }
      return Continue;
    }

    /** Between two probes of the settings service there is a short interruptible wait. */
    method PauseBeforeRetry(component: Component, deadline: int) returns (a: Attempt)
      requires Going() && platform.IsRunning(component) && LaunchTime(component).Some?
      modifies this, platform
      ensures Valid() && KeepsOther(component) && ViewOf(platform.log) == ViewOf(old(platform.log))
      ensures !a.Finish? ==> Going()
      ensures a == Continue ==> platform.IsRunning(component) && LaunchTime(component).Some?
      ensures a != Relaunch && (a.Finish? ==> Started(component, a.result))
    {
      hide ViewOf, FateOf, ReadyFits, WatchOf, Orderly, TraceOf, Chronological, DecisionsOf, Observe;
      if component == Settingsd {
        var now := Look();
        WaitSliceIsBounded(deadline, now, MONITOR_INTERVAL);
        var delay := WaitSliceUntil(deadline, now, MONITOR_INTERVAL);
        if delay > 0 {
          var completed := WaitInterruptibly(delay);
          if !completed {
            a := StopForShutdown(component);
            return;
          }
        }
      }
      return Continue;
    }

    method RetryReadiness(component: Component, deadline: int) returns (a: Attempt)
      requires Going() && platform.IsRunning(component) && LaunchTime(component).Some?
      modifies this, platform
      ensures Valid() && KeepsOther(component) && ViewOf(platform.log) == ViewOf(old(platform.log))
      ensures !a.Finish? ==> Going()
      ensures a.Finish? ==> Started(component, a.result)
      ensures a == Relaunch ==> !platform.IsRunning(component) && !recovery.active
      ensures a == Continue ==>
        platform.IsRunning(component) && LaunchTime(component).Some? && platform.patience < old(platform.patience)
    {
      hide ViewOf, FateOf, ReadyFits, WatchOf, Orderly, Started, TraceOf, Chronological, Valid, Observe, Obeys;
      a := PauseBeforeRetry(component, deadline);
      if a == Continue {
        a := AttemptReadiness(component, deadline);
      }
    }

    /** The readiness loop after a successful launch. */
    method AwaitReadiness(component: Component) returns (a: Attempt)
      requires Going() && platform.IsRunning(component) && LaunchTime(component).Some?
      modifies this, platform
      ensures Valid() && KeepsOther(component) && a != Continue
      ensures !a.Finish? ==> Going()
      ensures a.Finish? ==> Started(component, a.result)
      ensures a == Relaunch ==> !platform.IsRunning(component) && !recovery.active
      ensures ViewOf(platform.log) == ViewOf(old(platform.log))
      ensures old(platform.patience) >= 1 && old(platform.Stalls(platform.calls, platform.ticks)) ==>
        && history == old(history) + [StallExit(component, old(platform.clock))]
        && Obeys(AsResult(a), ActionOn(config, old(recovery), history[|history| - 1]), platform.patience)
      ensures old(SmoothAfterLaunch(component)) ==>
        && a == Finish(Success(if platform.script(old(platform.calls)).exited.Some? then CleanStop else Running))
        && platform.patience == old(platform.patience) - 1
        && platform.calls == old(platform.calls) + (if a.result == Success(Running) then 2 else 1)
    {
      hide ViewOf, FateOf, ReadyFits, WatchOf, Orderly, Started, TraceOf, Chronological, DecisionsOf, SeenOf, SeenBy,
        Observe;
      ghost var stalls := platform.patience >= 1 && platform.Stalls(platform.calls, platform.ticks);
      ghost var smooth := SmoothAfterLaunch(component);
      var start := Look();
      var deadline := start + READINESS_TIMEOUT;
      assert Valid();
      hide Valid, Observe;
      a := AttemptReadiness(component, deadline);
      while a == Continue
        invariant Valid() && KeepsOther(component) && ViewOf(platform.log) == ViewOf(old(platform.log))
        invariant !a.Finish? ==> Going()
        invariant a.Finish? ==> Started(component, a.result)
        invariant a == Relaunch ==> !platform.IsRunning(component) && !recovery.active
        invariant a == Continue ==> platform.IsRunning(component) && LaunchTime(component).Some?
        invariant stalls ==>
          && history == old(history) + [StallExit(component, old(platform.clock))] && a != Continue
          && Obeys(AsResult(a), ActionOn(config, old(recovery), history[|history| - 1]), platform.patience)
        invariant smooth ==>
          && a == Finish(Success(if platform.script(old(platform.calls)).exited.Some? then CleanStop else Running))
          && platform.patience == old(platform.patience) - 1
          && platform.calls == old(platform.calls) + (if a.result == Success(Running) then 2 else 1)
        decreases platform.patience, if a == Continue then 1 else 0
      {
        a := RetryReadiness(component, deadline);
      }
    }

    ghost predicate SmoothAfterLaunch(component: Component)
      reads this, platform
    {
      platform.patience >= 1 && SmoothFrom(platform.calls)
    }

    /** A child that is ready when it is first polled or exits cleanly, and a clock that stands still. */
    ghost predicate SmoothFrom(call: nat) {
      && platform.script(call).error.None?
      && (platform.script(call).exited == None ==> platform.script(call + 1).error.None?)
      && (platform.script(call).exited.Some? ==> platform.script(call).exited.value == Clean)
      && (forall n :: platform.tick(n) == 0)
    }

    /** The recorded launch time, which is forgotten; the present moment if there is none. */
    method TakeLaunchTime(component: Component) returns (launchedAt: int)
      requires Sound() && Rested()
      modifies this`settingsdLaunchedAt, this`shellLaunchedAt, platform`clock, platform`ticks
      ensures Sound() && Rested() && LaunchTime(component).None?
      ensures LaunchTime(Other(component)) == old(LaunchTime(Other(component)))
      ensures platform.clock == old(platform.clock + platform.tick(platform.ticks))
      ensures platform.ticks == old(platform.ticks) + 1
      ensures launchedAt == ValueOr(old(LaunchTime(component)), platform.clock)
      ensures launchedAt <= platform.clock && SeenOf(history, component, launchedAt)
    {
      hide ViewOf, FateOf, ReadyFits, WatchOf, Orderly, TraceOf, Chronological, DecisionsOf, SeenOf, SeenBy;
      var present := Look();
      launchedAt := ValueOr(LaunchTime(component), present);
      SetLaunchTime(component, None);
    }

    /** A child that was seen to exit is recovered from its launch time. */
    method RecoverAfter(component: Component, reason: ExitReason) returns (a: Attempt)
      requires Owes(component, reason) && !platform.IsRunning(component) && LaunchTime(component).Some?
      requires FateOf(platform.log, component) == Left(reason)
      modifies this, platform`clock, platform`ticks, platform`patience, platform`log, platform`watch
      ensures Going() && KeepsOther(component) && a != Continue
      ensures a.Finish? ==> Started(component, a.result) && a.result != Success(Running)
      ensures a == Relaunch ==> !recovery.active
      ensures !platform.IsRunning(component) && ViewOf(platform.log) == ViewOf(old(platform.log))
      ensures reason == Clean ==> a == Finish(Success(CleanStop)) && platform.patience == old(platform.patience)
      ensures RecoveredFrom(old(history), history, component, reason, old(LaunchTime(component)).value)
    {
      hide ViewOf, FateOf, ReadyFits, WatchOf, Orderly, TraceOf, Chronological, Observe, SeenOf, SeenBy, DecisionsOf,
        Sound;
      var launchedAt := TakeLaunchTime(component);
      var r := Recover(component, reason, launchedAt);
      a := if r == Success(Running) then Relaunch else Finish(r);
    }

    /**
     A child that is not ready in time, or fails to become ready, is stopped and recovered. Stopping clears its
     launch time, so the recovery takes a time after the stop for its launch, and observes the exit one look at
     the clock later, however long the child was up.
     */
    method StopAndRecover(component: Component, reason: ExitReason, unready: Option<ErrorCode>) returns (a: Attempt)
      requires Valid() && (reason == Failed || reason == ReadinessTimeout)
      requires platform.watch.broken <==> unready.Some? && PermanentReadinessError(unready.value)
      modifies this, platform
      ensures Valid() && KeepsOther(component) && a != Continue
      ensures !a.Finish? ==> Going()
      ensures a.Finish? ==> Started(component, a.result) && a.result != Success(Running)
      ensures a == Relaunch ==> !platform.IsRunning(component) && !recovery.active
      ensures ViewOf(platform.log) == ViewOf(old(platform.log))
      ensures history == old(history) ==> a.Finish? && a.result.Failure?
      ensures old(platform.Obedient(platform.calls)) && platform.Still(old(platform.ticks))
              && old(platform.IsRunning(component)) && unready.None? ==>
        history == old(history) + [Exit(component, reason, old(platform.clock), old(platform.clock))]
      ensures history != old(history) ==>
        && |history| == |old(history)| + 1 && history[..|old(history)|] == old(history)
        && var e := history[|old(history)|];
           && e.Exit? && e.component == component && e.reason == reason
           && old(platform.clock) <= e.launchedAt
           && (exists n :: e.observedAt == e.launchedAt + platform.tick(n))
           && recovery == Told(config, old(recovery), e)
           && Obeys(AsResult(a), ActionOn(config, old(recovery), e), platform.patience)
    {
      hide ViewOf, FateOf, ReadyFits, WatchOf, Orderly, TraceOf, Chronological, Observe, SeenOf, SeenBy, DecisionsOf,
        Sound, ActionOn, Told, Obeys, BackoffOn;
      var stopError := StopComponent(component);
      if stopError.Some? {
        return Finish(Failure(stopError.value));
      }
      if unready.Some? && PermanentReadinessError(unready.value) {
        return Finish(Failure(ValidationError));
      }
      a := RecoverStopped(component, reason);
    }

    /** The recovery of a component that was just stopped. */
    method RecoverStopped(component: Component, reason: ExitReason) returns (a: Attempt)
      requires Going() && (reason == Failed || reason == ReadinessTimeout) && !platform.IsRunning(component)
      requires platform.watch.stopped == Some(component) && LaunchTime(component).None?
      modifies this, platform`clock, platform`ticks, platform`patience, platform`log, platform`watch
      ensures Going() && KeepsOther(component) && a != Continue && !platform.IsRunning(component)
      ensures a.Finish? ==> Started(component, a.result) && a.result != Success(Running)
      ensures a == Relaunch ==> !recovery.active
      ensures ViewOf(platform.log) == ViewOf(old(platform.log))
      ensures var launchedAt := old(platform.clock + platform.tick(platform.ticks));
        var e := Exit(component, reason, launchedAt, launchedAt + platform.tick(old(platform.ticks) + 1));
        && history == old(history) + [e] && recovery == Told(config, old(recovery), e)
        && Obeys(AsResult(a), ActionOn(config, old(recovery), e), platform.patience)
    {
      hide ViewOf, FateOf, ReadyFits, WatchOf, Orderly, TraceOf, Chronological, Observe, SeenOf, SeenBy, DecisionsOf,
        Sound, ActionOn, Told, BackoffOn;
      var launchedAt := TakeLaunchTime(component);
      var r := Recover(component, reason, launchedAt);
      a := if r == Success(Running) then Relaunch else Finish(r);
    }

    /** An exit of a running component is recovered from its launch time, and the component started again. */
    method HandleExit(component: Component, reason: ExitReason) returns (r: Result<Progress>)
      requires Owes(component, reason) && !platform.IsRunning(component)
      requires FateOf(platform.log, component) == Left(reason)
      modifies this, platform
      ensures old(LaunchTime(component)).None? ==> r == Failure(IoError) && Owes(component, reason)
      ensures old(LaunchTime(component)).Some? ==> Valid()
      ensures Started(component, r) && KeepsOther(component)
      ensures old(LaunchTime(component)).Some? ==>
        RecoveredFrom(old(history), history, component, reason, old(LaunchTime(component)).value)
    {
      hide ViewOf, FateOf, ReadyFits, WatchOf, Orderly, TraceOf, Chronological, Observe, SeenOf, SeenBy, DecisionsOf;
      var launchedAt := LaunchTime(component);
      if launchedAt.None? {
        return Failure(IoError);
      }
      SetLaunchTime(component, None);
      r := Recover(component, reason, launchedAt.value);
      if r != Success(Running) {
        return;
      }
      r := StartUntilStable(component);
    }

    /** The one safe-mode start: everything is stopped, and each component is launched once. */
    method EnterSafeMode() returns (r: Result<Progress>)
      requires Going() && recovery.offered && !recovery.active
      modifies this, platform
      ensures Valid() && old(platform.log) <= platform.log && old(history) <= history
      ensures platform.patience <= old(platform.patience) && Onward(old(platform.watch.round), platform.watch.round)
      ensures r != Success(SafeModeNeeded) && (r.Success? ==> Going())
      ensures r == Success(Running) ==> recovery.active && platform.settingsdRunning && platform.shellRunning
      ensures r == Success(Running) ==> Settled(Settingsd) && Settled(Shell) && RoundDone(platform.watch.round)
    {
      hide ViewOf, FateOf, ReadyFits, WatchOf, TraceOf, Chronological, Activate, Observe, SeenOf, SeenBy, DecisionsOf,
        Orderly, Sound;
      var stopError := ShutdownAll();
      if stopError.Some? {
        return Failure(stopError.value);
      }
      ActivateSafeMode();
      var marked := MarkSafeMode();
      if marked.Some? {
        return Failure(marked.value);
      }
      r := StartSafely();
    }

    /** Each component is launched once, the settings service first; the shell must stay up. */
    method StartSafely() returns (r: Result<Progress>)
      requires Going() && recovery.active && !platform.settingsdRunning && !platform.shellRunning
      requires SafeLaunches(ViewOf(platform.log), Settingsd) == 0 && SafeLaunches(ViewOf(platform.log), Shell) == 0
      modifies this, platform
      ensures Valid() && old(platform.log) <= platform.log && old(history) <= history
      ensures platform.patience <= old(platform.patience) && Onward(old(platform.watch.round), platform.watch.round)
      ensures r != Success(SafeModeNeeded) && (r.Success? ==> Going())
      ensures r == Success(Running) ==> recovery.active && platform.settingsdRunning && platform.shellRunning
      ensures r == Success(Running) ==> Settled(Settingsd) && Settled(Shell)
    {
      hide ViewOf, FateOf, ReadyFits, WatchOf, TraceOf, Chronological, Observe, SeenOf, SeenBy, DecisionsOf, Orderly,
        Sound, FirstTry, Smooth, FailsThenStalls;
      r := StartUntilStable(Settingsd);
      if r != Success(Running) {
        return;
      }
      var shell := StartUntilStable(Shell);
      if shell.Failure? || shell == Success(ShutdownAsked) {
        return shell;
      }
      if shell != Success(Running) {
        return Failure(IoError);
      }
    }

    /** The mark that the session runs in safe mode; without it the session ends. */
    method MarkSafeMode() returns (error: Option<ErrorCode>)
      requires Going()
      modifies platform`calls, platform`log, platform`watch
      ensures Valid() && (error.None? ==> Going()) && platform.watch.round == old(platform.watch.round)
      ensures old(platform.log) <= platform.log && ViewOf(platform.log) == ViewOf(old(platform.log))
    {
      hide ViewOf, FateOf, ReadyFits, WatchOf, Orderly, TraceOf, Chronological, DecisionsOf, SeenOf, SeenBy;
      error := platform.Try();
      platform.Note(MarkSafeCall(error.None?));
    }

    /** Activation after an offer: it cannot fail, and it is the first. */
    method ActivateSafeMode()
      requires Going() && recovery.offered && !recovery.active
      modifies this`recovery, this`history, platform`log, platform`watch
      ensures platform.watch.round == Round(false, false, false, old(platform.watch.round.first))
      ensures Going() && recovery.active && old(platform.log) <= platform.log && old(history) <= history
      ensures SafeLaunches(ViewOf(platform.log), Settingsd) == 0 && SafeLaunches(ViewOf(platform.log), Shell) == 0
    {
      hide ViewOf, FateOf, ReadyFits, WatchOf, TraceOf, Chronological;
      var (next, error) := Activate(recovery);
      AfterMore(config, history, RestartPolicy.ActivateSafeMode);
      ActivationExtends(history);
      ActivationIsNoDecision(config, history);
      recovery, history := next, history + [RestartPolicy.ActivateSafeMode];
      platform.Note(ActivateCall(error.None?));
    }

    /** What the session does with anything but a running component: everything is stopped. */
    method Conclude(r: Result<Progress>) returns (t: Result<Termination>)
      requires Valid() && r != Success(Running) && r != Success(SafeModeNeeded)
      requires r.Success? ==> Going()
      modifies this, platform
      ensures Valid() && old(platform.log) <= platform.log
      ensures r.Failure? ==> t.Failure?
      ensures t.Success? ==> t.value == if r == Success(CleanStop) then CleanTermination else RequestedTermination
      ensures t.Success? ==>
        && !platform.shellRunning && !platform.settingsdRunning && StoppedInOrder(old(platform.log), platform.log)
        && !platform.watch.broken
    {
      hide ViewOf, FateOf, ReadyFits, WatchOf, TraceOf, Chronological, Orderly, StoppedInOrder;
      var stopError := ShutdownAll();
      if r.Failure? {
        return Failure(r.error);
      }
      if stopError.Some? {
        return Failure(stopError.value);
      }
      return Success(if r == Success(CleanStop) then CleanTermination else RequestedTermination);
    }

    /**
     Starting the settings service and then the shell. A shell that exits cleanly while it is started is not
     looked at: the session goes on without it. `shell` is what its start reported.
     */
    method StartSession() returns (r: Result<Progress>, shell: Progress)
      requires Going() && !platform.settingsdRunning && !platform.shellRunning && !recovery.active
      modifies this, platform
      ensures Valid() && old(platform.log) <= platform.log && old(history) <= history
      ensures platform.patience <= old(platform.patience)
      ensures r != Success(SafeModeNeeded) && (r.Success? ==> Going())
      ensures r == Success(Running) ==> platform.settingsdRunning && Settled(Settingsd) && Settled(Shell)
      ensures r == Success(Running) ==> (platform.shellRunning <==> shell != CleanStop)
      ensures r == Success(Running) ==> FateOf(platform.log, Shell) == if platform.shellRunning then Up else Left(Clean)
      ensures old(Smooth(Settingsd)) && old(ShellExitsAfter(platform.calls + 3)) && old(platform.patience) >= 4
              && old(platform.script(platform.calls + 1).exited.None?) ==>
                r == Success(Running) && shell == CleanStop && platform.patience == old(platform.patience) - 4
                && platform.calls == old(platform.calls) + 5
    {
      hide ViewOf, FateOf, ReadyFits, WatchOf, Orderly, TraceOf, Chronological, Sound, DecisionsOf, SeenOf, SeenBy,
        Observe, FailsThenStalls;
      shell := Running;
      r := StartUntilStable(Settingsd);
      if r == Success(SafeModeNeeded) {
        r := EnterSafeMode();
      }
      if r != Success(Running) {
        return;
      }
      if !recovery.active {
        var started := StartUntilStable(Shell);
        if started.Failure? || started == Success(ShutdownAsked) {
          return started, shell;
        }
        if started == Success(SafeModeNeeded) {
          r := EnterSafeMode();
        } else {
          shell := started.value;
        }
      }
      ShellIsUp();
    }

    lemma {:induction false} ShellIsUp()
      requires Sound()
      ensures platform.shellRunning <==> FateOf(platform.log, Shell) == Up
    {
    }

    /** The shell is launched and its first poll sees a clean exit. */
    ghost predicate ShellExitsAfter(call: nat)
      reads this
    {
      && platform.script(call).error.None?
      && platform.script(call + 1).error.None? && platform.script(call + 1).exited == Some(Clean)
    }

    /**
     One round of the monitor: the shell, then the settings service. Unless safe mode is entered, each that ran
     when its turn came has been polled when the round succeeds, the shell first.
     */
    method MonitorOnce() returns (r: Result<Progress>)
      requires Going() && Settled(Settingsd) && Settled(Shell) && RoundBegins()
      modifies this, platform
      ensures Valid() && old(platform.log) <= platform.log && old(history) <= history
      ensures platform.patience <= old(platform.patience)
      ensures r != Success(SafeModeNeeded) && (r.Success? ==> Going())
      ensures r == Success(Running) ==> Settled(Settingsd) && Settled(Shell) && RoundDone(platform.watch.round)
    {
      hide ViewOf, FateOf, ReadyFits, WatchOf, Orderly, TraceOf, Chronological, Sound;
      var again: bool;
      r, again := MonitorComponent(Shell);
      if r == Success(Running) && again {
        r, again := MonitorComponent(Settingsd);
      }
    }

    /** `again` tells whether the round goes on with the next component. */
    method MonitorComponent(component: Component) returns (r: Result<Progress>, again: bool)
      requires Going() && Settled(Settingsd) && Settled(Shell)
      modifies this, platform
      ensures Valid() && old(platform.log) <= platform.log && old(history) <= history
      ensures platform.patience <= old(platform.patience)
      ensures r != Success(SafeModeNeeded) && (r.Success? ==> Going())
      ensures r == Success(Running) ==> Settled(Settingsd) && Settled(Shell)
      ensures Onward(old(platform.watch.round), platform.watch.round)
      ensures old(platform.IsRunning(component)) ==>
        && !Due(platform.watch.round, component)
        && (old(platform.watch.round.first).None? ==> platform.watch.round.first == Some(component))
      ensures !old(platform.IsRunning(component)) ==>
        r == Success(Running) && again && platform.watch.round == old(platform.watch.round)
      ensures r == Success(Running) && again ==>
        platform.IsRunning(Other(component)) == old(platform.IsRunning(Other(component)))
      ensures r == Success(Running) && !again ==> RoundDone(platform.watch.round)
    {
      hide ViewOf, FateOf, ReadyFits, WatchOf, Orderly, TraceOf, Chronological, Sound, SeenOf, SeenBy, DecisionsOf,
        Observe;
      if !platform.IsRunning(component) {
        return Success(Running), true;
      }
      var status := PollChild(component);
      if status.Failure? {
        return Failure(IoError), false;
      }
      if status.value.None? {
        return Success(Running), true;
      }
      assert LaunchTime(component).Some?;
      r := HandleExit(component, status.value.value);
      again := true;
      if r == Success(SafeModeNeeded) {
        r := EnterSafeMode();
        again := false;
      }
    }

    /** The end of a round, with the wait before the next. */
    method EndRound()
      requires Going() && Settled(Settingsd) && Settled(Shell) && RoundDone(platform.watch.round)
      modifies platform`log, platform`watch, platform`clock, platform`ticks
      ensures Going() && RoundBegins() && Settled(Settingsd) && Settled(Shell) && old(platform.log) <= platform.log
      ensures platform.clock >= old(platform.clock) + MONITOR_INTERVAL
    {
      hide ViewOf, FateOf, ReadyFits, WatchOf, Orderly, TraceOf, Chronological;
      platform.Note(RoundEnds);
      platform.WaitFor(MONITOR_INTERVAL);
    }

    lemma {:induction false} WhatSoundMeans()
      requires Sound()
      ensures Orderly(ViewOf(platform.log)) && ReadyFits(platform.log)
      ensures platform.watch == WatchOf(platform.log) && platform.watch.ok
      ensures WatchOf(platform.log).told == history
      ensures WatchOf(platform.log).decisions == DecisionsOf(config, history)
      ensures recovery == TraceOf(config, history).state && Chronological(history)
      ensures RestartsSpaced(Settingsd) && RestartsSpaced(Shell)
    {
      hide ViewOf, FateOf, ReadyFits, WatchOf, Orderly, TraceOf, Chronological, DecisionsOf, SeenBy, SeenOf, Spaced;
      ChronologicalIsSpaced(config, history, Settingsd);
      ChronologicalIsSpaced(config, history, Shell);
    }

    /**
     A whole session. It returns only when shutdown is requested, a component stops cleanly, or something
     fails; a successful return leaves no child running, with the shell stopped before the settings service.
     The log shows that no running child was launched, that safe mode was activated at most once and never in
     vain, that after activation each component was launched at most once, and that readiness was announced
     with a running shell unless the shell had last been seen to exit cleanly. The recovery policy was told of a
     chronological history, so restarts are spaced when the healthy interval covers the rolling window.
     */
    method Run() returns (t: Result<Termination>)
      requires Going() && !platform.settingsdRunning && !platform.shellRunning && recovery == FRESH
      modifies this, platform
      ensures Valid() && Orderly(ViewOf(platform.log)) && old(platform.log) <= platform.log
      ensures t.Success? ==> !platform.settingsdRunning && !platform.shellRunning && !WatchOf(platform.log).broken
      ensures t.Success? ==>
        platform.log == old(platform.log)
        || exists before :: old(platform.log) <= before && StoppedInOrder(before, platform.log)
      ensures ReadyFits(platform.log) && WatchOf(platform.log).ok && WatchOf(platform.log).owed.None?
      ensures WatchOf(platform.log).told == history
      ensures WatchOf(platform.log).decisions == DecisionsOf(config, history)
      ensures recovery == TraceOf(config, history).state && Chronological(history)
      ensures RestartsSpaced(Settingsd) && RestartsSpaced(Shell)
    {
      hide ViewOf, StoppedInOrder, FateOf, ReadyFits, TraceOf, Chronological, Spaced, DecisionsOf, SeenOf, SeenBy,
        Observe, Orderly, Sound;
      var requested := Asked();
      if requested {
        WhatSoundMeans();
        return Success(RequestedTermination);
      }
      var r, shell := StartSession();
      if r == Success(Running) {
        var failed := MarkReady();
        if failed.Some? {
          r := Failure(failed.value);
        }
      }
      while r == Success(Running)
        invariant Valid() && old(platform.log) <= platform.log && r != Success(SafeModeNeeded)
        invariant r.Success? ==> Going()
        invariant r == Success(Running) ==> Settled(Settingsd) && Settled(Shell) && RoundBegins()
        decreases platform.patience, if r == Success(Running) then 1 else 0
      {
        requested := Asked();
        if requested {
          r := Success(ShutdownAsked);
        } else {
          r := MonitorOnce();
          if r == Success(Running) {
            EndRound();
          }
        }
      }
      ghost var before := platform.log;
      t := Conclude(r);
      assert t.Success? ==> old(platform.log) <= before && StoppedInOrder(before, platform.log);
      WhatSoundMeans();
    }

    /** No more than the maximum of restarts fall into a rolling window, if the healthy interval covers it. */
    ghost predicate RestartsSpaced(component: Component)
      reads this
    {
      BudgetOf(config, component).healthyInterval >= BudgetOf(config, component).rollingWindow ==>
        Spaced(BudgetOf(config, component), RestartsOf(TraceOf(config, history), component))
    }

    /** Readiness is announced with whatever runs at that moment. */
    method MarkReady() returns (error: Option<ErrorCode>)
      requires Going() && platform.settingsdRunning && Settled(Settingsd) && Settled(Shell)
      requires platform.shellRunning || FateOf(platform.log, Shell) == Left(Clean)
      modifies platform`calls, platform`log, platform`watch
      ensures Valid() && (error.None? ==> Going()) && RoundBegins() && Settled(Settingsd) && Settled(Shell)
      ensures platform.log == old(platform.log) + [ReadyCall(platform.shellRunning, error.None?)]
      ensures error == old(platform.script(platform.calls)).error
    {
      hide ViewOf, FateOf, ReadyFits, WatchOf, TraceOf, Chronological;
      error := platform.Try();
      platform.Note(ReadyCall(platform.shellRunning, error.None?));
    }

    /** A shell that exits cleanly while it is started does not keep readiness from being announced. */
    method AnnounceWithoutShell()
      requires Going() && !platform.settingsdRunning && !platform.shellRunning && !recovery.active
      requires Smooth(Settingsd) && ShellExitsAfter(platform.calls + 3) && platform.patience >= 4
      requires platform.script(platform.calls + 1).exited.None? && platform.script(platform.calls + 5).error.None?
      modifies this, platform
      ensures platform.settingsdRunning && ReadyCall(false, true) in platform.log
    {
      hide ViewOf, FateOf, ReadyFits, WatchOf, Orderly, TraceOf, Chronological, DecisionsOf, Observe, SeenOf, SeenBy,
        Sound, Smooth;
      var r, shell := StartSession();
      assert r == Success(Running) && shell == CleanStop;
      var error := MarkReady();
      assert platform.log[|platform.log| - 1] == ReadyCall(false, true);
    }
  }

  function ValueOr(time: Option<int>, present: int): int {
    match time case None => present case Some(recorded) => recorded
  }

  /** What polling during a stop leaves. */
  predicate Reaping(before: Watch, after: Watch) {
    && OnlyStopped(before, after) && after.broken == before.broken && before.stop.Stopping? && after.stop.Stopping?
    && after.stop.terminated == before.stop.terminated && after.stop.killed == before.stop.killed
    && after.stop.component == before.stop.component && (before.stop.pollFailed ==> after.stop.pollFailed)
  }

  /** The policy after it was told of an exit. */
  function Told(c: Config, s: State, e: RestartPolicy.Event): State
    requires e.Exit?
  {
    Observe(c, s, e.component, e.reason, e.launchedAt, e.observedAt).0
  }

  /** What the policy decides on an exit. */
  function ActionOn(c: Config, s: State, e: RestartPolicy.Event): Option<Action>
    requires e.Exit?
  {
    match Observe(c, s, e.component, e.reason, e.launchedAt, e.observedAt).1
    case Failure(_) => None
    case Success(decision) => Some(decision.action)
  }

  /** The delay that the policy asks for on an exit. */
  function BackoffOn(c: Config, s: State, e: RestartPolicy.Event): int
    requires e.Exit?
  {
    match Observe(c, s, e.component, e.reason, e.launchedAt, e.observedAt).1
    case Failure(_) => 0
    case Success(decision) => decision.backoff
  }

  /** What recovery makes of the decision; a restart is given up only for a shutdown request. */
  predicate Obeys(r: Result<Progress>, action: Option<Action>, patience: nat) {
    match action
    case None => false
    case Some(StopClean) => r == Success(CleanStop)
    case Some(RestartComponent) => r == Success(Running) || (r == Success(ShutdownAsked) && patience == 0)
    case Some(EnterSafeMode) => r == Success(SafeModeNeeded)
    case Some(StopFailed) => r == Failure(IoError)
  }

  function FailedLaunch(component: Component, time: int): RestartPolicy.Event {
    Exit(component, Failed, time, time)
  }

  function AsResult(a: Attempt): Result<Progress> {
    match a case Finish(r) => r case Relaunch => Success(Running) case Continue => Failure(NotFound)
  }

  /** What recovery is told of a child launched at some time that stalls until its deadline: it seems launched then. */
  function StallExit(component: Component, launchedAt: int): RestartPolicy.Event {
    Exit(component, ReadinessTimeout, launchedAt + READINESS_TIMEOUT, launchedAt + READINESS_TIMEOUT)
  }

  /** The policy was told of an exit of the component and its reason, counted from that launch time. */
  predicate RecoveredFrom(
      before: seq<RestartPolicy.Event>, after: seq<RestartPolicy.Event>, component: Component, reason: ExitReason,
        launchedAt: int)
  {
    && |before| < |after| && after[..|before|] == before
    && var e := after[|before|]; e.Exit? && e.component == component && e.reason == reason && e.launchedAt == launchedAt
  }

  /** The history after an exit that was just observed, and the state of the policy that was told of it. */
  lemma {:induction false} DecisionExtends(c: Config, events: seq<RestartPolicy.Event>, e: RestartPolicy.Event,
      before: int)
    requires Chronological(events) && SeenBy(events, before) && e.Exit? && before <= e.observedAt
    requires SeenOf(events, e.component, e.launchedAt) && e.launchedAt <= e.observedAt
    ensures Chronological(events + [e]) && SeenBy(events + [e], e.observedAt)
    ensures TraceOf(c, events + [e]).state
         == Observe(c, TraceOf(c, events).state, e.component, e.reason, e.launchedAt, e.observedAt).0
  {
    hide Observe;
    ExitExtends(events, e);
    AfterMore(c, events, e);
    hide TraceOf, Chronological;
  }

  lemma {:induction false} OtherStaysSeen(events: seq<RestartPolicy.Event>, e: RestartPolicy.Event,
      component: Component, time: int)
    requires SeenOf(events, component, time) && e.Exit? && e.component != component
    ensures SeenOf(events + [e], component, time)
  {
  }

  lemma {:induction false} DecisionIsListed(c: Config, events: seq<RestartPolicy.Event>, e: RestartPolicy.Event)
    requires e.Exit?
    requires Observe(c, TraceOf(c, events).state, e.component, e.reason, e.launchedAt, e.observedAt).1.Success?
    ensures DecisionsOf(c, events + [e]) == DecisionsOf(c, events)
         + [Observe(c, TraceOf(c, events).state, e.component, e.reason, e.launchedAt, e.observedAt).1.value]
  {
    assert (events + [e])[..|events|] == events;
    hide Observe, TraceOf;
  }

  lemma {:induction false} ActivationIsNoDecision(c: Config, events: seq<RestartPolicy.Event>)
    ensures DecisionsOf(c, events + [RestartPolicy.ActivateSafeMode]) == DecisionsOf(c, events)
  {
    assert (events + [RestartPolicy.ActivateSafeMode])[..|events|] == events;
  }

  lemma {:induction false} ActivationExtends(events: seq<RestartPolicy.Event>)
    requires Chronological(events)
    ensures Chronological(events + [RestartPolicy.ActivateSafeMode])
  {
    assert (events + [RestartPolicy.ActivateSafeMode])[..|events|] == events;
  }

  /** What one round of starting decides: go on, end with a result, or launch again. */
  datatype Attempt = Continue | Finish(result: Result<Progress>) | Relaunch

  /** The decision on a chronological exit: it never fails, and in safe mode nothing is restarted. */
  lemma {:induction false} ObserveDecides(c: Config, s: State, component: Component, reason: ExitReason,
      launchedAt: int, now: int)
    requires ValidConfig(c) && launchedAt <= now
    ensures var (next, decision) := Observe(c, s, component, reason, launchedAt, now);
      && decision.Success? && next.active == s.active
      && (decision.value.action == EnterSafeMode ==> next.offered && !s.active)
      && (s.active ==> decision.value.action != RestartComponent)
      && (reason == Clean <==> decision.value.action == StopClean)
      && 0 <= decision.value.backoff <= BudgetOf(c, component).maximumBackoff
  {
    PowersArePositive(BudgetOf(c, component).initialBackoff);
    hide Counted, Power2;
  }

  lemma {:induction false} PowersArePositive(initial: int)
    requires initial >= 0
    ensures forall n: nat :: initial * Power2(n) >= 0
  {
    forall n: nat ensures initial * Power2(n) >= 0 {
      Doubled(initial, Power2(n));
    }
  }

  // ---------------------------------------------------------------- readiness without a shell

  /** A platform whose settings service becomes ready at once and whose shell exits cleanly at once. */
  function ShellThatLeaves(call: nat): Response {
    Response(None, if call == 4 then Some(Clean) else None, false)
  }

  /**
   Readiness does not imply a live shell: this session reaches the ready marker while no shell runs. In
   general the shell runs at that point exactly when its start did not report a clean stop.
   */
  method ReadyWithoutShell(config: Config) returns (platform: Platform, supervisor: Supervisor)
    requires ValidConfig(config)
    ensures fresh(platform) && fresh(supervisor) && supervisor.platform == platform
    ensures platform.settingsdRunning && ReadyCall(false, true) in platform.log
  {
    platform := new Platform(ShellThatLeaves, _ => 0, 0, 10);
    supervisor := new Supervisor(platform, config);
    supervisor.AnnounceWithoutShell();
  }

  // ---------------------------------------------------------------- recovery forgets how long a child was up

  /** One restart in a minute; being up for a second counts as healthy. */
  const ONE_RESTART := Budget(1, 60000 * MILLISECOND, 1000 * MILLISECOND, 0, 0)

  /** The first launch fails; the second child stays up until it is told to stop. */
  function FailThenStall(call: nat): Response {
    Response(if call == 0 then Some(IoError) else None, if call == 4 then Some(Signal) else None, false)
  }

  /** The clock jumps once, over the readiness deadline of the second child. */
  function JumpOverDeadline(look: nat): nat {
    if look == 5 then READINESS_TIMEOUT else 0
  }

  lemma {:induction false} StallDecisions(config: Config)
    requires config == Config(ONE_RESTART, ONE_RESTART)
    ensures ActionOn(config, FRESH, FailedLaunch(Settingsd, 0)) == Some(RestartComponent)
    ensures var s := Told(config, FRESH, FailedLaunch(Settingsd, 0));
      && ActionOn(config, s, StallExit(Settingsd, 0)) == Some(EnterSafeMode)
      && ActionOn(config, s, Exit(Settingsd, ReadinessTimeout, 0, READINESS_TIMEOUT)) == Some(RestartComponent)
  {
    var s := Told(config, FRESH, FailedLaunch(Settingsd, 0));
    assert s.settingsdExits == [0] && !s.active && !s.offered;
  }

  lemma {:induction false} StoryBegins(supervisor: Supervisor)
    requires supervisor.config == Config(ONE_RESTART, ONE_RESTART) && supervisor.recovery == FRESH
    requires supervisor.platform.script == FailThenStall && supervisor.platform.tick == JumpOverDeadline
    requires supervisor.platform.calls == 0 && supervisor.platform.ticks == 0
    requires supervisor.platform.clock == 0 && supervisor.platform.patience == 10
    ensures supervisor.FailsThenStalls(Settingsd)
  {
    StallDecisions(supervisor.config);
    hide Observe, Told;
  }

  /**
   A settings service that was up for five seconds misses its deadline and drives the session into safe mode.
   Recovery from its recorded launch time would have restarted it: it had been up for its healthy interval,
   which clears the earlier failure.
   */
  method StallForgetsLaunchTime() returns (platform: Platform, supervisor: Supervisor)
    ensures fresh(platform) && fresh(supervisor) && supervisor.platform == platform
    ensures supervisor.history == [FailedLaunch(Settingsd, 0), StallExit(Settingsd, 0)]
    ensures supervisor.recovery.offered
    ensures var s := Told(supervisor.config, FRESH, FailedLaunch(Settingsd, 0));
      && ActionOn(supervisor.config, s, StallExit(Settingsd, 0)) == Some(EnterSafeMode)
      && ActionOn(supervisor.config, s, Exit(Settingsd, ReadinessTimeout, 0, READINESS_TIMEOUT))
          == Some(RestartComponent)
  {
    var config := Config(ONE_RESTART, ONE_RESTART);
    platform := new Platform(FailThenStall, JumpOverDeadline, 0, 10);
    supervisor := new Supervisor(platform, config);
    StallDecisions(config);
    hide ViewOf, Orderly, FateOf, ReadyFits, WatchOf, TraceOf, Chronological, DecisionsOf, Observe, Told, ActionOn;
    StoryBegins(supervisor);
    var r := supervisor.StartUntilStable(Settingsd);
    assert r == Success(SafeModeNeeded);
  }
}
