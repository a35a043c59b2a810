/**
 The two threads of the settings service: the dispatcher that owns the bus and the worker that owns the
 engine, sharing one job slot, a mutex, a condition variable and an eventfd.

 Every region that runs under the mutex, and every call on the eventfd, is one atomic step. The classes
 hold the fields of the source and have one method per step; `Next` interleaves the steps of both threads
 in any order, and the theorems hold in every state that `Run` reaches.
 */
module SettingsDaemon {
  import opened Foundation
  import SettingsEngine

  datatype Operation = ProfileChange | Reload | CandidateValidation

  datatype Job = Job(requestId: nat, operation: Operation)

  /** What the engine answers: a publication, the snapshot already current, an error, or a validation verdict. */
  datatype Answer = Published(generation: nat) | Unchanged(generation: nat) | EngineFailed | Validated

  datatype Completion = Completion(requestId: nat, answer: Answer)

  /** Where the worker thread stands between two of its atomic regions. */
  datatype WorkerPc = Waiting | Executing(job: Job) | Executed(done: Completion) | Notifying | Exited

  datatype WorkerState = WorkerState(
    stopping: bool, pendingJob: Option<Job>, processing: bool, completion: Option<Completion>,
    snapshot: nat, eventfd: nat, engine: nat, pc: WorkerPc)

  /** Where the dispatcher thread stands. */
  datatype ServicePc =
    | Idle | Submitting(call: Job) | Drained | Answering(taken: Completion)
    | Broken | Rejected | Joining | Finished

  /**
   What the bus sees, and the internal failure that must not happen. A signal belongs to the call that
   published; `sent` says whether the bus took the message.
   */
  datatype Event =
    | Accepted(id: nat)
    | Refused
    | Signalled(id: nat, generation: nat, sent: bool)
    | Replied(id: nat, answer: Answer, sent: bool)
    | RejectedCall(id: nat, sent: bool)
    | Fetched(generation: nat)
    | Unmatched

  datatype ServiceState = ServiceState(pending: Option<Job>, nextRequestId: nat, pc: ServicePc, log: seq<Event>)

  // ---------------------------------------------------------------- the worker's regions, on values

  predicate SlotFree(w: WorkerState) {
    !(w.stopping || w.pendingJob.Some? || w.processing || w.completion.Some?)
  }

  function AfterTakeJob(w: WorkerState): WorkerState
    requires w.pendingJob.Some?
  {
    w.(pendingJob := None, processing := true, pc := Executing(w.pendingJob.value))
  }

  /** The engine answers with its current generation, or with the next one when it publishes. */
  predicate EngineMay(w: WorkerState, operation: Operation, answer: Answer) {
    match answer
    case Published(g) => operation != CandidateValidation && w.engine < U64_MAX && g == w.engine + 1
    case Unchanged(g) => operation != CandidateValidation && g == w.engine
    case Validated => operation == CandidateValidation
    case EngineFailed => true
  }

  function AfterExecute(w: WorkerState, answer: Answer): WorkerState
    requires w.pc.Executing?
  {
    w.(engine := if answer.Published? then answer.generation else w.engine,
       pc := Executed(Completion(w.pc.job.requestId, answer)))
  }

  function AfterEmplace(w: WorkerState): WorkerState
    requires w.pc.Executed?
  {
    var c := w.pc.done;
    var snapshot := if c.answer.Published? || c.answer.Unchanged? then c.answer.generation else w.snapshot;
    if w.stopping then w.(processing := false, snapshot := snapshot, pc := Exited)
    else w.(processing := false, snapshot := snapshot, completion := Some(c), pc := Notifying)
  }

  /** A nonblocking eventfd write adds one unless the counter is full. */
  function AfterNotify(w: WorkerState): WorkerState {
    w.(eventfd := if w.eventfd + 1 < U64_MAX then w.eventfd + 1 else w.eventfd, pc := Waiting)
  }

  function AfterStop(w: WorkerState): WorkerState {
    w.(stopping := true, pendingJob := None)
  }

  // ---------------------------------------------------------------- the dispatcher's steps, on values

  function NextId(id: nat): nat {
    if id == U64_MAX then 0 else id + 1
  }

  function Logged(v: ServiceState, e: Event): ServiceState {
    v.(log := v.log + [e])
  }

  function AfterSubmit(v: ServiceState, w: WorkerState, operation: Operation): (ServiceState, WorkerState) {
    if v.pending.Some? || v.nextRequestId == 0 then (Logged(v, Refused), w)
    else
      var job := Job(v.nextRequestId, operation);
      var advanced := v.(nextRequestId := NextId(v.nextRequestId));
      if !SlotFree(w) then (Logged(advanced, Refused), w)
      else (Logged(advanced.(pc := Submitting(job)), Accepted(job.requestId)), w.(pendingJob := Some(job)))
  }

  /** The signal of a publication, then the reply; a failed signal skips the reply. */
  function AfterDispatch(v: ServiceState, signalSent: bool, replySent: bool): ServiceState
    requires v.pc.Answering?
  {
    var c := v.pc.taken;
    if v.pending.None? || v.pending.value.requestId != c.requestId then Logged(v.(pc := Broken), Unmatched)
    else
      var cleared := v.(pending := None);
      var announced :=
        if c.answer.Published? then Logged(cleared, Signalled(c.requestId, c.answer.generation, signalSent))
        else cleared;
      if c.answer.Published? && !signalSent then announced.(pc := Broken)
      else Logged(announced.(pc := if replySent then Idle else Broken), Replied(c.requestId, c.answer, replySent))
  }

  function AfterReject(v: ServiceState, sent: bool): ServiceState {
    if v.pending.None? then v.(pc := Rejected)
    else Logged(v.(pc := Rejected, pending := None), RejectedCall(v.pending.value.requestId, sent))
  }

  // ---------------------------------------------------------------- the classes of the source

  class ServiceWorker {
    var stopping: bool
    var pendingJob: Option<Job>
    var processing: bool
    var completion: Option<Completion>
    var snapshot: nat
    var eventfd: nat
    var engine: nat
    var pc: WorkerPc

    ghost function Abstract(): WorkerState
      reads this
    {
      WorkerState(stopping, pendingJob, processing, completion, snapshot, eventfd, engine, pc)
    }

    constructor (generation: nat)
      ensures Abstract() == InitialWorker(generation)
    {
      stopping, pendingJob, processing, completion := false, None, false, None;
      snapshot, eventfd, engine, pc := generation, 0, generation, Waiting;
    }

    method TrySubmit(job: Job) returns (accepted: bool)
      modifies this
      ensures accepted == SlotFree(old(Abstract()))
      ensures Abstract() == if accepted then old(Abstract()).(pendingJob := Some(job)) else old(Abstract())
    {
      if stopping || pendingJob.Some? || processing || completion.Some? {
        return false;
      }
      pendingJob := Some(job);
      return true;
    }

    method DrainNotification()
      modifies this
      ensures Abstract() == old(Abstract()).(eventfd := 0)
    {
      if eventfd > 0 {
        eventfd := 0;
      }
    }

    method TakeCompletion() returns (taken: Option<Completion>)
      modifies this
      ensures taken == old(completion)
      ensures Abstract() == old(Abstract()).(completion := None)
    {
      if completion.None? {
        return None;
      }
      taken := completion;
      completion := None;
    }

    method RequestStop()
      modifies this
      ensures Abstract() == if old(stopping) then old(Abstract()) else AfterStop(old(Abstract()))
    {
      if stopping {
        return;
      }
      stopping := true;
      pendingJob := None;
    }

    /** The wait of the worker loop has ended: it exits, or it takes the pending job. */
    method Wake()
      requires pc == Waiting && (stopping || pendingJob.Some?)
      modifies this
      ensures Abstract() == if old(stopping) then old(Abstract()).(pc := Exited) else AfterTakeJob(old(Abstract()))
    {
      if stopping {
        pc := Exited;
        return;
      }
      var job := pendingJob.value;
      pendingJob := None;
      processing := true;
      pc := Executing(job);
    }

    method Execute(answer: Answer)
      requires pc.Executing? && EngineMay(Abstract(), pc.job.operation, answer)
      modifies this
      ensures Abstract() == AfterExecute(old(Abstract()), answer)
    {
      if answer.Published? {
        engine := answer.generation;
      }
      pc := Executed(Completion(pc.job.requestId, answer));
    }

    method Emplace()
      requires pc.Executed?
      modifies this
      ensures Abstract() == AfterEmplace(old(Abstract()))
    {
      var finished := pc.done;
      processing := false;
      match finished.answer {
        case Published(generation) => snapshot := generation;
        case Unchanged(generation) => snapshot := generation;
        case _ =>
      }
      if stopping {
        pc := Exited;
        return;
      }
      completion := Some(finished);
      pc := Notifying;
    }

    method NotifyCompletion()
      requires pc == Notifying
      modifies this
      ensures Abstract() == AfterNotify(old(Abstract()))
    {
      if eventfd + 1 < U64_MAX {
        eventfd := eventfd + 1;
      }
      pc := Waiting;
    }
  }

  class SettingsService {
    const worker: ServiceWorker
    var pending: Option<Job>
    var nextRequestId: nat
    var pc: ServicePc
    var log: seq<Event>

    ghost function Abstract(): ServiceState
      reads this
    {
      ServiceState(pending, nextRequestId, pc, log)
    }

    constructor (worker: ServiceWorker)
      ensures this.worker == worker && Abstract() == InitialService()
    {
      this.worker := worker;
      pending, nextRequestId, pc, log := None, 1, Idle, [];
    }

    method Submit(operation: Operation)
      requires pc == Idle
      modifies this, worker
      ensures (Abstract(), worker.Abstract()) == AfterSubmit(old(Abstract()), old(worker.Abstract()), operation)
    {
      if pending.Some? {
        log := log + [Refused];
        return;
      }
      if nextRequestId == 0 {
        log := log + [Refused];
        return;
      }
      var requestId := nextRequestId;
      nextRequestId := if nextRequestId == U64_MAX then 0 else nextRequestId + 1;
      var accepted := worker.TrySubmit(Job(requestId, operation));
      if !accepted {
        log := log + [Refused];
        return;
      }
      log := log + [Accepted(requestId)];
      pc := Submitting(Job(requestId, operation));
    }

    method FinishSubmit()
      requires pc.Submitting?
      modifies this
      ensures Abstract() == old(Abstract()).(pending := Some(old(pc).call), pc := Idle)
    {
      pending := Some(pc.call);
      pc := Idle;
    }

    /** The end of dispatchCompletion, after the completion was taken. */
    method Dispatch(signalSent: bool, replySent: bool)
      requires pc.Answering?
      modifies this
      ensures Abstract() == AfterDispatch(old(Abstract()), signalSent, replySent)
    {
      var completion := pc.taken;
      if pending.None? || pending.value.requestId != completion.requestId {
        pc := Broken;
        log := log + [Unmatched];
        return;
      }
      pending := None;
      if completion.answer.Published? {
        log := log + [Signalled(completion.requestId, completion.answer.generation, signalSent)];
        if !signalSent {
          pc := Broken;
          return;
        }
      }
      pc := if replySent then Idle else Broken;
      log := log + [Replied(completion.requestId, completion.answer, replySent)];
    }

    method RejectPendingForShutdown(sent: bool)
      modifies this
      ensures Abstract() == AfterReject(old(Abstract()), sent)
    {
      if pending.Some? {
        log := log + [RejectedCall(pending.value.requestId, sent)];
        pending := None;
      }
      pc := Rejected;
    }
  }

  // ---------------------------------------------------------------- all interleavings

  datatype System = System(worker: WorkerState, service: ServiceState)

  datatype Step =
    | Submit(operation: Operation) | FinishSubmit | Fetch
    | Drain | Take | Dispatch(signalSent: bool, replySent: bool)
    | Reject(sent: bool) | RaiseStop | Join
    | TakeJob | Execute(answer: Answer) | Emplace | Notify | Exit

  function InitialWorker(generation: nat): WorkerState {
    WorkerState(false, None, false, None, generation, 0, generation, Waiting)
  }

  function InitialService(): ServiceState {
    ServiceState(None, 1, Idle, [])
  }

  /** An owner epoch starts with the engine's first snapshot. */
  function Initial(): System {
    System(InitialWorker(1), InitialService())
  }

  predicate DispatcherStep(step: Step) {
    !(step.TakeJob? || step.Execute? || step.Emplace? || step.Notify? || step.Exit?)
  }

  /** The step's effect, when the thread it belongs to stands where the step begins. */
  function Next(s: System, step: Step): Option<System> {
    if DispatcherStep(step) then NextOfDispatcher(s, step) else NextOfWorker(s, step)
  }

  function NextOfDispatcher(s: System, step: Step): Option<System>
    requires DispatcherStep(step)
  {
    var w, v := s.worker, s.service;
    match step
    case Submit(operation) =>
      if v.pc != Idle then None
      else var (v', w') := AfterSubmit(v, w, operation); Some(System(w', v'))
    case FinishSubmit =>
      if !v.pc.Submitting? then None else Some(System(w, v.(pending := Some(v.pc.call), pc := Idle)))
    case Fetch => if v.pc != Idle then None else Some(System(w, Logged(v, Fetched(w.snapshot))))
    case Drain => if v.pc != Idle || w.eventfd == 0 then None else Some(System(w.(eventfd := 0), v.(pc := Drained)))
    case Take =>
      if v.pc != Drained then None
      else
        Some(System(w.(completion := None),
          v.(pc := if w.completion.Some? then Answering(w.completion.value) else Idle)))
    case Dispatch(signalSent, replySent) =>
      if !v.pc.Answering? then None else Some(System(w, AfterDispatch(v, signalSent, replySent)))
    case Reject(sent) => if v.pc != Idle && v.pc != Broken then None else Some(System(w, AfterReject(v, sent)))
    case RaiseStop => if v.pc != Rejected then None else Some(System(AfterStop(w), v.(pc := Joining)))
    case Join => if v.pc != Joining || w.pc != Exited then None else Some(System(w, v.(pc := Finished)))
  }

  function NextOfWorker(s: System, step: Step): Option<System>
    requires !DispatcherStep(step)
  {
    var w := s.worker;
    match step
    case TakeJob =>
      if w.pc != Waiting || w.stopping || w.pendingJob.None? then None else Some(s.(worker := AfterTakeJob(w)))
    case Execute(answer) =>
      if !w.pc.Executing? || !EngineMay(w, w.pc.job.operation, answer) then None
      else Some(s.(worker := AfterExecute(w, answer)))
    case Emplace => if !w.pc.Executed? then None else Some(s.(worker := AfterEmplace(w)))
    case Notify => if w.pc != Notifying then None else Some(s.(worker := AfterNotify(w)))
    case Exit => if w.pc != Waiting || !w.stopping then None else Some(s.(worker := w.(pc := Exited)))
  }

  /** The state after a schedule, or nothing when the schedule is not possible. */
  function Run(s: System, schedule: seq<Step>): Option<System>
    decreases |schedule|
  {
    if schedule == [] then Some(s)
    else
      match Next(s, schedule[0])
      case None => None
      case Some(t) => Run(t, schedule[1..])
  }

  // ---------------------------------------------------------------- what a log shows

  /**
   What the events so far amount to: the accepted call that is not closed yet (there is never more than one),
   the last signalled, fetched and accepted numbers, and the generation that the very last event announced.
   A call is closed by its reply, by its rejection, or by a signal of its publication that could not be sent.
   */
  datatype View = View(open: Option<nat>, signalled: nat, fetched: nat, accepted: nat, announced: Option<nat>)

  function After(v: View, e: Event): View {
    var quiet := v.(announced := None);
    match e
    case Accepted(id) => quiet.(open := Some(id), accepted := id)
    case Refused => quiet
    case Signalled(_, g, sent) =>
      if sent then v.(signalled := g, announced := Some(g)) else quiet.(signalled := g, open := None)
    case Replied(_, _, _) => quiet.(open := None)
    case RejectedCall(_, _) => quiet.(open := None)
    case Fetched(g) => quiet.(fetched := g)
    case Unmatched => quiet
  }

  /** An epoch starts with the first generation published and nothing signalled. */
  function ViewOf(log: seq<Event>): View {
    if log == [] then View(None, 1, 0, 0, None) else After(ViewOf(log[..|log| - 1]), log[|log| - 1])
  }

  /** What one event may follow. */
  predicate MayFollow(v: View, e: Event) {
    match e
    case Accepted(id) => v.open.None? && id > v.accepted
    case Refused => true
    case Signalled(id, g, _) => v.open == Some(id) && g == v.signalled + 1
    case Replied(id, answer, _) =>
      v.open == Some(id)
      && (answer.Published? ==> v.announced == Some(answer.generation))
      && (answer.Unchanged? ==> answer.generation == v.signalled)
    case RejectedCall(id, _) => v.open == Some(id)
    case Fetched(g) => v.signalled <= g <= v.signalled + 1 && v.fetched <= g
    case Unmatched => false
  }

  predicate Disciplined(log: seq<Event>) {
    log == [] || (Disciplined(log[..|log| - 1]) && MayFollow(ViewOf(log[..|log| - 1]), log[|log| - 1]))
  }

  // ---------------------------------------------------------------- the invariant

  /** The one occupant of the slot: a waiting job, an executing one, or an untaken completion. */
  function Slot(w: WorkerState): Option<nat> {
    if w.pendingJob.Some? then Some(w.pendingJob.value.requestId)
    else if w.pc.Executing? then Some(w.pc.job.requestId)
    else if w.pc.Executed? then Some(w.pc.done.requestId)
    else if w.completion.Some? then Some(w.completion.value.requestId)
    else None
  }

  function Count(b: bool): nat { if b then 1 else 0 }

  /** At most one of pending job, executing job and untaken completion exists. */
  predicate OneOccupant(w: WorkerState) {
    && (w.processing <==> w.pc.Executing? || w.pc.Executed?)
    && Count(w.pendingJob.Some?) + Count(w.processing) + Count(w.completion.Some?) <= 1
    && (w.stopping ==> w.pendingJob.None?)
    && (w.pc == Exited ==> w.stopping)
  }

  /**
   A waiting completion is announced: the counter is one, or the worker is about to raise it, or the
   dispatcher has just cleared it and is about to take. Without a completion the counter is zero.
   */
  predicate Announced(s: System) {
    var w, v := s.worker, s.service;
    if w.completion.Some? then
      || (w.pc == Notifying && w.eventfd == 0 && v.pc != Drained)
      || ((w.pc == Waiting || w.pc == Exited) && w.eventfd == 1 && v.pc != Drained)
      || ((w.pc == Waiting || w.pc == Exited) && w.eventfd == 0 && v.pc == Drained)
    else w.eventfd == 0 && v.pc != Drained && w.pc != Notifying
  }

  function PendingId(v: ServiceState): Option<nat> {
    match v.pending case None => None case Some(job) => Some(job.requestId)
  }

  /** The dispatcher is still in the epoch loop. */
  predicate Serving(v: ServiceState) {
    v.pc == Idle || v.pc == Drained || v.pc.Submitting? || v.pc.Answering?
  }

  /** The dispatcher's pending call and the slot agree, except inside submit and dispatch. */
  predicate Matched(s: System, view: View) {
    var w, v := s.worker, s.service;
    && (w.stopping <==> v.pc == Joining || v.pc == Finished)
    && match v.pc
       case Idle => PendingId(v) == Slot(w) == view.open
       case Drained => PendingId(v) == Slot(w) == view.open
       case Submitting(call) => v.pending.None? && Slot(w) == Some(call.requestId) == view.open
       case Answering(c) => Slot(w).None? && PendingId(v) == Some(c.requestId) == view.open
       case Broken => Slot(w).None? && v.pending.None? && view.open.None?
       case Rejected => v.pending.None? && view.open.None?
       case Joining => v.pending.None? && view.open.None?
       case Finished => v.pending.None? && w.pc == Exited && view.open.None?
  }

  predicate IdsFresh(v: ServiceState, view: View) {
    view.accepted <= U64_MAX && v.nextRequestId <= U64_MAX
    && (v.nextRequestId != 0 ==> view.accepted < v.nextRequestId)
  }

  /** A finished result that the bus has not heard of yet. */
  function InFlight(s: System): Option<Answer> {
    if s.worker.pc.Executed? then Some(s.worker.pc.done.answer)
    else if s.worker.completion.Some? then Some(s.worker.completion.value.answer)
    else if s.service.pc.Answering? then Some(s.service.pc.taken.answer)
    else None
  }

  predicate AnswerCurrent(answer: Answer, engine: nat, signalled: nat) {
    match answer
    case Published(g) => g == engine == signalled + 1
    case Unchanged(g) => g == engine == signalled
    case _ => engine == signalled
  }

  /** The engine is at most one publication ahead of the last signal. */
  predicate GenerationsMatch(s: System, view: View) {
    var w, signalled := s.worker, view.signalled;
    && view.fetched <= w.snapshot
    && w.snapshot == (if w.pc.Executed? && w.pc.done.answer.Published? then w.engine - 1 else w.engine)
    && match InFlight(s)
       case Some(answer) => AnswerCurrent(answer, w.engine, signalled)
       case None => signalled <= w.engine <= signalled + 1 && (w.pc != Exited ==> w.engine == signalled)
  }

  predicate InvView(s: System, view: View) {
    OneOccupant(s.worker) && Announced(s) && Matched(s, view) && IdsFresh(s.service, view) && GenerationsMatch(s, view)
  }

  predicate Inv(s: System) {
    InvView(s, ViewOf(s.service.log)) && Disciplined(s.service.log)
  }

  // ---------------------------------------------------------------- preservation

  lemma {:induction false} AppendEvent(log: seq<Event>, e: Event)
    ensures ViewOf(log + [e]) == After(ViewOf(log), e)
    ensures Disciplined(log) && MayFollow(ViewOf(log), e) ==> Disciplined(log + [e])
  {
    assert (log + [e])[..|log|] == log;
  }

  lemma {:induction false} InitialInv()
    ensures Inv(Initial())
  {
  }

  lemma {:induction false} WorkerStepKeepsInv(s: System, step: Step)
    requires Inv(s) && !DispatcherStep(step) && NextOfWorker(s, step).Some?
    ensures Inv(NextOfWorker(s, step).value)
  {
    hide Disciplined, ViewOf;
  }

  lemma {:induction false} SubmitKeepsInv(s: System, operation: Operation)
    requires Inv(s) && s.service.pc == Idle
    ensures Inv(NextOfDispatcher(s, Submit(operation)).value)
  {
    AppendEvent(s.service.log, Refused);
    AppendEvent(s.service.log, Accepted(s.service.nextRequestId));
    hide Disciplined, ViewOf;
  }

  lemma {:induction false} FailedSignalKeepsInv(s: System, replySent: bool)
    requires Inv(s) && s.service.pc.Answering? && s.service.pc.taken.answer.Published?
    ensures Inv(System(s.worker, AfterDispatch(s.service, false, replySent)))
  {
    AppendEvent(s.service.log, Signalled(s.service.pc.taken.requestId, s.service.pc.taken.answer.generation, false));
    hide Disciplined, ViewOf;
  }

  lemma {:induction false} PublishedDispatchKeepsInv(s: System, replySent: bool)
    requires Inv(s) && s.service.pc.Answering? && s.service.pc.taken.answer.Published?
    ensures Inv(System(s.worker, AfterDispatch(s.service, true, replySent)))
  {
    var log, c := s.service.log, s.service.pc.taken;
    var signal, reply := Signalled(c.requestId, c.answer.generation, true), Replied(c.requestId, c.answer, replySent);
    AppendEvent(log, signal);
    AppendEvent(log + [signal], reply);
    hide Disciplined, ViewOf;
    assert AfterDispatch(s.service, true, replySent).log == log + [signal] + [reply];
    assert MayFollow(ViewOf(log), signal) && MayFollow(ViewOf(log + [signal]), reply);
    hide MayFollow;
  }

  lemma {:induction false} QuietDispatchKeepsInv(s: System, signalSent: bool, replySent: bool)
    requires Inv(s) && s.service.pc.Answering? && !s.service.pc.taken.answer.Published?
    ensures Inv(System(s.worker, AfterDispatch(s.service, signalSent, replySent)))
  {
    var c := s.service.pc.taken;
    AppendEvent(s.service.log, Replied(c.requestId, c.answer, replySent));
    hide Disciplined, ViewOf;
  }

  lemma {:induction false} FetchKeepsInv(s: System)
    requires Inv(s) && s.service.pc == Idle
    ensures Inv(NextOfDispatcher(s, Fetch).value)
  {
    AppendEvent(s.service.log, Fetched(s.worker.snapshot));
    hide Disciplined, ViewOf;
  }

  lemma {:induction false} RejectKeepsInv(s: System, sent: bool)
    requires Inv(s) && (s.service.pc == Idle || s.service.pc == Broken)
    ensures Inv(System(s.worker, AfterReject(s.service, sent)))
  {
    if s.service.pending.Some? {
      AppendEvent(s.service.log, RejectedCall(s.service.pending.value.requestId, sent));
    }
    hide Disciplined, ViewOf;
  }

  /** The steps of the dispatcher that log nothing. */
  lemma {:induction false} SilentStepKeepsInv(s: System, step: Step)
    requires Inv(s) && (step.FinishSubmit? || step.Drain? || step.Take? || step.RaiseStop? || step.Join?)
    requires NextOfDispatcher(s, step).Some?
    ensures Inv(NextOfDispatcher(s, step).value)
  {
    hide Disciplined, ViewOf;
  }

  lemma {:induction false} DispatcherStepKeepsInv(s: System, step: Step)
    requires Inv(s) && DispatcherStep(step) && NextOfDispatcher(s, step).Some?
    ensures Inv(NextOfDispatcher(s, step).value)
  {
    hide Inv, AfterSubmit, AfterDispatch, AfterReject;
    match step {
      case Submit(operation) => SubmitKeepsInv(s, operation);
      case Dispatch(signalSent, replySent) =>
        if s.service.pc.taken.answer.Published? && !signalSent {
          FailedSignalKeepsInv(s, replySent);
        } else if s.service.pc.taken.answer.Published? {
          PublishedDispatchKeepsInv(s, replySent);
        } else {
          QuietDispatchKeepsInv(s, signalSent, replySent);
        }
      case Fetch => FetchKeepsInv(s);
      case Reject(sent) => RejectKeepsInv(s, sent);
      case _ => SilentStepKeepsInv(s, step);
    }
  }

  lemma {:induction false} StepKeepsInv(s: System, step: Step)
    requires Inv(s) && Next(s, step).Some?
    ensures Inv(Next(s, step).value)
  {
    hide Inv, NextOfDispatcher, NextOfWorker;
    if DispatcherStep(step) {
      DispatcherStepKeepsInv(s, step);
    } else {
      WorkerStepKeepsInv(s, step);
    }
  }

  lemma {:induction false} RunKeepsInv(s: System, schedule: seq<Step>)
    requires Inv(s) && Run(s, schedule).Some?
    ensures Inv(Run(s, schedule).value)
    decreases |schedule|
  {
    hide Inv, Next;
    if schedule != [] {
      StepKeepsInv(s, schedule[0]);
      RunKeepsInv(Next(s, schedule[0]).value, schedule[1..]);
    }
  }

  // ---------------------------------------------------------------- what disciplined logs promise

  function Signals(log: seq<Event>): seq<nat> {
    if log == [] then []
    else
      Signals(log[..|log| - 1]) + if log[|log| - 1].Signalled? then [log[|log| - 1].generation] else []
  }

  /** The signalled generations are 2, 3, 4 and so on, without gap or repeat. */
  lemma {:induction false} SignalsAreConsecutive(log: seq<Event>)
    requires Disciplined(log)
    ensures forall k :: 0 <= k < |Signals(log)| ==> Signals(log)[k] == k + 2
    ensures ViewOf(log).signalled == |Signals(log)| + 1
  {
    if log != [] {
      SignalsAreConsecutive(log[..|log| - 1]);
    }
  }

  function Acceptances(log: seq<Event>, id: nat): nat {
    if log == [] then 0 else Acceptances(log[..|log| - 1], id) + Count(log[|log| - 1] == Accepted(id))
  }

  /** A reply or a shutdown rejection that the bus took. */
  predicate Answers(e: Event, id: nat) {
    (e.Replied? || e.RejectedCall?) && e.id == id && e.sent
  }

  /** A signal, reply or rejection of the call that the bus did not take. */
  predicate Loses(e: Event, id: nat) {
    (e.Signalled? || e.Replied? || e.RejectedCall?) && e.id == id && !e.sent
  }

  function AnswersTo(log: seq<Event>, id: nat): nat {
    if log == [] then 0 else AnswersTo(log[..|log| - 1], id) + Count(Answers(log[|log| - 1], id))
  }

  function LossesOf(log: seq<Event>, id: nat): nat {
    if log == [] then 0 else LossesOf(log[..|log| - 1], id) + Count(Loses(log[|log| - 1], id))
  }

  /** A call is accepted at most once; then it is open, or answered once, or lost once. */
  lemma {:induction false} AnsweredOnce(log: seq<Event>, id: nat)
    requires Disciplined(log)
    ensures Acceptances(log, id) == AnswersTo(log, id) + LossesOf(log, id) + Count(ViewOf(log).open == Some(id))
    ensures Acceptances(log, id) <= 1
    ensures id > ViewOf(log).accepted ==> Acceptances(log, id) == 0
  {
    if log != [] {
      AnsweredOnce(log[..|log| - 1], id);
    }
  }

  lemma {:induction false} FetchesBelowLast(log: seq<Event>, i: nat)
    requires Disciplined(log) && i < |log| && log[i].Fetched?
    ensures log[i].generation <= ViewOf(log).fetched
    decreases |log|
  {
    if i < |log| - 1 {
      FetchesBelowLast(log[..|log| - 1], i);
    }
  }

  lemma {:induction false} EachMayFollow(log: seq<Event>, i: nat)
    requires Disciplined(log) && i < |log|
    ensures Disciplined(log[..i]) && MayFollow(ViewOf(log[..i]), log[i])
    decreases |log|
  {
    if i < |log| - 1 {
      EachMayFollow(log[..|log| - 1], i);
      assert log[..|log| - 1][..i] == log[..i];
    }
  }

  /**
   A fetch returns the last signalled generation or the next one, never less than an earlier fetch; and
   the reply that announces a publication comes right after its own signal.
   */
  lemma {:induction false} FetchesAndReplies(log: seq<Event>, i: nat, j: nat)
    requires Disciplined(log) && i < j < |log|
    ensures log[j].Fetched? ==> ViewOf(log[..j]).signalled <= log[j].generation <= ViewOf(log[..j]).signalled + 1
    ensures log[i].Fetched? && log[j].Fetched? ==> log[i].generation <= log[j].generation
    ensures log[j].Replied? && log[j].answer.Published? ==>
      log[j - 1].Signalled? && log[j - 1].generation == log[j].answer.generation && log[j - 1].sent
  {
    EachMayFollow(log, j);
    if log[i].Fetched? && log[j].Fetched? {
      FetchesBelowLast(log[..j], i);
    }
    assert log[..j][|log[..j]| - 1] == log[j - 1];
  }

  // ---------------------------------------------------------------- theorems about every run

  /** Every schedule from the start keeps the slot protocol; the unmatched completion never happens. */
  lemma {:induction false} ReachableIsSafe(schedule: seq<Step>)
    requires Run(Initial(), schedule).Some?
    ensures Inv(Run(Initial(), schedule).value)
    ensures Unmatched !in Run(Initial(), schedule).value.service.log
  {
    InitialInv();
    RunKeepsInv(Initial(), schedule);
    var log := Run(Initial(), schedule).value.service.log;
    forall i | 0 <= i < |log| ensures log[i] != Unmatched {
      EachMayFollow(log, i);
    }
  }

  // ---------------------------------------------------------------- what becomes of one call

  /** The step that closes a call: the dispatch of its completion, or its rejection at shutdown. */
  predicate Closes(s: System, step: Step, id: nat) {
    match step
    case Dispatch(_, _) => s.service.pc.Answering? && s.service.pc.taken.requestId == id
    case Reject(_) => PendingId(s.service) == Some(id)
    case _ => false
  }

  /** The bus takes what such a step sends: a signal only for a publication, and the reply or the rejection. */
  predicate SendsSucceed(s: System, step: Step) {
    match step
    case Dispatch(signalSent, replySent) =>
      replySent && (s.service.pc.Answering? && s.service.pc.taken.answer.Published? ==> signalSent)
    case Reject(sent) => sent
    case _ => true
  }

  lemma {:induction false} CountsAppend(log: seq<Event>, e: Event, id: nat)
    ensures AnswersTo(log + [e], id) == AnswersTo(log, id) + Count(Answers(e, id))
    ensures LossesOf(log + [e], id) == LossesOf(log, id) + Count(Loses(e, id))
    ensures Acceptances(log + [e], id) == Acceptances(log, id) + Count(e == Accepted(id))
  {
    assert (log + [e])[..|log|] == log;
  }

  /** A dispatch answers its call exactly when the bus takes the signal of a publication and the reply. */
  lemma {:induction false} DispatchSettles(v: ServiceState, signalSent: bool, replySent: bool, id: nat)
    requires v.pc.Answering? && PendingId(v) == Some(v.pc.taken.requestId)
    ensures var c, log := v.pc.taken, AfterDispatch(v, signalSent, replySent).log;
      var succeeds := replySent && (c.answer.Published? ==> signalSent);
      && AnswersTo(log, id) == AnswersTo(v.log, id) + Count(c.requestId == id && succeeds)
      && LossesOf(log, id) == LossesOf(v.log, id) + Count(c.requestId == id && !succeeds)
      && Acceptances(log, id) == Acceptances(v.log, id)
      && ViewOf(log).open.None?
  {
    hide AnswersTo, LossesOf, Acceptances, ViewOf;
    var c := v.pc.taken;
    var reply := Replied(c.requestId, c.answer, replySent);
    if c.answer.Published? {
      var signal := Signalled(c.requestId, c.answer.generation, signalSent);
      CountsAppend(v.log, signal, id);
      CountsAppend(v.log + [signal], reply, id);
      AppendEvent(v.log, signal);
      AppendEvent(v.log + [signal], reply);
    } else {
      CountsAppend(v.log, reply, id);
      AppendEvent(v.log, reply);
    }
  }

  /** A step answers or loses exactly the call it closes, and a call stays open until it is closed. */
  lemma {:induction false} StepSettles(s: System, step: Step, id: nat)
    requires Inv(s) && Next(s, step).Some?
    ensures var before, after := s.service.log, Next(s, step).value.service.log;
      && AnswersTo(after, id) == AnswersTo(before, id) + Count(Closes(s, step, id) && SendsSucceed(s, step))
      && LossesOf(after, id) == LossesOf(before, id) + Count(Closes(s, step, id) && !SendsSucceed(s, step))
      && (Acceptances(after, id) != Acceptances(before, id) ==> ViewOf(after).open == Some(id))
      && (ViewOf(before).open == Some(id) ==> Closes(s, step, id) || ViewOf(after).open == Some(id))
  {
    var v, log := s.service, s.service.log;
    hide ViewOf, Disciplined, AnswersTo, LossesOf, Acceptances;
    match step {
      case Submit(operation) =>
        CountsAppend(log, Refused, id);
        AppendEvent(log, Refused);
        CountsAppend(log, Accepted(v.nextRequestId), id);
        AppendEvent(log, Accepted(v.nextRequestId));
      case Fetch => CountsAppend(log, Fetched(s.worker.snapshot), id);
        AppendEvent(log, Fetched(s.worker.snapshot));
      case Dispatch(signalSent, replySent) =>
        DispatchSettles(v, signalSent, replySent, id);
      case Reject(sent) =>
        if v.pending.Some? {
          CountsAppend(log, RejectedCall(v.pending.value.requestId, sent), id);
          AppendEvent(log, RejectedCall(v.pending.value.requestId, sent));
        }
      case _ =>
    }
  }

  lemma {:induction false} RunOneMore(s: System, schedule: seq<Step>, n: nat)
    requires n < |schedule| && Run(s, schedule[..n + 1]).Some?
    ensures Run(s, schedule[..n]).Some?
    ensures Next(Run(s, schedule[..n]).value, schedule[n]) == Run(s, schedule[..n + 1])
    decreases n
  {
    hide Next;
    var prefix := schedule[..n + 1];
    assert schedule[..0] == [];
    if n == 0 {
      assert prefix[1..] == [];
    } else {
      assert prefix[1..] == schedule[1..][..n];
      assert schedule[..n][1..] == schedule[1..][..n - 1];
      RunOneMore(Next(s, schedule[0]).value, schedule[1..], n - 1);
    }
  }

  /**
   An accepted call that is no longer open was closed by one step of the schedule, and it has been answered
   exactly when the bus took what that step sent for it.
   */
  lemma {:induction false} CallIsAnsweredExactly(schedule: seq<Step>, n: nat, id: nat) returns (k: nat)
    requires n <= |schedule| && Run(Initial(), schedule[..n]).Some?
    requires var log := Run(Initial(), schedule[..n]).value.service.log;
      Acceptances(log, id) == 1 && ViewOf(log).open != Some(id)
    ensures k < n && Run(Initial(), schedule[..k]).Some?
    ensures var s := Run(Initial(), schedule[..k]).value;
      && Closes(s, schedule[k], id)
      && (AnswersTo(Run(Initial(), schedule[..n]).value.service.log, id) == 1 <==> SendsSucceed(s, schedule[k]))
    decreases n
  {
    NothingAccepted(schedule, id);
    hide AnswersTo, LossesOf, Acceptances, Next, Inv, Disciplined, ViewOf, Closes, SendsSucceed, Run, Initial;
    RunOneMore(Initial(), schedule, n - 1);
    var s := Run(Initial(), schedule[..n - 1]).value;
    var log := Run(Initial(), schedule[..n]).value.service.log;
    ReachableIsSafe(schedule[..n - 1]);
    ReachableIsSafe(schedule[..n]);
    SettledOnce(s, id);
    SettledOnce(Run(Initial(), schedule[..n]).value, id);
    StepSettles(s, schedule[n - 1], id);
    if Closes(s, schedule[n - 1], id) {
      k := n - 1;
    } else {
      k := CallIsAnsweredExactly(schedule, n - 1, id);
    }
  }

  lemma {:induction false} NothingAccepted(schedule: seq<Step>, id: nat)
    ensures Run(Initial(), schedule[..0]) == Some(Initial()) && Acceptances(Initial().service.log, id) == 0
  {
    assert schedule[..0] == [];
  }

  lemma {:induction false} SettledOnce(s: System, id: nat)
    requires Inv(s)
    ensures var log := s.service.log;
      && Acceptances(log, id) == AnswersTo(log, id) + LossesOf(log, id) + Count(ViewOf(log).open == Some(id))
      && Acceptances(log, id) <= 1
  {
    AnsweredOnce(s.service.log, id);
  }

  /** When the epoch has ended, every accepted call has been answered exactly once, or lost in a failed send. */
  lemma {:induction false} FinishedAnswersAll(schedule: seq<Step>, id: nat)
    requires Run(Initial(), schedule).Some? && Run(Initial(), schedule).value.service.pc == Finished
    ensures var log := Run(Initial(), schedule).value.service.log;
      && ViewOf(log).open.None?
      && AnswersTo(log, id) + LossesOf(log, id) == Acceptances(log, id) <= 1
  {
    ReachableIsSafe(schedule);
    SettledOnce(Run(Initial(), schedule).value, id);
  }

  predicate AllSendsSucceed(schedule: seq<Step>) {
    forall i :: 0 <= i < |schedule| ==>
      match schedule[i]
      case Dispatch(signalSent, replySent) => signalSent && replySent
      case Reject(sent) => sent
      case _ => true
  }

  /** While the bus takes every message, every accepted call is answered exactly once by the end of the epoch. */
  lemma {:induction false} SuccessfulSendsAnswerAll(schedule: seq<Step>, id: nat)
    requires Run(Initial(), schedule).Some? && Run(Initial(), schedule).value.service.pc == Finished
    requires AllSendsSucceed(schedule)
    ensures var log := Run(Initial(), schedule).value.service.log; AnswersTo(log, id) == Acceptances(log, id)
  {
    FinishedAnswersAll(schedule, id);
    assert schedule[..|schedule|] == schedule;
    var log := Run(Initial(), schedule).value.service.log;
    if Acceptances(log, id) == 1 {
      hide Run, Acceptances, AnswersTo, ViewOf, LossesOf;
      var k := CallIsAnsweredExactly(schedule, |schedule|, id);
      assert SendsSucceed(Run(Initial(), schedule[..k]).value, schedule[k]);
    }
  }

  lemma {:induction false} RunOnce(s: System, schedule: seq<Step>, n: nat)
    requires n < |schedule| && Next(s, schedule[n]).Some?
    ensures Run(s, schedule[n..]) == Run(Next(s, schedule[n]).value, schedule[n + 1..])
  {
    assert schedule[n..][1..] == schedule[n + 1..];
    hide Next;
  }

  /** The epoch with its call executing, and with its completion taken. */
  function OneCallExecuting(publishes: bool): System {
    var job := Job(1, if publishes then ProfileChange else CandidateValidation);
    System(WorkerState(false, None, true, None, 1, 0, 1, Executing(job)),
      ServiceState(Some(job), 2, Idle, [Accepted(1)]))
  }

  function OneCallTaken(publishes: bool): System {
    var job, g := Job(1, if publishes then ProfileChange else CandidateValidation), if publishes then 2 else 1;
    System(WorkerState(false, None, false, None, g, 0, g, Waiting),
           ServiceState(Some(job), 2, Answering(Completion(1, if publishes then Published(2) else Validated)),
             [Accepted(1)]))
  }

  lemma {:induction false} RunNothing(s: System, schedule: seq<Step>)
    requires schedule == []
    ensures Run(s, schedule) == Some(s)
  {
  }

  /** An epoch with one call, which is served until the bus fails or is asked to stop. */
  predicate IsOneCallEpoch(schedule: seq<Step>, publishes: bool, signalSent: bool, replySent: bool) {
    && |schedule| == 13
    && schedule[0] == Submit(if publishes then ProfileChange else CandidateValidation)
    && schedule[1] == FinishSubmit && schedule[2] == TakeJob
    && schedule[3] == Execute(if publishes then Published(2) else Validated)
    && schedule[4] == Emplace && schedule[5] == Notify && schedule[6] == Drain && schedule[7] == Take
    && schedule[8] == Dispatch(signalSent, replySent)
    && schedule[9] == Reject(true) && schedule[10] == RaiseStop && schedule[11] == Exit && schedule[12] == Join
  }

  lemma {:induction false} OneCallStarts(schedule: seq<Step>, publishes: bool, signalSent: bool, replySent: bool)
    requires IsOneCallEpoch(schedule, publishes, signalSent, replySent)
    ensures Run(Initial(), schedule) == Run(OneCallExecuting(publishes), schedule[3..])
  {
    var s0 := Initial();
    RunOnce(s0, schedule, 0);
    var s1 := Next(s0, schedule[0]).value;
    RunOnce(s1, schedule, 1);
    var s2 := Next(s1, schedule[1]).value;
    RunOnce(s2, schedule, 2);
    assert [] + [Accepted(1)] == [Accepted(1)];
    assert Next(s2, schedule[2]).value == OneCallExecuting(publishes);
    hide Run, Next;
    assert schedule[0..] == schedule;
  }

  lemma {:induction false} OneCallIsServed(schedule: seq<Step>, publishes: bool, signalSent: bool, replySent: bool)
    requires IsOneCallEpoch(schedule, publishes, signalSent, replySent)
    ensures Run(OneCallExecuting(publishes), schedule[3..]) == Run(OneCallTaken(publishes), schedule[8..])
  {
    hide Run;
    var s3 := OneCallExecuting(publishes);
    RunOnce(s3, schedule, 3);
    var s4 := Next(s3, schedule[3]).value;
    RunOnce(s4, schedule, 4);
    var s5 := Next(s4, schedule[4]).value;
    RunOnce(s5, schedule, 5);
    var s6 := Next(s5, schedule[5]).value;
    RunOnce(s6, schedule, 6);
    var s7 := Next(s6, schedule[6]).value;
    RunOnce(s7, schedule, 7);
    assert Next(s7, schedule[7]).value == OneCallTaken(publishes);
  }

  /** Without a pending call shutdown ends the epoch in four steps that log nothing. */
  lemma {:induction false} ShutdownCompletes(s: System, schedule: seq<Step>, n: nat)
    requires s.service.pending.None? && (s.service.pc == Idle || s.service.pc == Broken)
    requires s.worker.pendingJob.None? && s.worker.pc == Waiting
    requires |schedule| == n + 4
    requires schedule[n] == Reject(true) && schedule[n + 1] == RaiseStop && schedule[n + 2] == Exit
    requires schedule[n + 3] == Join
    ensures Run(s, schedule[n..]) == Some(System(s.worker.(stopping := true, pc := Exited), s.service.(pc := Finished)))
  {
    hide Run;
    RunOnce(s, schedule, n);
    var s1 := Next(s, schedule[n]).value;
    RunOnce(s1, schedule, n + 1);
    var s2 := Next(s1, schedule[n + 1]).value;
    RunOnce(s2, schedule, n + 2);
    var s3 := Next(s2, schedule[n + 2]).value;
    RunOnce(s3, schedule, n + 3);
    RunNothing(Next(s3, schedule[n + 3]).value, schedule[n + 4..]);
  }

  lemma {:induction false} OneCallEnds(schedule: seq<Step>, publishes: bool, signalSent: bool, replySent: bool)
    requires IsOneCallEpoch(schedule, publishes, signalSent, replySent)
    ensures var s := OneCallTaken(publishes);
      Run(s, schedule[8..])
      == Some(System(s.worker.(stopping := true, pc := Exited),
          AfterDispatch(s.service, signalSent, replySent).(pc := Finished)))
  {
    hide Run;
    var s8 := OneCallTaken(publishes);
    RunOnce(s8, schedule, 8);
    var v9 := AfterDispatch(s8.service, signalSent, replySent);
    assert v9.pending.None? && (v9.pc == Idle || v9.pc == Broken);
    assert Next(s8, schedule[8]) == Some(System(s8.worker, v9));
    hide AfterDispatch, Next;
    ShutdownCompletes(System(s8.worker, v9), schedule, 9);
  }

  lemma {:induction false} OneCallLog(publishes: bool, signalSent: bool, replySent: bool)
    ensures var log := AfterDispatch(OneCallTaken(publishes).service, signalSent, replySent).log;
      Acceptances(log, 1) == 1 && (AnswersTo(log, 1) == 1 <==> replySent && (publishes ==> signalSent))
  {
    assert Acceptances([Accepted(1)], 1) == 1 && AnswersTo([Accepted(1)], 1) == 0;
    DispatchSettles(OneCallTaken(publishes).service, signalSent, replySent, 1);
    hide Acceptances, AnswersTo, LossesOf, ViewOf, AfterDispatch;
  }

  /** Calls are lost in both ways: when the signal of a publication fails, and when the reply itself fails. */
  lemma {:induction false} FailedSendLosesCall(publishes: bool, signalSent: bool,
      replySent: bool) returns (schedule: seq<Step>)
    ensures Run(Initial(), schedule).Some? && Run(Initial(), schedule).value.service.pc == Finished
    ensures Dispatch(signalSent, replySent) in schedule
    ensures var log := Run(Initial(), schedule).value.service.log;
      Acceptances(log, 1) == 1 && (AnswersTo(log, 1) == 1 <==> replySent && (publishes ==> signalSent))
  {
    schedule := [
      Submit(if publishes then ProfileChange else CandidateValidation), FinishSubmit, TakeJob,
      Execute(if publishes then Published(2) else Validated), Emplace, Notify, Drain, Take,
      Dispatch(signalSent, replySent), Reject(true), RaiseStop, Exit, Join];
    assert IsOneCallEpoch(schedule, publishes, signalSent, replySent);
    assert schedule[8] in schedule;
    hide *;
    OneCallStarts(schedule, publishes, signalSent, replySent);
    OneCallIsServed(schedule, publishes, signalSent, replySent);
    OneCallEnds(schedule, publishes, signalSent, replySent);
    OneCallLog(publishes, signalSent, replySent);
  }

  /** A waiting completion is never forgotten: poll sees it, or one of the threads is about to act on it. */
  lemma {:induction false} NoLostWakeup(s: System)
    requires Inv(s)
    ensures s.worker.completion.Some? ==> s.worker.eventfd > 0 || s.worker.pc == Notifying || s.service.pc == Drained
    ensures s.worker.eventfd <= 1
    ensures s.service.pc == Drained ==> s.worker.completion.Some?
    ensures s.service.pc == Idle && s.service.pending.None? ==> SlotFree(s.worker)
  {
    hide ViewOf, Disciplined;
  }

  /** Once the stop flag is raised no job starts and no completion appears. */
  lemma {:induction false} NothingStartsAfterStop(s: System, step: Step)
    requires Inv(s) && s.worker.stopping && Next(s, step).Some?
    ensures var t := Next(s, step).value;
      && t.worker.stopping && t.worker.pendingJob.None?
      && (t.worker.pc.Executing? ==> s.worker.pc == t.worker.pc)
      && t.worker.completion == s.worker.completion
      && t.service.log == s.service.log
  {
    hide ViewOf, Disciplined;
  }

  // ---------------------------------------------------------------- progress

  /** How many steps the open call still needs. */
  function StepsToAnswer(s: System): nat {
    var w := s.worker;
    Count(s.service.pc.Submitting?)
    + (if w.pendingJob.Some? then 7
       else if w.pc.Executing? then 6
       else if w.pc.Executed? then 5
       else if w.completion.Some? then (if w.pc == Notifying then 4 else if s.service.pc == Drained then 2 else 3)
       else 1)
  }

  /** The step that brings the open call closer to its answer. */
  function HelpfulStep(s: System): Step {
    var w := s.worker;
    if s.service.pc.Submitting? then FinishSubmit
    else if w.pendingJob.Some? then (if w.pc == Notifying then Notify else TakeJob)
    else if w.pc.Executing? then Execute(EngineFailed)
    else if w.pc.Executed? then Emplace
    else if w.completion.Some? then
      (if w.pc == Notifying then Notify else if s.service.pc == Drained then Take else Drain)
    else Dispatch(true, true)
  }

  lemma {:induction false} HelpfulStepHelps(s: System)
    requires Inv(s) && Serving(s.service) && ViewOf(s.service.log).open.Some?
    ensures Next(s, HelpfulStep(s)).Some?
    ensures var t := Next(s, HelpfulStep(s)).value;
      StepsToAnswer(t) < StepsToAnswer(s) || ViewOf(t.service.log).open.None?
  {
    if HelpfulStep(s).Dispatch? {
      DispatchSettles(s.service, true, true, 0);
    }
    hide ViewOf, Disciplined, AfterDispatch;
  }

  lemma {:induction false} NoStepHinders(s: System, step: Step)
    requires Inv(s) && Serving(s.service) && ViewOf(s.service.log).open.Some?
    requires Next(s, step).Some? && !step.Reject?
    ensures StepsToAnswer(Next(s, step).value) <= StepsToAnswer(s)
  {
    hide ViewOf, Disciplined;
  }

  /**
   While the dispatcher serves, an open call can always be brought one step closer to its answer, and no
   step but the start of shutdown takes it further away.
   */
  lemma {:induction false} OpenCallProgresses(s: System, step: Step)
    requires Inv(s) && Serving(s.service) && ViewOf(s.service.log).open.Some?
    ensures Next(s, HelpfulStep(s)).Some?
    ensures var t := Next(s, HelpfulStep(s)).value;
      StepsToAnswer(t) < StepsToAnswer(s) || ViewOf(t.service.log).open.None?
    ensures Next(s, step).Some? && !step.Reject? ==> StepsToAnswer(Next(s, step).value) <= StepsToAnswer(s)
  {
    HelpfulStepHelps(s);
    if Next(s, step).Some? && !step.Reject? {
      NoStepHinders(s, step);
    }
  }

  lemma {:induction false} HelpfulStepServes(s: System)
    requires Inv(s) && Serving(s.service) && ViewOf(s.service.log).open.Some? && Next(s, HelpfulStep(s)).Some?
    ensures Serving(Next(s, HelpfulStep(s)).value.service)
  {
    hide ViewOf, Disciplined;
  }

  /** From every such state the service can close the open call within the steps counted, all sends succeeding. */
  lemma {:induction false} OpenCallCloses(s: System) returns (schedule: seq<Step>)
    requires Inv(s) && Serving(s.service) && ViewOf(s.service.log).open.Some?
    ensures |schedule| <= StepsToAnswer(s) && AllSendsSucceed(schedule)
    ensures Run(s, schedule).Some? && ViewOf(Run(s, schedule).value.service.log).open.None?
    decreases StepsToAnswer(s)
  {
    var step := HelpfulStep(s);
    HelpfulStepHelps(s);
    HelpfulStepServes(s);
    var t := Next(s, step).value;
    RunOnce(s, [step], 0);
    if ViewOf(t.service.log).open.None? {
      hide Next, Inv, ViewOf;
      schedule := [step];
      assert [step][1..] == [] && [step][0..] == [step];
    } else {
      StepKeepsInv(s, step);
      hide Next, Inv, ViewOf, StepsToAnswer;
      var rest := OpenCallCloses(t);
      schedule := [step] + rest;
      assert schedule[1..] == rest;
    }
  }

  // ---------------------------------------------------------------- the engine behind the worker

  function OperationOf(op: SettingsEngine.Operation): Operation {
    match op
    case ChangeProfile(_) => ProfileChange
    case Reload(_, _, _) => Operation.Reload
    case Validate(_) => CandidateValidation
  }

  /** What the worker makes of an answer of the engine. */
  function AnswerOf(a: SettingsEngine.Answer): Answer {
    match a
    case Publication(Failure(_)) => EngineFailed
    case Publication(Success(o)) => if o.published then Published(o.snapshot.generation)
      else Unchanged(o.snapshot.generation)
    case Validation(Failure(_)) => EngineFailed
    case Validation(Success(_)) => Validated
  }

  /** Every step of the settings engine is one that the protocol allows, and moves the generation as it says. */
  lemma {:induction false} EngineStepsAreAllowed(env: SettingsEngine.Environment, s: SettingsEngine.State,
      op: SettingsEngine.Operation, w: WorkerState)
    requires SettingsEngine.Coherent(env, s) && w.engine == s.current.generation
    requires w.pc.Executing? && w.pc.job.operation == OperationOf(op)
    ensures var (t, a) := SettingsEngine.Step(env, s, op);
      EngineMay(w, OperationOf(op), AnswerOf(a)) && AfterExecute(w, AnswerOf(a)).engine == t.current.generation
  {
    SettingsEngine.GenerationsAdvanceByPublishing(env, s, op);
    SettingsEngine.StepKeepsCoherent(env, s, op);
    hide SettingsEngine.Changed, SettingsEngine.Build, SettingsEngine.Coherent;
  }
}
