/**
 Which answer each settings call gets. The executions of a schedule are read off its steps, without the
 functions that say what a dispatch logs: a reply carries exactly what the engine answered when it executed
 that call, for the operation that was asked for, and no call is executed twice.
 */
module SettingsAnswers {
  import opened Foundation
  import opened SettingsDaemon

  // ---------------------------------------------------------------- which answer a call gets

  /** An execution of the engine: the job it was given and the answer it gave. */
  datatype Execution = Execution(job: Job, answer: Answer)

  /** The calls that a schedule gets accepted: what was asked for, under the identifier the bus was told. */
  function Calls(s: System, schedule: seq<Step>): seq<Job>
    requires Run(s, schedule).Some?
    decreases |schedule|
  {
    if schedule == [] then []
    else
      var t := Next(s, schedule[0]).value;
      CallsOf(schedule[0], s.service.log, t.service.log) + Calls(t, schedule[1..])
  }

  function CallsOf(step: Step, before: seq<Event>, after: seq<Event>): seq<Job> {
    if step.Submit? && |after| == |before| + 1 && after[|before|].Accepted? then
      [Job(after[|before|].id, step.operation)]
    else []
  }

  /** The executions of a schedule: the answers of its Execute steps, each with the job that was executing. */
  function Executions(s: System, schedule: seq<Step>): seq<Execution>
    requires Run(s, schedule).Some?
    decreases |schedule|
  {
    if schedule == [] then []
    else ExecutionsOf(s, schedule[0]) + Executions(Next(s, schedule[0]).value, schedule[1..])
  }

  function ExecutionsOf(s: System, step: Step): seq<Execution> {
    if step.Execute? && s.worker.pc.Executing? then [Execution(s.worker.pc.job, step.answer)] else []
  }

  /** What a reply says is what the engine answered to that call; a signal is for what it published. */
  predicate Reports(e: Event, executions: seq<Execution>) {
    match e
    case Replied(id, answer, _) => exists x :: x in executions && x.job.requestId == id && x.answer == answer
    case Signalled(id, g, _) => exists x :: x in executions && x.job.requestId == id && x.answer == Published(g)
    case _ => true
  }

  predicate AllReport(log: seq<Event>, executions: seq<Execution>) {
    forall i :: 0 <= i < |log| ==> Reports(log[i], executions)
  }

  /** Every call is executed at most once: identifiers grow from one execution to the next. */
  predicate IdsGrow(executions: seq<Execution>) {
    forall i, j :: 0 <= i < j < |executions| ==> executions[i].job.requestId < executions[j].job.requestId
  }

  predicate Before(executions: seq<Execution>, id: nat) {
    forall x :: x in executions ==> x.job.requestId < id
  }

  predicate IsLast(executions: seq<Execution>, c: Completion) {
    && executions != []
    && executions[|executions| - 1].job.requestId == c.requestId && executions[|executions| - 1].answer == c.answer
  }

  /** The job on its way is one that was asked for, and a completion on its way is that of the last execution. */
  predicate Underway(s: System, calls: seq<Job>, executions: seq<Execution>) {
    var w, v := s.worker, s.service;
    && (w.pendingJob.Some? ==> w.pendingJob.value in calls && Before(executions, w.pendingJob.value.requestId))
    && (w.pc.Executing? ==> w.pc.job in calls && Before(executions, w.pc.job.requestId))
    && (w.pc.Executed? ==> IsLast(executions, w.pc.done))
    && (w.completion.Some? ==> IsLast(executions, w.completion.value))
    && (v.pc.Answering? ==> IsLast(executions, v.pc.taken))
  }

  predicate CallsKnown(log: seq<Event>, calls: seq<Job>, executions: seq<Execution>) {
    && (forall c :: c in calls ==> c.requestId <= ViewOf(log).accepted)
    && (forall x :: x in executions ==> x.job in calls)
  }

  predicate Told(s: System, calls: seq<Job>, executions: seq<Execution>) {
    && Underway(s, calls, executions) && IdsGrow(executions)
    && CallsKnown(s.service.log, calls, executions) && AllReport(s.service.log, executions)
  }

  // ---------------------------------------------------------------- every step keeps it

  lemma {:induction false} MoreReport(log: seq<Event>, executions: seq<Execution>, x: Execution)
    requires AllReport(log, executions)
    ensures AllReport(log, executions + [x])
  {
    forall i | 0 <= i < |log| ensures Reports(log[i], executions + [x]) {
      assert Reports(log[i], executions);
      assert forall y :: y in executions ==> y in executions + [x];
    }
  }

  lemma {:induction false} ReportOneMore(log: seq<Event>, e: Event, executions: seq<Execution>)
    requires AllReport(log, executions) && Reports(e, executions)
    ensures AllReport(log + [e], executions)
  {
  }

  lemma {:induction false} SubmitKeepsTold(s: System, operation: Operation, calls: seq<Job>, executions: seq<Execution>)
    requires Inv(s) && Told(s, calls, executions) && Next(s, Submit(operation)).Some?
    ensures var t := Next(s, Submit(operation)).value;
      Told(t, calls + CallsOf(Submit(operation), s.service.log, t.service.log), executions)
  {
    var log, id := s.service.log, s.service.nextRequestId;
    AppendEvent(log, Refused);
    AppendEvent(log, Accepted(id));
    ReportOneMore(log, Refused, executions);
    ReportOneMore(log, Accepted(id), executions);
    hide ViewOf, Disciplined, AllReport, Announced, GenerationsMatch;
  }

  lemma {:induction false} ExecuteKeepsTold(s: System, answer: Answer, calls: seq<Job>, executions: seq<Execution>)
    requires Inv(s) && Told(s, calls, executions) && Next(s, Execute(answer)).Some?
    ensures Told(Next(s, Execute(answer)).value, calls, executions + ExecutionsOf(s, Execute(answer)))
  {
    MoreReport(s.service.log, executions, Execution(s.worker.pc.job, answer));
    hide ViewOf, Disciplined, AllReport, Announced, GenerationsMatch;
  }

  lemma {:induction false} DispatchKeepsTold(s: System, signalSent: bool, replySent: bool, calls: seq<Job>,
      executions: seq<Execution>)
    requires Inv(s) && Told(s, calls, executions) && Next(s, Dispatch(signalSent, replySent)).Some?
    ensures Told(Next(s, Dispatch(signalSent, replySent)).value, calls, executions)
  {
    var log, c := s.service.log, s.service.pc.taken;
    var x := executions[|executions| - 1];
    assert x in executions;
    var reply := Replied(c.requestId, c.answer, replySent);
    assert Reports(reply, executions);
    ReportOneMore(log, reply, executions);
    AppendEvent(log, reply);
    if c.answer.Published? {
      var signal := Signalled(c.requestId, c.answer.generation, signalSent);
      assert Reports(signal, executions);
      ReportOneMore(log, signal, executions);
      AppendEvent(log, signal);
      ReportOneMore(log + [signal], reply, executions);
      AppendEvent(log + [signal], reply);
    }
    hide ViewOf, Disciplined, AllReport, Announced, GenerationsMatch, Reports;
  }

  /** The other steps ask for nothing, execute nothing, and log no reply. */
  lemma {:induction false} OtherStepKeepsTold(s: System, step: Step, calls: seq<Job>, executions: seq<Execution>)
    requires Inv(s) && Told(s, calls, executions) && Next(s, step).Some?
    requires !step.Submit? && !step.Execute? && !step.Dispatch?
    ensures Told(Next(s, step).value, calls, executions)
  {
    var log := s.service.log;
    if step.Fetch? {
      AppendEvent(log, Fetched(s.worker.snapshot));
      ReportOneMore(log, Fetched(s.worker.snapshot), executions);
    } else if step.Reject? && s.service.pending.Some? {
      AppendEvent(log, RejectedCall(s.service.pending.value.requestId, step.sent));
      ReportOneMore(log, RejectedCall(s.service.pending.value.requestId, step.sent), executions);
    }
    hide ViewOf, Disciplined, AllReport, Announced, GenerationsMatch, Reports;
  }

  lemma {:induction false} StepKeepsTold(s: System, step: Step, calls: seq<Job>, executions: seq<Execution>)
    requires Inv(s) && Told(s, calls, executions) && Next(s, step).Some?
    ensures var t := Next(s, step).value;
      Told(t, calls + CallsOf(step, s.service.log, t.service.log), executions + ExecutionsOf(s, step))
  {
    assert calls + [] == calls && executions + [] == executions;
    match step {
      case Submit(operation) => SubmitKeepsTold(s, operation, calls, executions);
      case Execute(answer) => ExecuteKeepsTold(s, answer, calls, executions);
      case Dispatch(signalSent, replySent) => DispatchKeepsTold(s, signalSent, replySent, calls, executions);
      case _ => OtherStepKeepsTold(s, step, calls, executions);
    }
  }

  lemma {:induction false} RunKeepsTold(s: System, schedule: seq<Step>, calls: seq<Job>, executions: seq<Execution>)
    requires Inv(s) && Told(s, calls, executions) && Run(s, schedule).Some?
    ensures Told(Run(s, schedule).value, calls + Calls(s, schedule), executions + Executions(s, schedule))
    decreases |schedule|
  {
    hide Inv, Told, Next, CallsOf, ExecutionsOf;
    if schedule == [] {
      assert calls + [] == calls && executions + [] == executions;
    } else {
      var t := Next(s, schedule[0]).value;
      var asked, done := CallsOf(schedule[0], s.service.log, t.service.log), ExecutionsOf(s, schedule[0]);
      StepKeepsInv(s, schedule[0]);
      StepKeepsTold(s, schedule[0], calls, executions);
      RunKeepsTold(t, schedule[1..], calls + asked, executions + done);
      assert calls + asked + Calls(t, schedule[1..]) == calls + Calls(s, schedule);
      assert executions + done + Executions(t, schedule[1..]) == executions + Executions(s, schedule);
    }
  }

  lemma {:induction false} ReachableIsTold(schedule: seq<Step>)
    requires Run(Initial(), schedule).Some?
    ensures Told(Run(Initial(), schedule).value, Calls(Initial(), schedule), Executions(Initial(), schedule))
  {
    InitialInv();
    RunKeepsTold(Initial(), schedule, [], []);
    assert [] + Calls(Initial(), schedule) == Calls(Initial(), schedule);
    assert [] + Executions(Initial(), schedule) == Executions(Initial(), schedule);
  }

  // ---------------------------------------------------------------- where calls and executions come from

  /** Step k executes that job with that answer. */
  predicate ExecutesAt(s: System, schedule: seq<Step>, k: nat, x: Execution) {
    && k < |schedule| && Run(s, schedule[..k]).Some?
    && Run(s, schedule[..k]).value.worker.pc == Executing(x.job) && schedule[k] == Execute(x.answer)
  }

  /** Step j submits that call, and the bus is told that it was accepted under that identifier. */
  predicate AcceptsAt(s: System, schedule: seq<Step>, j: nat, call: Job) {
    && j < |schedule| && Run(s, schedule[..j]).Some? && schedule[j] == Submit(call.operation)
    && var t := Run(s, schedule[..j]).value;
       && Next(t, schedule[j]).Some?
       && Next(t, schedule[j]).value.service.log == t.service.log + [Accepted(call.requestId)]
  }

  lemma {:induction false} RunLater(s: System, schedule: seq<Step>, k: nat)
    requires k < |schedule| && Next(s, schedule[0]).Some?
    ensures Run(s, schedule[..k + 1]) == Run(Next(s, schedule[0]).value, schedule[1..][..k])
  {
    assert schedule[..k + 1][1..] == schedule[1..][..k];
    hide Next;
  }

  lemma {:induction false} FindExecution(s: System, schedule: seq<Step>, x: Execution) returns (k: nat)
    requires Run(s, schedule).Some? && x in Executions(s, schedule)
    ensures ExecutesAt(s, schedule, k, x)
    decreases |schedule|
  {
    hide Next;
    if x in ExecutionsOf(s, schedule[0]) {
      k := 0;
      assert schedule[..0] == [];
    } else {
      k := FindExecution(Next(s, schedule[0]).value, schedule[1..], x);
      RunLater(s, schedule, k);
      k := k + 1;
    }
  }

  lemma {:induction false} ExecutionIsListed(s: System, schedule: seq<Step>, k: nat, x: Execution)
    requires Run(s, schedule).Some? && ExecutesAt(s, schedule, k, x)
    ensures x in Executions(s, schedule)
    decreases |schedule|
  {
    hide Next;
    if k == 0 {
      assert schedule[..0] == [];
    } else {
      RunLater(s, schedule, k - 1);
      ExecutionIsListed(Next(s, schedule[0]).value, schedule[1..], k - 1, x);
    }
  }

  lemma {:induction false} SubmitLogsOnce(s: System, step: Step)
    requires Next(s, step).Some?
    ensures forall call :: call in CallsOf(step, s.service.log, Next(s, step).value.service.log) ==>
      step == Submit(call.operation) && Next(s, step).value.service.log == s.service.log + [Accepted(call.requestId)]
  {
  }

  lemma {:induction false} FindCall(s: System, schedule: seq<Step>, call: Job) returns (j: nat)
    requires Run(s, schedule).Some? && call in Calls(s, schedule)
    ensures AcceptsAt(s, schedule, j, call)
    decreases |schedule|
  {
    var t := Next(s, schedule[0]).value;
    SubmitLogsOnce(s, schedule[0]);
    hide Next;
    if call in CallsOf(schedule[0], s.service.log, t.service.log) {
      j := 0;
      assert schedule[..0] == [];
    } else {
      j := FindCall(t, schedule[1..], call);
      RunLater(s, schedule, j);
      j := j + 1;
    }
  }

  lemma {:induction false} RunShorter(s: System, schedule: seq<Step>, k: nat)
    requires k <= |schedule| && Run(s, schedule).Some?
    ensures Run(s, schedule[..k]).Some?
    decreases |schedule|
  {
    hide Next;
    if k > 0 {
      RunLater(s, schedule, k - 1);
      RunShorter(Next(s, schedule[0]).value, schedule[1..], k - 1);
    }
  }

  // ---------------------------------------------------------------- the theorems

  /** What is executed was asked for: an earlier step submitted it, and the bus saw it accepted. */
  lemma {:induction false} ExecutionWasAskedFor(schedule: seq<Step>, k: nat, x: Execution) returns (j: nat)
    requires Run(Initial(), schedule).Some? && ExecutesAt(Initial(), schedule, k, x)
    ensures j < k && AcceptsAt(Initial(), schedule, j, x.job)
  {
    ReachableIsTold(schedule[..k]);
    hide Run, Next;
    j := FindCall(Initial(), schedule[..k], x.job);
    assert schedule[..k][..j] == schedule[..j];
  }

  /**
   A reply in any log carries the answer that the engine gave when it executed that very call, for the
   operation that was submitted. Taken at the shortest schedule that logs the reply, both steps are earlier.
   */
  lemma {:induction false} ReplyIsTheEnginesAnswer(schedule: seq<Step>, i: nat) returns (j: nat, k: nat)
    requires Run(Initial(), schedule).Some?
    requires i < |Run(Initial(), schedule).value.service.log| && Run(Initial(), schedule).value.service.log[i].Replied?
    ensures var reply := Run(Initial(), schedule).value.service.log[i];
      && j < k < |schedule| && schedule[j].Submit?
      && AcceptsAt(Initial(), schedule, j, Job(reply.id, schedule[j].operation))
      && ExecutesAt(Initial(), schedule, k, Execution(Job(reply.id, schedule[j].operation), reply.answer))
  {
    var log := Run(Initial(), schedule).value.service.log;
    ReachableIsTold(schedule);
    assert Reports(log[i], Executions(Initial(), schedule));
    var x :| x in Executions(Initial(), schedule) && x.job.requestId == log[i].id && x.answer == log[i].answer;
    hide Run, Next, Told;
    k := FindExecution(Initial(), schedule, x);
    j := ExecutionWasAskedFor(schedule, k, x);
  }

  /** So is the generation of a signal: the engine published it when it executed that call. */
  lemma {:induction false} SignalIsTheEnginesPublication(schedule: seq<Step>, i: nat) returns (k: nat, job: Job)
    requires Run(Initial(), schedule).Some?
    requires i < |Run(Initial(), schedule).value.service.log|
    requires Run(Initial(), schedule).value.service.log[i].Signalled?
    ensures var signal := Run(Initial(), schedule).value.service.log[i];
      job.requestId == signal.id
      && ExecutesAt(Initial(), schedule, k, Execution(job, Published(signal.generation)))
  {
    var log := Run(Initial(), schedule).value.service.log;
    ReachableIsTold(schedule);
    assert Reports(log[i], Executions(Initial(), schedule));
    var x :| x in Executions(Initial(), schedule) && x.job.requestId == log[i].id
             && x.answer == Published(log[i].generation);
    hide Run, Next, Told;
    job := x.job;
    k := FindExecution(Initial(), schedule, x);
  }

  lemma {:induction false} GrowingIdsDiffer(executions: seq<Execution>, x: Execution, y: Execution)
    requires IdsGrow(executions) && x in executions && y in executions && x.job.requestId == y.job.requestId
    ensures x == y
  {
    var i :| 0 <= i < |executions| && executions[i] == x;
    var j :| 0 <= j < |executions| && executions[j] == y;
  }

  /** If the engine executes a call, every reply to this call is the answer it gave: there is no other. */
  lemma {:induction false} CallGetsItsAnswer(schedule: seq<Step>, k: nat, x: Execution, i: nat)
    requires Run(Initial(), schedule).Some? && ExecutesAt(Initial(), schedule, k, x)
    requires i < |Run(Initial(), schedule).value.service.log|
    ensures var e := Run(Initial(), schedule).value.service.log[i];
      && (e.Replied? && e.id == x.job.requestId ==> e.answer == x.answer)
      && (e.Signalled? && e.id == x.job.requestId ==> x.answer == Published(e.generation))
  {
    var e := Run(Initial(), schedule).value.service.log[i];
    ReachableIsTold(schedule);
    ExecutionIsListed(Initial(), schedule, k, x);
    assert Reports(e, Executions(Initial(), schedule));
    hide Run, Next;
    forall y | y in Executions(Initial(), schedule) && y.job.requestId == x.job.requestId ensures y == x {
      GrowingIdsDiffer(Executions(Initial(), schedule), x, y);
    }
  }

  // ---------------------------------------------------------------- after a failed send

  predicate IsFailedSend(e: Event) {
    (e.Signalled? || e.Replied?) && !e.sent
  }

  /** A signal or reply that could not be sent is the last thing the bus sees, and the loop has been left. */
  predicate EndsWithFailure(s: System) {
    forall i :: 0 <= i < |s.service.log| && IsFailedSend(s.service.log[i]) ==>
      i == |s.service.log| - 1 && !Serving(s.service)
  }

  lemma {:induction false} StepEndsWithFailure(s: System, step: Step)
    requires Inv(s) && EndsWithFailure(s) && Next(s, step).Some?
    ensures EndsWithFailure(Next(s, step).value)
  {
    hide ViewOf, Disciplined, Announced, GenerationsMatch, IdsFresh, OneOccupant;
  }

  lemma {:induction false} RunEndsWithFailure(s: System, schedule: seq<Step>)
    requires Inv(s) && EndsWithFailure(s) && Run(s, schedule).Some?
    ensures EndsWithFailure(Run(s, schedule).value)
    decreases |schedule|
  {
    hide Inv, Next, EndsWithFailure;
    if schedule != [] {
      StepKeepsInv(s, schedule[0]);
      StepEndsWithFailure(s, schedule[0]);
      RunEndsWithFailure(Next(s, schedule[0]).value, schedule[1..]);
    }
  }

  /** In every schedule a failed signal or reply ends the epoch: nothing is accepted, fetched or sent after it. */
  lemma {:induction false} FailedSendIsLast(schedule: seq<Step>)
    requires Run(Initial(), schedule).Some?
    ensures EndsWithFailure(Run(Initial(), schedule).value)
  {
    InitialInv();
    RunEndsWithFailure(Initial(), schedule);
  }
}
