/** The command queue and the runner's handlers as objects. Without interference, each method does
    what the worker's atomic steps in AsyncRunner do one after the other. */
module AsyncRunnerObject {
  import S = ExecutionStatus
  import opened AsyncRunner
  import opened AsyncSafety

  predicate InHandling(w: Worker) {
    w.Handling? || w.Pausing? || w.ClearingHalt? || w.EndingReset?
  }

  function HandlingLeft(w: Worker): nat {
    if w.Handling? then 3 else if w.ClearingHalt? then 2 else if InHandling(w) then 1 else 0
  }

  /** The worker's steps until a popped command is handled. */
  function FinishHandling(s: Job): Job
    decreases HandlingLeft(s.worker)
  {
    if InHandling(s.worker) then
      HandlingGetsCloser(s);
      FinishHandling(WorkerDo(s, S.Success))
    else s
  }

  lemma {:induction false} HandlingGetsCloser(s: Job)
    requires InHandling(s.worker)
    ensures HandlingLeft(WorkerDo(s, S.Success).worker) < HandlingLeft(s.worker)
  {
    if s.worker.Handling? {
      HandledIsCloser(s, s.worker.cmd, s.worker.inRun);
    }
  }

  lemma {:induction false} HandledIsCloser(s: Job, cmd: JobCommand, inRun: bool)
    ensures HandlingLeft(HandleCommand(s, cmd, inRun).worker) <= 2
  {
  }

  // ---------------------------------------------------------------- what each command does

  /** The state a job is in once a command was handled between runs or during one. */
  function Response(state: JobState, cmd: JobCommand): JobState {
    match cmd
    case Start => if state == Initial || state == Paused then Running else state
    case Step => if state == Initial || state == Paused then Stepping else if state == Running then Paused else state
    case Pause => if state == Running then Paused else state
    case Reset => if state == Succeeded || state == Failed || state == Halted then Initial else state
    case Halt => if state == Initial || state == Paused || state == Running then Halted else state
    case Terminate => state
  }

  lemma {:induction false} FinishSettled(s: Job)
    requires !InHandling(s.worker)
    ensures FinishHandling(s) == s
  {
  }

  lemma {:induction false} FinishPause(s: Job)
    requires s.worker.Pausing?
    ensures FinishHandling(s) == Publish(s, Paused).(worker := Back(s.worker.inRun))
  {
    FinishSettled(WorkerDo(s, S.Success));
  }

  function AfterReset(s: Job): Job
    requires s.worker.ClearingHalt?
  {
    Publish(s.(rootHalted := false), Initial).(worker := Back(s.worker.inRun))
  }

  lemma {:induction false} FinishReset(s: Job)
    requires s.worker.ClearingHalt?
    ensures FinishHandling(s) == AfterReset(s)
  {
    var t := WorkerDo(s, S.Success);
    assert FinishHandling(s) == FinishHandling(t);
    FinishSettled(WorkerDo(t, S.Success));
  }

  /** What is left of handling a command after its first step. */
  lemma {:induction false} FinishPlain(s: Job)
    requires !s.worker.Handling?
    ensures !InHandling(s.worker) ==> FinishHandling(s) == s
    ensures s.worker.Pausing? ==> FinishHandling(s) == Publish(s, Paused).(worker := Back(s.worker.inRun))
    ensures s.worker.ClearingHalt? ==> FinishHandling(s) == AfterReset(s)
  {
    if s.worker.Pausing? { FinishPause(s); }
    if s.worker.ClearingHalt? { FinishReset(s); }
  }

  lemma {:induction false} FinishCommand(s: Job)
    requires s.worker.Handling?
    ensures FinishHandling(s) == FinishHandling(HandleCommand(s, s.worker.cmd, s.worker.inRun))
  {
  }

  predicate Responds(s: Job, cmd: JobCommand, t: Job) {
    && t.published == Response(s.published, cmd)
    && (s.published != t.published && t.published == Initial ==> t.root == S.NotStarted && !t.rootHalted)
    && (cmd == Terminate <==> !t.keepAlive)
  }

  lemma {:induction false} IdleResponds(s: Job, cmd: JobCommand, inRun: bool)
    requires Inv(s) && s.worker == Handling(cmd, inRun) && Idle(s.handler)
    ensures Responds(s, cmd, FinishHandling(HandleWhenIdle(s, cmd, inRun)))
  {
    FinishSettled(HandleWhenIdle(s, cmd, inRun));
  }

  lemma {:induction false} RunningResponds(s: Job, cmd: JobCommand, inRun: bool)
    requires Inv(s) && s.worker == Handling(cmd, inRun) && s.handler == HandleRunning
    ensures Responds(s, cmd, FinishHandling(HandleWhenRunning(s, cmd, inRun)))
  {
    var t := HandleWhenRunning(s, cmd, inRun);
    if t.worker.Pausing? { FinishPause(t); } else { FinishSettled(t); }
  }

  lemma {:induction false} FinishedResponds(s: Job, cmd: JobCommand, inRun: bool)
    requires Inv(s) && s.worker == Handling(cmd, inRun) && s.handler == HandleFinished
    ensures Responds(s, cmd, FinishHandling(HandleWhenFinished(s, cmd, inRun)))
  {
    var t := HandleWhenFinished(s, cmd, inRun);
    if t.worker.ClearingHalt? { FinishReset(t); } else { FinishSettled(t); }
  }

  /** Whatever the job's state when the worker handles a command, the response is the documented
      one; the tree is at its start after a reset, and the worker stops after a termination. */
  lemma {:induction false} CommandResponse(s: Job)
    requires Inv(s) && s.worker.Handling?
    ensures Responds(s, s.worker.cmd, FinishHandling(s))
  {
    FinishCommand(s);
    var cmd, inRun := s.worker.cmd, s.worker.inRun;
    match s.handler
    case HandleInitial => IdleResponds(s, cmd, inRun);
    case HandlePaused => IdleResponds(s, cmd, inRun);
    case HandleRunning => RunningResponds(s, cmd, inRun);
    case HandleFinished => FinishedResponds(s, cmd, inRun);
  }

  // ---------------------------------------------------------------- the queue

  class JobCommandQueue {
    var commands: seq<JobCommand>
    ghost var pushed: seq<JobCommand>
    ghost var popped: seq<JobCommand>

    ghost function Contents(): Mail
      reads this
    {
      Mail(commands, Nobody, pushed, popped)
    }

    constructor ()
      ensures Contents() == Mail([], Nobody, [], [])
    {
      commands, pushed, popped := [], [], [];
    }

    method Push(command: JobCommand)
      requires Ordinary(command) && QueueOk(Contents())
      modifies this
      ensures QueueOk(Contents())
      ensures Contents() == old(Contents()).(queue := old(commands) + [command], pushed := old(pushed) + [command])
    {
      PushKeepsShape(commands, command);
      OrdinaryAppend(commands, command);
      Associate(popped, OrdinaryOf(commands), [command]);
      commands := commands + [command];
      pushed := pushed + [command];
    }

    /** Refuses a command that does not outrank the front; otherwise halts the runner under the
        lock and puts the command in front. */
    method PriorityPush(command: JobCommand, runner: Runner) returns (accepted: bool)
      requires !Ordinary(command) && QueueOk(Contents())
      modifies this, runner
      ensures QueueOk(Contents())
      ensures accepted <==> !Refused(old(commands), command)
      ensures Contents() == if accepted then old(Contents()).(queue := [command] + old(commands)) else old(Contents())
      ensures if accepted then runner.halt && runner.rootHalted && runner.root == old(runner.root)
        else unchanged(runner)
    {
      if commands != [] && Priority(command) <= Priority(commands[0]) {
        return false;
      }
      runner.Halt();
      PushFrontKeepsShape(commands, command);
      assert ([command] + commands)[1..] == commands;
      commands := [command] + commands;
      return true;
    }

    method TryPop() returns (ok: bool, command: JobCommand)
      requires QueueOk(Contents())
      modifies this
      ensures QueueOk(Contents())
      ensures ok <==> old(commands) != []
      ensures if ok then command == old(commands)[0] && Contents() == TakeFront(old(Contents()))
              else Contents() == old(Contents())
    {
      command := Start;
      if commands == [] {
        return false, command;
      }
      command := Take();
      ok := true;
    }

    /** Waiting is left to the caller: the queue has to hold a command. */
    method WaitForNextCommand() returns (command: JobCommand)
      requires commands != [] && QueueOk(Contents())
      modifies this
      ensures QueueOk(Contents())
      ensures command == old(commands)[0] && Contents() == TakeFront(old(Contents()))
    {
      command := Take();
    }

    method Take() returns (command: JobCommand)
      requires commands != [] && QueueOk(Contents())
      modifies this
      ensures QueueOk(Contents())
      ensures command == old(commands)[0] && Contents() == TakeFront(old(Contents()))
    {
      PopKeepsQueueOk(Contents());
      command := commands[0];
      commands := commands[1..];
      if Ordinary(command) {
        popped := popped + [command];
      }
    }
  }

  // ---------------------------------------------------------------- the runner

  /** The part of Runner and Procedure the protocol depends on. */
  class Runner {
    var halt: bool
    var root: S.Status
    var rootHalted: bool

    constructor ()
      ensures !halt && root == S.NotStarted && !rootHalted
    {
      halt, root, rootHalted := false, S.NotStarted, false;
    }

    method Halt()
      modifies this
      ensures halt && rootHalted && root == old(root)
    {
      halt := true;
      rootHalted := true;
    }

    method Pause()
      modifies `halt
      ensures halt
    {
      halt := true;
    }

    /** Resets the procedure. */
    method Reset()
      modifies `root, `rootHalted
      ensures root == S.NotStarted && !rootHalted
    {
      root := S.NotStarted;
      rootHalted := false;
    }
  }

  datatype Action = Continue | DoStep | DoRun | Exit

  /** Where the execution loop goes with an action. */
  function Follow(action: Action): Worker {
    match action
    case Continue => Waiting
    case DoStep => BeginningStep
    case DoRun => EnteringRun
    case Exit => Exited
  }

  class AsyncRunnerObject {
    const queue: JobCommandQueue
    const runner: Runner
    var handler: Handler
    var published: JobState
    var keepAlive: bool
    ghost var trace: seq<Event>

    /** The job with its worker at the given place. */
    ghost function At(w: Worker): Job
      reads this, queue, runner
    {
      Job(queue.Contents(), w, handler, published, keepAlive, runner.halt, runner.root, runner.rootHalted, trace)
    }

    constructor ()
      ensures fresh(queue) && fresh(runner) && At(Waiting) == START
    {
      queue := new JobCommandQueue();
      runner := new Runner();
      handler, published, keepAlive, trace := HandleInitial, Initial, true, [Published(Initial)];
    }

    method SetState(state: JobState)
      modifies this
      ensures forall w :: At(w) == Publish(old(At(w)), state)
    {
      published := state;
      trace := trace + [Published(state)];
      match state
      case Initial => handler := HandleInitial;
      case Paused => handler := HandlePaused;
      case Stepping =>
      case Running => handler := HandleRunning;
      case _ => handler := HandleFinished;
    }

    method HandleCommand(cmd: JobCommand) returns (action: Action)
      modifies this, runner
      ensures At(Follow(action)) == FinishHandling(old(At(Handling(cmd, false))))
      ensures At(CheckingRoot) == FinishHandling(old(At(Handling(cmd, true))))
    {
      FinishCommand(At(Handling(cmd, false)));
      FinishCommand(At(Handling(cmd, true)));
      match handler
      case HandleInitial => action := HandleCommandIdle(cmd);
      case HandlePaused => action := HandleCommandIdle(cmd);
      case HandleRunning => action := HandleCommandRunning(cmd);
      case HandleFinished => action := HandleCommandFinished(cmd);
    }

    /** HandleInitial and HandlePaused. */
    method HandleCommandIdle(cmd: JobCommand) returns (action: Action)
      requires Idle(handler)
      modifies this, runner
      ensures At(Follow(action)) == FinishHandling(HandleWhenIdle(old(At(Handling(cmd, false))), cmd, false))
      ensures At(CheckingRoot) == FinishHandling(HandleWhenIdle(old(At(Handling(cmd, true))), cmd, true))
    {
      FinishPlain(HandleWhenIdle(At(Handling(cmd, false)), cmd, false));
      FinishPlain(HandleWhenIdle(At(Handling(cmd, true)), cmd, true));
      match cmd
      case Start =>
        SetState(Running);
        return DoRun;
      case Step =>
        SetState(Stepping);
        return DoStep;
      case Halt =>
        SetState(Halted);
        return Continue;
      case Terminate =>
        keepAlive := false;
        return Exit;
      case _ =>
        return Continue;
    }

    method HandleCommandRunning(cmd: JobCommand) returns (action: Action)
      requires handler == HandleRunning
      modifies this, runner
      ensures At(Follow(action)) == FinishHandling(HandleWhenRunning(old(At(Handling(cmd, false))), cmd, false))
      ensures At(CheckingRoot) == FinishHandling(HandleWhenRunning(old(At(Handling(cmd, true))), cmd, true))
    {
      FinishPlain(HandleWhenRunning(At(Handling(cmd, false)), cmd, false));
      FinishPlain(HandleWhenRunning(At(Handling(cmd, true)), cmd, true));
      match cmd
      case Step =>
        runner.Pause();
        SetState(Paused);
        return Continue;
      case Pause =>
        runner.Pause();
        SetState(Paused);
        return Continue;
      case Halt =>
        SetState(Halted);
        return Continue;
      case Terminate =>
        keepAlive := false;
        return Exit;
      case _ =>
        return Continue;
    }

    method HandleCommandFinished(cmd: JobCommand) returns (action: Action)
      requires handler == HandleFinished
      modifies this, runner
      ensures At(Follow(action)) == FinishHandling(HandleWhenFinished(old(At(Handling(cmd, false))), cmd, false))
      ensures At(CheckingRoot) == FinishHandling(HandleWhenFinished(old(At(Handling(cmd, true))), cmd, true))
    {
      FinishPlain(HandleWhenFinished(At(Handling(cmd, false)), cmd, false));
      FinishPlain(HandleWhenFinished(At(Handling(cmd, true)), cmd, true));
      match cmd
      case Reset =>
        runner.Reset();
        SetState(Initial);
        return Continue;
      case Terminate =>
        keepAlive := false;
        return Exit;
      case _ =>
        return Continue;
    }

    method SwitchStateOnFinished() returns (switched: bool)
      modifies this
      ensures switched <==> S.IsFinished(runner.root)
      ensures forall w :: At(w) == if switched then SwitchState(old(At(w))) else old(At(w))
    {
      if S.IsFinished(runner.root) {
        if runner.root == S.Success {
          SetState(Succeeded);
        } else {
          SetState(Failed);
        }
        return true;
      }
      return false;
    }

    /** The tick callback of a run. */
    method ProcessCommandsWhenRunning()
      requires QueueOk(queue.Contents())
      modifies this, queue, runner
      ensures QueueOk(queue.Contents())
      ensures At(CheckingRoot) == FinishHandling(TickCallback(old(At(AfterTick(false)))))
    {
      var switched := SwitchStateOnFinished();
      if switched {
        return;
      }
      var ok, command := queue.TryPop();
      if ok {
        var action := HandleCommand(command);
      }
    }

    /** A step; `result` is what the tick leaves in the root. */
    method StepProcedure(result: S.Executed)
      modifies this, runner
      ensures At(Waiting) == EndStep(WorkerDo(BeginTick(old(At(BeginningStep)), true), result))
    {
      trace := trace + [TickBegun];
      runner.root := result;
      var switched := SwitchStateOnFinished();
      if !switched {
        SetState(Paused);
      }
    }
  }
}
