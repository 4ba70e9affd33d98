/** What every run of the asynchronous runner keeps, and what follows for its clients. */
module AsyncSafety {
  import S = ExecutionStatus
  import opened AsyncRunner

  predicate FrontUrgent(m: Mail) {
    m.queue != [] && !Ordinary(m.queue[0])
  }

  /** A halt request is on its way through the queue. */
  predicate Announced(m: Mail) {
    m.pusher.FlagStored? || m.pusher.RootStored? || FrontUrgent(m)
  }

  predicate RootAnnounced(m: Mail) {
    m.pusher.RootStored? || FrontUrgent(m)
  }

  predicate HandlingUrgent(w: Worker) {
    w.Handling? && !Ordinary(w.cmd)
  }

  predicate HandlingStart(w: Worker) {
    w.Handling? && w.cmd == Start
  }

  predicate Idle(h: Handler) {
    h == HandleInitial || h == HandlePaused
  }

  /** Why a run may have to end before the root is finished. */
  predicate Cause(s: Job) {
    Announced(s.mail) || HandlingUrgent(s.worker) || !s.keepAlive
  }

  /** Where the worker can be in each situation. */
  predicate Placed(s: Job) {
    match s.worker
    case Waiting => true
    case Handling(cmd, inRun) =>
      && s.keepAlive
      && (inRun ==> s.handler == HandleRunning)
      && (s.handler == HandleRunning && !Ordinary(cmd) ==> s.rootHalted)
      && (s.handler == HandleRunning && !inRun ==> !Ordinary(cmd))
    case Pausing(inRun) => s.keepAlive && inRun && s.handler == HandleRunning && s.flag
    case ClearingHalt(inRun) => s.keepAlive && !inRun && s.handler == HandleFinished
    case EndingReset(inRun) => s.keepAlive && !inRun && s.handler == HandleFinished
    case BeginningStep => s.keepAlive && s.published == Stepping
    case EnteringRun => s.keepAlive && s.handler == HandleRunning
    case CheckingRoot =>
      && s.handler != HandleInitial
      && (s.handler == HandlePaused ==> s.flag)
      && (s.published == Halted || !s.keepAlive ==> s.rootHalted)
    case CheckingFlag => s.keepAlive && (s.handler == HandleRunning || (s.handler == HandlePaused && s.flag))
    case Ticking(stepping) => s.keepAlive && if stepping then s.published == Stepping else s.handler == HandleRunning
    case AfterTick(stepping) => s.keepAlive && if stepping then s.published == Stepping else s.handler == HandleRunning
    case Exited => !s.keepAlive
  }

  predicate InStep(w: Worker) {
    w == BeginningStep || w == Ticking(true) || w == AfterTick(true)
  }

  /** The published state and the handler in use belong together. */
  predicate Consistent(s: Job) {
    match s.published
    case Initial => s.handler == HandleInitial
    case Paused => s.handler == HandlePaused
    case Stepping => Idle(s.handler) && InStep(s.worker)
    case Running => s.handler == HandleRunning
    case _ => s.handler == HandleFinished
  }

  predicate InReset(w: Worker) {
    w.ClearingHalt? || w.EndingReset?
  }

  /** The root's status, for each published state. */
  predicate RootAgrees(s: Job) {
    match s.published
    case Initial => s.root == S.NotStarted
    case Succeeded => if InReset(s.worker) then s.root == S.NotStarted else s.root == S.Success
    case Failed => if InReset(s.worker) then s.root == S.NotStarted else s.root == S.Failure
    case Halted => InReset(s.worker) ==> s.root == S.NotStarted
    case _ => s.worker.AfterTick? || !S.IsFinished(s.root)
  }

  /** A halt on its way has marked the root, as long as the job runs or is about to. */
  predicate Marked(s: Job) {
    RootAnnounced(s.mail) && (s.handler == HandleRunning || HandlingStart(s.worker)) ==> s.rootHalted
  }

  /** A run that was told to stop has a cause that is still pending. */
  predicate Caused(s: Job) {
    && (s.rootHalted && (s.handler != HandleFinished || s.worker.EndingReset?) ==> Cause(s))
    && (s.flag && s.handler == HandleRunning && s.worker != EnteringRun && !s.worker.Pausing? ==> Cause(s))
    && (s.worker == Waiting && s.handler == HandleRunning ==> Cause(s))
  }

  predicate Inv(s: Job) {
    && QueueOk(s.mail)
    && Placed(s)
    && Consistent(s)
    && RootAgrees(s)
    && Marked(s)
    && Caused(s)
  }

  // ---------------------------------------------------------------- clients keep it

  lemma {:induction false} ClientKeepsInv(s: Job, c: ClientStep)
    requires Inv(s) && ClientCan(s, c)
    ensures Inv(ClientDo(s, c))
  {
    ClientKeepsQueueOk(s, c);
    var t := ClientDo(s, c);
    if c.Push? && s.mail.queue != [] {
      assert t.mail.queue[0] == s.mail.queue[0];
    }
  }

  // ---------------------------------------------------------------- the worker keeps it

  lemma {:induction false} PoppedFront(m: Mail)
    requires QueueOk(m) && m.queue != [] && m.pusher == Nobody
    ensures QueueOk(TakeFront(m))
    ensures Ordinary(m.queue[0]) ==> !Announced(m) && !Announced(TakeFront(m))
    ensures Announced(m) <==> !Ordinary(m.queue[0])
  {
    PopKeepsQueueOk(m);
    PopKeepsShape(m.queue);
  }

  lemma {:induction false} PopKeepsInv(s: Job)
    requires Inv(s) && WorkerCan(s) && Pops(s)
    ensures Inv(Pop(s, s.worker != Waiting))
  {
    WorkerMail(s, S.Success);
    PoppedFront(s.mail);
  }

  lemma {:induction false} HandleIdleKeepsInv(s: Job, cmd: JobCommand)
    requires Inv(s) && s.worker == Handling(cmd, false) && Idle(s.handler)
    ensures Inv(HandleWhenIdle(s, cmd, false))
  {
  }

  lemma {:induction false} HandleRunningKeepsInv(s: Job, cmd: JobCommand, inRun: bool)
    requires Inv(s) && s.worker == Handling(cmd, inRun) && s.handler == HandleRunning
    ensures Inv(HandleWhenRunning(s, cmd, inRun))
  {
  }

  lemma {:induction false} HandleFinishedKeepsInv(s: Job, cmd: JobCommand)
    requires Inv(s) && s.worker == Handling(cmd, false) && s.handler == HandleFinished
    ensures Inv(HandleWhenFinished(s, cmd, false))
  {
  }

  lemma {:induction false} HandleKeepsInv(s: Job)
    requires Inv(s) && s.worker.Handling?
    ensures Inv(HandleCommand(s, s.worker.cmd, s.worker.inRun))
  {
    var cmd, inRun := s.worker.cmd, s.worker.inRun;
    match s.handler
    case HandleInitial => HandleIdleKeepsInv(s, cmd);
    case HandlePaused => HandleIdleKeepsInv(s, cmd);
    case HandleRunning => HandleRunningKeepsInv(s, cmd, inRun);
    case HandleFinished => HandleFinishedKeepsInv(s, cmd);
  }

  lemma {:induction false} TickKeepsInv(s: Job, result: S.Executed)
    requires Inv(s) && WorkerCan(s) && !Pops(s)
    requires s.worker.Ticking? || s.worker.AfterTick? || s.worker.CheckingRoot? || s.worker.CheckingFlag?
    ensures Inv(WorkerDo(s, result))
  {
  }

  lemma {:induction false} OtherStepKeepsInv(s: Job, result: S.Executed)
    requires Inv(s) && WorkerCan(s) && !Pops(s) && !s.worker.Handling?
    requires !s.worker.Ticking? && !s.worker.AfterTick? && !s.worker.CheckingRoot? && !s.worker.CheckingFlag?
    ensures Inv(WorkerDo(s, result))
  {
  }

  lemma {:induction false} WorkerKeepsInv(s: Job, result: S.Executed)
    requires Inv(s) && WorkerCan(s)
    ensures Inv(WorkerDo(s, result))
  {
    if Pops(s) {
      PopKeepsInv(s);
      WorkerPops(s, result);
    } else if s.worker.Handling? {
      HandleKeepsInv(s);
    } else if s.worker.Ticking? || s.worker.AfterTick? || s.worker.CheckingRoot? || s.worker.CheckingFlag? {
      TickKeepsInv(s, result);
    } else {
      OtherStepKeepsInv(s, result);
    }
  }

  lemma {:induction false} WorkerPops(s: Job, result: S.Executed)
    requires WorkerCan(s) && Pops(s)
    ensures s.mail.queue != [] && WorkerDo(s, result) == Pop(s, s.worker != Waiting)
  {
  }

  lemma {:induction false} RunKeepsInv(s: Job, moves: seq<Move>)
    requires Inv(s) && Possible(s, moves)
    ensures Inv(After(s, moves))
    decreases |moves|
  {
    if moves != [] {
      match moves[0] {
        case Client(c) => ClientKeepsInv(s, c);
        case Work(result) => WorkerKeepsInv(s, result);
      }
      RunKeepsInv(Do(s, moves[0]), moves[1..]);
    }
  }

  /** Every state the runner can reach satisfies the invariant. */
  lemma {:induction false} ReachableInv(moves: seq<Move>)
    requires Possible(START, moves)
    ensures Inv(After(START, moves))
  {
    RunKeepsInv(START, moves);
  }

  // ---------------------------------------------------------------- the queue

  /** The queue always holds at most one Terminate, then at most one Halt, then ordinary commands,
      and the ordinary commands leave it in the order in which they were pushed. */
  lemma {:induction false} QueueInvariant(moves: seq<Move>)
    requires Possible(START, moves)
    ensures var m := After(START, moves).mail;
            QueueShape(m.queue) && m.pushed == m.popped + OrdinaryOf(m.queue)
  {
    ReachableInv(moves);
  }

  /** When the worker waits for a command and none is there or about to be pushed, the job is
      neither running nor stepping. */
  lemma {:induction false} NoStuckRun(moves: seq<Move>)
    requires Possible(START, moves)
    ensures var s := After(START, moves);
            s.worker == Waiting && !WorkerCan(s) && s.mail.pusher == Nobody ==>
              s.published != Running && s.published != Stepping
  {
    ReachableInv(moves);
  }

  /** Outside a reset, a job that is reported as succeeded or failed has a root with that status. */
  lemma {:induction false} VerdictMatchesRoot(moves: seq<Move>)
    requires Possible(START, moves)
    ensures var s := After(START, moves);
            !InReset(s.worker) ==>
              && (s.published == Succeeded ==> s.root == S.Success)
              && (s.published == Failed ==> s.root == S.Failure)
  {
    ReachableInv(moves);
  }

  // ---------------------------------------------------------------- published states and ticks

  /** The changes of state a client can observe. */
  predicate Edge(from: JobState, to: JobState) {
    match from
    case Initial => to == Running || to == Stepping || to == Halted
    case Running => to == Paused || to == Halted || to == Succeeded || to == Failed
    case Stepping => to == Paused || to == Succeeded || to == Failed
    case Paused => to == Running || to == Stepping || to == Halted
    case _ => to == Initial
  }

  /** The state published last; the trace of a job starts with Initial. */
  function LastState(trace: seq<Event>): JobState {
    if trace == [] then Initial
    else match trace[|trace| - 1]
      case Published(state) => state
      case TickBegun => LastState(trace[..|trace| - 1])
  }

  /** What may follow a trace. */
  predicate MayFollow(trace: seq<Event>, e: Event) {
    match e
    case Published(state) => if trace == [] then state == Initial else Edge(LastState(trace), state)
    case TickBegun => LastState(trace) == Running || LastState(trace) == Stepping
  }

  predicate Paced(trace: seq<Event>) {
    forall i :: 0 <= i < |trace| ==> MayFollow(trace[..i], trace[i])
  }

  predicate TraceOk(s: Job) {
    s.trace != [] && LastState(s.trace) == s.published && Paced(s.trace)
  }

  lemma {:induction false} Extend(trace: seq<Event>, e: Event)
    requires Paced(trace) && MayFollow(trace, e)
    ensures Paced(trace + [e])
    ensures LastState(trace + [e]) == if e.Published? then e.state else LastState(trace)
  {
    var t := trace + [e];
    assert t[..|trace|] == trace;
    forall i | 0 <= i < |t| ensures MayFollow(t[..i], t[i]) {
      if i < |trace| {
        assert t[..i] == trace[..i];
      }
    }
  }

  lemma {:induction false} PublishKeepsTraceOk(s: Job, state: JobState)
    requires TraceOk(s) && Edge(s.published, state)
    ensures TraceOk(Publish(s, state))
  {
    Extend(s.trace, Published(state));
  }

  lemma {:induction false} HandleKeepsTraceOk(s: Job)
    requires Inv(s) && TraceOk(s) && s.worker.Handling?
    ensures TraceOk(HandleCommand(s, s.worker.cmd, s.worker.inRun))
  {
    var t := HandleCommand(s, s.worker.cmd, s.worker.inRun);
    HandlePublishes(s);
    if t.trace != s.trace {
      PublishKeepsTraceOk(s, t.published);
    }
  }

  /** Handling a command publishes one state along the graph, or nothing. */
  lemma {:induction false} HandlePublishes(s: Job)
    requires Inv(s) && s.worker.Handling?
    ensures var t := HandleCommand(s, s.worker.cmd, s.worker.inRun);
            || (t.trace == s.trace && t.published == s.published)
            || (t.trace == s.trace + [Published(t.published)] && Edge(s.published, t.published))
  {
  }

  lemma {:induction false} BeginTickKeepsTraceOk(s: Job, stepping: bool)
    requires TraceOk(s) && (s.published == Running || s.published == Stepping)
    ensures TraceOk(BeginTick(s, stepping))
  {
    Extend(s.trace, TickBegun);
  }

  lemma {:induction false} WorkerKeepsTraceOk(s: Job, result: S.Executed)
    requires Inv(s) && WorkerCan(s) && TraceOk(s)
    ensures TraceOk(WorkerDo(s, result))
  {
    match s.worker
    case Handling(cmd, inRun) => HandleKeepsTraceOk(s);
    case Pausing(inRun) => PublishKeepsTraceOk(s, Paused);
    case EndingReset(inRun) => PublishKeepsTraceOk(s, Initial);
    case BeginningStep => BeginTickKeepsTraceOk(s, true);
    case CheckingFlag => if !s.flag { BeginTickKeepsTraceOk(s, false); }
    case AfterTick(stepping) =>
      if S.IsFinished(s.root) {
        PublishKeepsTraceOk(s, if s.root == S.Success then Succeeded else Failed);
      } else if stepping {
        PublishKeepsTraceOk(s, Paused);
      }
    case _ =>
  }

  lemma {:induction false} RunKeepsTraceOk(s: Job, moves: seq<Move>)
    requires Inv(s) && TraceOk(s) && Possible(s, moves)
    ensures TraceOk(After(s, moves))
    decreases |moves|
  {
    if moves != [] {
      match moves[0] {
        case Client(c) => ClientKeepsInv(s, c);
        case Work(result) =>
          WorkerKeepsInv(s, result);
          WorkerKeepsTraceOk(s, result);
      }
      RunKeepsTraceOk(Do(s, moves[0]), moves[1..]);
    }
  }

  /** The published states follow the state graph, and ticks begin only in Running and Stepping. */
  lemma {:induction false} StateGraph(moves: seq<Move>)
    requires Possible(START, moves)
    ensures Paced(After(START, moves).trace)
  {
    RunKeepsTraceOk(START, moves);
  }

  /** After Halted is published nothing is published and no tick begins until a reset is handled:
      the next event, if any, is the publication of Initial. */
  lemma {:induction false} OnlyResetFollowsHalted(moves: seq<Move>, i: nat)
    requires Possible(START, moves)
    requires var trace := After(START, moves).trace; i + 1 < |trace| && trace[i] == Published(Halted)
    ensures After(START, moves).trace[i + 1] == Published(Initial)
  {
    var trace := After(START, moves).trace;
    StateGraph(moves);
    assert MayFollow(trace[..i + 1], trace[i + 1]);
  }

  // ---------------------------------------------------------------- a halt request ends the run

  /** How many steps the worker is away from waiting, once the root is marked as halted. */
  function Distance(w: Worker): nat {
    match w
    case Waiting => 0
    case Exited => 0
    case CheckingRoot => 1
    case Pausing(_) => 2
    case EnteringRun => 2
    case Handling(_, inRun) => if inRun then 3 else 4
    case AfterTick(stepping) => if stepping then 1 else 4
    case Ticking(stepping) => if stepping then 2 else 5
    case BeginningStep => 3
    case CheckingFlag => 6
    case EndingReset(_) => 1
    case ClearingHalt(_) => 2
  }

  /** The worker on its own, until it waits for a command or exits; one tick result per step. */
  function RunAlone(s: Job, results: seq<S.Executed>): Job
    decreases |results|
  {
    if Distance(s.worker) == 0 || results == [] || !WorkerCan(s) then s
    else RunAlone(WorkerDo(s, results[0]), results[1..])
  }

  function TickCount(trace: seq<Event>): nat {
    if trace == [] then 0
    else TickCount(trace[..|trace| - 1]) + if trace[|trace| - 1] == TickBegun then 1 else 0
  }

  /** Ticks that the worker may still begin from here. */
  function TicksLeft(w: Worker): nat {
    if w.CheckingFlag? || w.BeginningStep? || (w.Handling? && !w.inRun) then 1 else 0
  }

  lemma {:induction false} StepTowardsWaiting(s: Job, result: S.Executed)
    requires Inv(s) && WorkerCan(s) && Distance(s.worker) > 0 && (s.rootHalted || InReset(s.worker))
    ensures var t := WorkerDo(s, result);
            && Distance(t.worker) < Distance(s.worker)
            && (t.rootHalted || InReset(t.worker) || t.worker == Waiting)
            && t.mail.pusher == s.mail.pusher
  {
    WorkerMail(s, result);
  }

  predicate BeginsTick(s: Job) {
    s.worker == BeginningStep || (s.worker == CheckingFlag && !s.flag)
  }

  /** Once the root is marked as halted, beginning a tick uses up the one that was left. */
  lemma {:induction false} TickIsUsedUp(s: Job, result: S.Executed)
    requires Inv(s) && WorkerCan(s) && Distance(s.worker) > 0 && (s.rootHalted || InReset(s.worker))
    ensures TicksLeft(WorkerDo(s, result).worker) + (if BeginsTick(s) then 1 else 0) <= TicksLeft(s.worker)
  {
  }

  /** Only beginning a tick adds one to the trace. */
  lemma {:induction false} StepTicks(s: Job, result: S.Executed)
    requires Inv(s) && WorkerCan(s) && Distance(s.worker) > 0
    ensures TickCount(WorkerDo(s, result).trace) == TickCount(s.trace) + if BeginsTick(s) then 1 else 0
  {
    if s.worker.Handling? {
      HandlePublishes(s);
      Counted(s.trace, Published(WorkerDo(s, result).published));
    } else if BeginsTick(s) {
      Counted(s.trace, TickBegun);
    } else if s.worker.AfterTick? {
      AfterTickPublishes(s, result);
    } else {
      forall state: JobState ensures TickCount(s.trace + [Published(state)]) == TickCount(s.trace) {
        Counted(s.trace, Published(state));
      }
    }
  }

  lemma {:induction false} AfterTickPublishes(s: Job, result: S.Executed)
    requires s.worker.AfterTick? && WorkerCan(s)
    ensures TickCount(WorkerDo(s, result).trace) == TickCount(s.trace)
  {
    Counted(s.trace, Published(WorkerDo(s, result).published));
  }

  lemma {:induction false} Counted(trace: seq<Event>, e: Event)
    ensures TickCount(trace + [e]) == TickCount(trace) + if e == TickBegun then 1 else 0
  {
    assert (trace + [e])[..|trace|] == trace;
  }

  /** Once the root is marked as halted, the worker comes to wait for a command, or exits, within a
      bounded number of steps of its own, and begins at most one more tick. */
  lemma {:induction false} HaltEndsRun(s: Job, results: seq<S.Executed>)
    requires Inv(s) && (s.rootHalted || InReset(s.worker) || s.worker == Waiting) && s.mail.pusher == Nobody
    requires |results| >= Distance(s.worker)
    ensures var t := RunAlone(s, results);
            && (t.worker == Waiting || t.worker == Exited)
            && TickCount(t.trace) <= TickCount(s.trace) + TicksLeft(s.worker) <= TickCount(s.trace) + 1
    decreases |results|
  {
    if Distance(s.worker) > 0 {
      StepTowardsWaiting(s, results[0]);
      StepTicks(s, results[0]);
      TickIsUsedUp(s, results[0]);
      WorkerKeepsInv(s, results[0]);
      HaltEndsRun(WorkerDo(s, results[0]), results[1..]);
    }
  }
}
