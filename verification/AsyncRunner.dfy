/** The asynchronous runner: one worker thread and any number of clients, as atomic steps that
    interleave freely. Breakpoints are not set in these runs. */
module AsyncRunner {
  import S = ExecutionStatus

  // ---------------------------------------------------------------- commands and states

  /** In order of priority. */
  datatype JobCommand = Start | Step | Pause | Reset | Halt | Terminate

  function Priority(c: JobCommand): nat {
    match c
    case Start => 0
    case Step => 1
    case Pause => 2
    case Reset => 3
    case Halt => 4
    case Terminate => 5
  }

  predicate Ordinary(c: JobCommand) {
    c != Halt && c != Terminate
  }

  datatype JobState = Initial | Paused | Stepping | Running | Succeeded | Failed | Halted

  /** The handler the runner currently uses for commands. */
  datatype Handler = HandleInitial | HandlePaused | HandleRunning | HandleFinished

  /** What the worker does next. `inRun` marks commands handled by the tick callback. */
  datatype Worker =
    | Waiting                                     // in ExecutionLoop, for the next command
    | Handling(cmd: JobCommand, inRun: bool)      // popped, not yet handled
    | Pausing(inRun: bool)                        // run loop told to stop, Paused not yet published
    | ClearingHalt(inRun: bool)                   // root status reset, its halt request not yet
    | EndingReset(inRun: bool)                    // tree reset, Initial not yet published
    | BeginningStep                               // in StepProcedure, before the tick
    | EnteringRun                                 // in ExecuteProcedure, before the halt flag is cleared
    | CheckingRoot                                // in the run loop, before IsFinished
    | CheckingFlag                                // in the run loop, before the halt flag is read
    | Ticking(stepping: bool)                     // inside ExecuteSingle of the procedure
    | AfterTick(stepping: bool)                   // in the tick callback, or at the end of StepProcedure
    | Exited

  /** The client inside PriorityPush, holding the queue's lock. */
  datatype Pusher = Nobody | Locked(cmd: JobCommand) | FlagStored(cmd: JobCommand) | RootStored(cmd: JobCommand)

  datatype Event = Published(state: JobState) | TickBegun

  /** The command queue with the client inside it, and the ordinary commands that went through it. */
  datatype Mail = Mail(queue: seq<JobCommand>, pusher: Pusher, pushed: seq<JobCommand>, popped: seq<JobCommand>)

  datatype Job = Job(
    mail: Mail,
    worker: Worker,
    handler: Handler,
    published: JobState,
    keepAlive: bool,
    flag: bool,          // Runner::m_halt
    root: S.Status,        // status of the root instruction
    rootHalted: bool,    // halt requested on the root instruction
    trace: seq<Event>)

  const START: Job :=
    Job(Mail([], Nobody, [], []), Waiting, HandleInitial, Initial, true, false, S.NotStarted, false,
        [Published(Initial)])

  // ---------------------------------------------------------------- steps of the clients

  datatype ClientStep = Push(cmd: JobCommand) | Lock(cmd: JobCommand) | StoreFlag | StoreRoot | PushFront

  predicate ClientCan(s: Job, c: ClientStep) {
    match c
    case Push(cmd) => Ordinary(cmd) && s.mail.pusher == Nobody
    case Lock(cmd) => !Ordinary(cmd) && s.mail.pusher == Nobody
    case StoreFlag => s.mail.pusher.Locked?
    case StoreRoot => s.mail.pusher.FlagStored?
    case PushFront => s.mail.pusher.RootStored?
  }

  /** PriorityPush refuses a command that does not outrank the front of the queue. */
  predicate Refused(queue: seq<JobCommand>, cmd: JobCommand) {
    queue != [] && Priority(cmd) <= Priority(queue[0])
  }

  function ClientDo(s: Job, c: ClientStep): Job
    requires ClientCan(s, c)
  {
    match c
    case Push(cmd) => s.(mail := s.mail.(queue := s.mail.queue + [cmd], pushed := s.mail.pushed + [cmd]))
    case Lock(cmd) => if Refused(s.mail.queue, cmd) then s else s.(mail := s.mail.(pusher := Locked(cmd)))
    case StoreFlag => s.(flag := true, mail := s.mail.(pusher := FlagStored(s.mail.pusher.cmd)))
    case StoreRoot => s.(rootHalted := true, mail := s.mail.(pusher := RootStored(s.mail.pusher.cmd)))
    case PushFront => s.(mail := s.mail.(queue := [s.mail.pusher.cmd] + s.mail.queue, pusher := Nobody))
  }

  // ---------------------------------------------------------------- steps of the worker

  function HandlerOf(state: JobState, current: Handler): Handler {
    match state
    case Initial => HandleInitial
    case Paused => HandlePaused
    case Stepping => current
    case Running => HandleRunning
    case _ => HandleFinished
  }

  /** SetState. */
  function Publish(s: Job, state: JobState): Job {
    s.(published := state, handler := HandlerOf(state, s.handler), trace := s.trace + [Published(state)])
  }

  function Back(inRun: bool): Worker {
    if inRun then CheckingRoot else Waiting
  }

  function TakeFront(m: Mail): Mail
    requires m.queue != []
  {
    m.(queue := m.queue[1..], popped := if Ordinary(m.queue[0]) then m.popped + [m.queue[0]] else m.popped)
  }

  function Pop(s: Job, inRun: bool): Job
    requires s.mail.queue != []
  {
    s.(mail := TakeFront(s.mail), worker := Handling(s.mail.queue[0], inRun))
  }

  function HandleTerminate(s: Job, inRun: bool): Job {
    s.(keepAlive := false, worker := if inRun then CheckingRoot else Exited)
  }

  /** HandleInitial and HandlePaused. */
  function HandleWhenIdle(s: Job, cmd: JobCommand, inRun: bool): Job {
    match cmd
    case Start => Publish(s, Running).(worker := if inRun then CheckingRoot else EnteringRun)
    case Step => Publish(s, Stepping).(worker := if inRun then CheckingRoot else BeginningStep)
    case Halt => Publish(s, Halted).(worker := Back(inRun))
    case Terminate => HandleTerminate(s, inRun)
    case _ => s.(worker := Back(inRun))
  }

  function HandleWhenRunning(s: Job, cmd: JobCommand, inRun: bool): Job {
    match cmd
    case Step => s.(flag := true, worker := Pausing(inRun))
    case Pause => s.(flag := true, worker := Pausing(inRun))
    case Halt => Publish(s, Halted).(worker := Back(inRun))
    case Terminate => HandleTerminate(s, inRun)
    case _ => s.(worker := Back(inRun))
  }

  function HandleWhenFinished(s: Job, cmd: JobCommand, inRun: bool): Job {
    match cmd
    case Reset => s.(root := S.NotStarted, worker := ClearingHalt(inRun))
    case Terminate => HandleTerminate(s, inRun)
    case _ => s.(worker := Back(inRun))
  }

  function HandleCommand(s: Job, cmd: JobCommand, inRun: bool): Job {
    match s.handler
    case HandleInitial => HandleWhenIdle(s, cmd, inRun)
    case HandlePaused => HandleWhenIdle(s, cmd, inRun)
    case HandleRunning => HandleWhenRunning(s, cmd, inRun)
    case HandleFinished => HandleWhenFinished(s, cmd, inRun)
  }

  /** SwitchStateOnFinished, when the root is finished. */
  function SwitchState(s: Job): Job {
    Publish(s, if s.root == S.Success then Succeeded else Failed)
  }

  /** Blocked: the lock is taken, or there is nothing to wait for. */
  predicate WorkerCan(s: Job) {
    match s.worker
    case Waiting => s.keepAlive ==> s.mail.queue != [] && s.mail.pusher == Nobody
    case AfterTick(stepping) => stepping || S.IsFinished(s.root) || s.mail.pusher == Nobody
    case Exited => false
    case _ => true
  }

  /** One step of the worker; a tick that ends in this step leaves the root in `result`. */
  function WorkerDo(s: Job, result: S.Executed): Job
    requires WorkerCan(s)
  {
    match s.worker
    case Waiting => if s.keepAlive then Pop(s, false) else s.(worker := Exited)
    case Handling(cmd, inRun) => HandleCommand(s, cmd, inRun)
    case Pausing(inRun) => Publish(s, Paused).(worker := Back(inRun))
    case ClearingHalt(inRun) => s.(rootHalted := false, worker := EndingReset(inRun))
    case EndingReset(inRun) => Publish(s, Initial).(worker := Back(inRun))
    case BeginningStep => BeginTick(s, true)
    case EnteringRun => s.(flag := false, worker := CheckingRoot)
    case CheckingRoot => s.(worker := if S.IsFinished(s.root) || s.rootHalted then Waiting else CheckingFlag)
    case CheckingFlag => if s.flag then s.(worker := Waiting) else BeginTick(s, false)
    case Ticking(stepping) => s.(root := result, worker := AfterTick(stepping))
    case AfterTick(stepping) => if stepping then EndStep(s) else TickCallback(s)
    case Exited => s
  }

  function BeginTick(s: Job, stepping: bool): Job {
    s.(worker := Ticking(stepping), trace := s.trace + [TickBegun])
  }

  function EndStep(s: Job): Job {
    (if S.IsFinished(s.root) then SwitchState(s) else Publish(s, Paused)).(worker := Waiting)
  }

  /** ProcessCommandsWhenRunning. */
  function TickCallback(s: Job): Job {
    if S.IsFinished(s.root) then SwitchState(s).(worker := CheckingRoot)
    else if s.mail.queue == [] then s.(worker := CheckingRoot)
    else Pop(s, true)
  }

  // ---------------------------------------------------------------- runs

  datatype Move = Client(step: ClientStep) | Work(result: S.Executed)

  predicate Can(s: Job, m: Move) {
    match m
    case Client(c) => ClientCan(s, c)
    case Work(_) => WorkerCan(s)
  }

  function Do(s: Job, m: Move): Job
    requires Can(s, m)
  {
    match m
    case Client(c) => ClientDo(s, c)
    case Work(result) => WorkerDo(s, result)
  }

  /** moves can be made one after the other from s. */
  predicate Possible(s: Job, moves: seq<Move>)
    decreases |moves|
  {
    moves == [] || (Can(s, moves[0]) && Possible(Do(s, moves[0]), moves[1..]))
  }

  function After(s: Job, moves: seq<Move>): Job
    requires Possible(s, moves)
    decreases |moves|
  {
    if moves == [] then s else After(Do(s, moves[0]), moves[1..])
  }

  // ---------------------------------------------------------------- the queue

  predicate AllOrdinary(q: seq<JobCommand>) {
    forall i :: 0 <= i < |q| ==> Ordinary(q[i])
  }

  predicate HaltFirst(q: seq<JobCommand>) {
    if q != [] && q[0] == Halt then AllOrdinary(q[1..]) else AllOrdinary(q)
  }

  /** At most one Terminate, then at most one Halt, then ordinary commands. */
  predicate QueueShape(q: seq<JobCommand>) {
    if q != [] && q[0] == Terminate then HaltFirst(q[1..]) else HaltFirst(q)
  }

  function OrdinaryOf(q: seq<JobCommand>): seq<JobCommand> {
    if q == [] then [] else (if Ordinary(q[0]) then [q[0]] else []) + OrdinaryOf(q[1..])
  }

  predicate QueueOk(m: Mail) {
    && QueueShape(m.queue)
    && (m.pusher != Nobody ==> !Ordinary(m.pusher.cmd) && !Refused(m.queue, m.pusher.cmd))
    && m.pushed == m.popped + OrdinaryOf(m.queue)
  }

  lemma {:induction false} OrdinaryAppend(q: seq<JobCommand>, c: JobCommand)
    requires Ordinary(c)
    ensures OrdinaryOf(q + [c]) == OrdinaryOf(q) + [c]
  {
    if q == [] {
      assert q + [c] == [c];
    } else {
      assert (q + [c])[1..] == q[1..] + [c];
      OrdinaryAppend(q[1..], c);
      Associate(if Ordinary(q[0]) then [q[0]] else [], OrdinaryOf(q[1..]), [c]);
    }
  }

  lemma {:induction false} Associate(p: seq<JobCommand>, q: seq<JobCommand>, r: seq<JobCommand>)
    ensures p + (q + r) == p + q + r
  {
  }

  lemma {:induction false} PushKeepsShape(q: seq<JobCommand>, c: JobCommand)
    requires QueueShape(q) && Ordinary(c)
    ensures QueueShape(q + [c])
  {
    var r := q + [c];
    if q != [] {
      assert r[1..] == q[1..] + [c];
      if |q| > 1 {
        assert r[1..][1..] == q[1..][1..] + [c];
      }
    }
  }

  lemma {:induction false} PushFrontKeepsShape(q: seq<JobCommand>, c: JobCommand)
    requires QueueShape(q) && !Ordinary(c) && !Refused(q, c)
    ensures QueueShape([c] + q)
  {
    assert ([c] + q)[1..] == q;
    if c == Halt && q != [] {
      assert q[0] != Terminate && q[0] != Halt;
    }
  }

  lemma {:induction false} PopKeepsShape(q: seq<JobCommand>)
    requires QueueShape(q) && q != []
    ensures QueueShape(q[1..])
    ensures Ordinary(q[0]) ==> AllOrdinary(q)
  {
  }

  lemma {:induction false} ClientKeepsQueueOk(s: Job, c: ClientStep)
    requires QueueOk(s.mail) && ClientCan(s, c)
    ensures QueueOk(ClientDo(s, c).mail)
  {
    var m := s.mail;
    match c
    case Push(cmd) =>
      PushKeepsShape(m.queue, cmd);
      OrdinaryAppend(m.queue, cmd);
      Associate(m.popped, OrdinaryOf(m.queue), [cmd]);
    case Lock(cmd) =>
    case StoreFlag =>
    case StoreRoot =>
    case PushFront =>
      PushFrontKeepsShape(m.queue, m.pusher.cmd);
      assert ([m.pusher.cmd] + m.queue)[1..] == m.queue;
  }

  lemma {:induction false} PopKeepsQueueOk(m: Mail)
    requires QueueOk(m) && m.queue != [] && m.pusher == Nobody
    ensures QueueOk(TakeFront(m))
  {
    PopKeepsShape(m.queue);
    if Ordinary(m.queue[0]) {
      Associate(m.popped, [m.queue[0]], OrdinaryOf(m.queue[1..]));
    }
  }

  /** The worker takes the front of the queue, or leaves the queue alone. */
  predicate Pops(s: Job) {
    || (s.worker == Waiting && s.keepAlive)
    || (s.worker == AfterTick(false) && !S.IsFinished(s.root) && s.mail.queue != [])
  }

  lemma {:induction false} HandlingKeepsMail(s: Job, cmd: JobCommand, inRun: bool)
    ensures HandleCommand(s, cmd, inRun).mail == s.mail
  {
  }

  lemma {:induction false} WorkerMail(s: Job, result: S.Executed)
    requires WorkerCan(s)
    ensures Pops(s) ==> s.mail.queue != [] && s.mail.pusher == Nobody
    ensures WorkerDo(s, result).mail == if Pops(s) then TakeFront(s.mail) else s.mail
  {
    if s.worker.Handling? {
      HandlingKeepsMail(s, s.worker.cmd, s.worker.inRun);
    }
  }
}
