/** What the asynchronous runner gets done: a step is one tick, a run goes on ticking, and a halt or
    termination gets to the front of the queue. */
module AsyncProgress {
  import S = ExecutionStatus
  import opened AsyncRunner
  import opened AsyncSafety

  function VerdictOf(s: S.Status): JobState {
    if s == S.Success then Succeeded else if s == S.Failure then Failed else Paused
  }

  /** A step that was accepted makes exactly one tick and publishes the verdict, or Paused if there is
      none, even when a halt is requested. */
  lemma {:induction false} StepIsOneTick(s: Job, results: seq<S.Executed>)
    requires Inv(s) && s.worker == BeginningStep && |results| >= 3
    ensures var t := RunAlone(s, results);
            && t.worker == Waiting && t.root == results[1] && t.mail == s.mail
            && t.trace == s.trace + [TickBegun] + [Published(VerdictOf(results[1]))]
  {
    var a := WorkerDo(s, results[0]);
    var b := WorkerDo(a, results[1]);
    var c := WorkerDo(b, results[2]);
    assert RunAlone(s, results) == RunAlone(a, results[1..]);
    assert RunAlone(a, results[1..]) == RunAlone(b, results[1..][1..]);
    assert results[1..][1..][0] == results[2];
    assert RunAlone(b, results[1..][1..]) == RunAlone(c, results[1..][1..][1..]);
  }

  /** Nothing asks the run to stop. */
  predicate Undisturbed(s: Job) {
    && s.mail.queue == [] && s.mail.pusher == Nobody
    && !s.rootHalted && !s.flag && !S.IsFinished(s.root)
  }

  /** How many steps of its own a worker in the run loop is away from its next tick. */
  function StepsToTick(w: Worker): nat {
    match w
    case EnteringRun => 3
    case AfterTick(stepping) => if stepping then 0 else 3
    case CheckingRoot => 2
    case CheckingFlag => 1
    case _ => 0
  }

  /** A run that nothing asks to stop begins its next tick within three steps; a run that was just
      started does so even if an earlier pause left its flag behind. */
  lemma {:induction false} RunGoesOn(s: Job, results: seq<S.Executed>)
    requires Inv(s) && StepsToTick(s.worker) > 0
    requires Undisturbed(if s.worker == EnteringRun then s.(flag := false) else s)
    requires |results| == StepsToTick(s.worker)
    ensures var t := RunAlone(s, results);
            && t.worker == Ticking(false) && t.trace == s.trace + [TickBegun]
            && t.root == s.root && t.published == s.published
    decreases |results|
  {
    var t := WorkerDo(s, results[0]);
    assert RunAlone(s, results) == RunAlone(t, results[1..]);
    if StepsToTick(s.worker) > 1 {
      WorkerKeepsInv(s, results[0]);
      RunGoesOn(t, results[1..]);
    } else {
      assert RunAlone(t, results[1..]) == t;
    }
  }

  /** The result of a tick is what the worker sees next. */
  lemma {:induction false} TickLeavesResult(s: Job, result: S.Executed)
    requires Inv(s) && s.worker.Ticking?
    ensures var t := WorkerDo(s, result);
            t.root == result && t.worker == AfterTick(s.worker.stepping) && t.trace == s.trace && t.mail == s.mail
  {
  }

  /** In a run, a tick that finishes the root is followed by the publication of its verdict. */
  lemma {:induction false} RunPublishesVerdict(s: Job, result: S.Executed)
    requires Inv(s) && s.worker == AfterTick(false) && S.IsFinished(s.root)
    ensures WorkerDo(s, result).trace == s.trace + [Published(VerdictOf(s.root))] && WorkerDo(s, result).mail == s.mail
  {
  }

  // ---------------------------------------------------------------- halt and terminate

  /** A client that pushes an urgent command without another client in between. */
  function PushUrgent(s: Job, cmd: JobCommand): Job
    requires !Ordinary(cmd) && s.mail.pusher == Nobody
  {
    var locked := ClientDo(s, Lock(cmd));
    if locked.mail.pusher == Nobody then locked
    else ClientDo(ClientDo(ClientDo(locked, StoreFlag), StoreRoot), PushFront)
  }

  /** In every reachable state a Halt is refused exactly if a Halt or Terminate waits at the front, and a
      Terminate exactly if a Terminate does. Otherwise it stops the run loop, requests a halt of the
      procedure, and is the next command. */
  lemma {:induction false} UrgentCommandIsNext(moves: seq<Move>, cmd: JobCommand)
    requires Possible(START, moves) && !Ordinary(cmd) && After(START, moves).mail.pusher == Nobody
    ensures var s := After(START, moves);
            var t := PushUrgent(s, cmd);
            var refused := s.mail.queue != []
              && (s.mail.queue[0] == Terminate || (cmd == Halt && s.mail.queue[0] == Halt));
            if refused then t == s
            else t == s.(flag := true, rootHalted := true,
                         mail := s.mail.(queue := [cmd] + s.mail.queue))
  {
  }
}
