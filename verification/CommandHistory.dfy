/** No command gets lost: what the worker takes from the queue is handled, in that order. */
module CommandHistory {
  import S = ExecutionStatus
  import opened AsyncRunner
  import opened AsyncSafety
  import opened AsyncRunnerObject

  /** The command a move takes from the queue, if any. */
  function Taken(s: Job, m: Move): seq<JobCommand>
    requires Can(s, m)
  {
    if |Do(s, m).mail.queue| < |s.mail.queue| then [s.mail.queue[0]] else []
  }

  /** The command a move begins to handle, if any. */
  function Begun(s: Job, m: Move): seq<JobCommand> {
    if m.Work? && s.worker.Handling? then [s.worker.cmd] else []
  }

  function TakenBy(s: Job, moves: seq<Move>): seq<JobCommand>
    requires Possible(s, moves)
    decreases |moves|
  {
    if moves == [] then [] else Taken(s, moves[0]) + TakenBy(Do(s, moves[0]), moves[1..])
  }

  function BegunBy(s: Job, moves: seq<Move>): seq<JobCommand>
    requires Possible(s, moves)
    decreases |moves|
  {
    if moves == [] then [] else Begun(s, moves[0]) + BegunBy(Do(s, moves[0]), moves[1..])
  }

  /** The command in the worker's hands. */
  function InHand(w: Worker): seq<JobCommand> {
    if w.Handling? then [w.cmd] else []
  }

  lemma {:induction false} MoveKeepsHand(s: Job, m: Move)
    requires Inv(s) && Can(s, m)
    ensures Inv(Do(s, m))
    ensures InHand(s.worker) + Taken(s, m) == Begun(s, m) + InHand(Do(s, m).worker)
  {
    match m
    case Client(c) => ClientKeepsInv(s, c);
    case Work(result) =>
      WorkerKeepsInv(s, result);
      WorkerMail(s, result);
      if Pops(s) {
        WorkerPops(s, result);
      } else if s.worker.Handling? {
        HandledIsCloser(s, s.worker.cmd, s.worker.inRun);
      }
  }

  lemma {:induction false} Chain(h: seq<JobCommand>, t: seq<JobCommand>, ts: seq<JobCommand>, b: seq<JobCommand>,
      bs: seq<JobCommand>, next: seq<JobCommand>, end: seq<JobCommand>)
    requires h + t == b + next && next + ts == bs + end
    ensures h + (t + ts) == (b + bs) + end
  {
    assert h + (t + ts) == (h + t) + ts;
    assert b + (next + ts) == (b + next) + ts;
    assert b + (bs + end) == (b + bs) + end;
  }

  lemma {:induction false} RunKeepsHand(s: Job, moves: seq<Move>)
    requires Inv(s) && Possible(s, moves)
    ensures InHand(s.worker) + TakenBy(s, moves) == BegunBy(s, moves) + InHand(After(s, moves).worker)
    decreases |moves|
  {
    if moves != [] {
      var d := Do(s, moves[0]);
      MoveKeepsHand(s, moves[0]);
      RunKeepsHand(d, moves[1..]);
      Chain(InHand(s.worker), Taken(s, moves[0]), TakenBy(d, moves[1..]),
            Begun(s, moves[0]), BegunBy(d, moves[1..]), InHand(d.worker), InHand(After(d, moves[1..]).worker));
    }
  }

  /** In every interleaving, the commands whose handling began are those taken from the queue, in that
      order, all but one that the worker has just taken. */
  lemma {:induction false} TakenCommandsAreHandled(moves: seq<Move>)
    requires Possible(START, moves)
    ensures TakenBy(START, moves) == BegunBy(START, moves) + InHand(After(START, moves).worker)
  {
    RunKeepsHand(START, moves);
    assert InHand(START.worker) + TakenBy(START, moves) == TakenBy(START, moves);
  }

  /** The worker is about to look at the queue and finds a command there. */
  predicate FindsCommand(s: Job) {
    && s.mail.queue != [] && s.mail.pusher == Nobody
    && (|| (s.worker == Waiting && s.keepAlive)
        || (s.worker == AfterTick(false) && s.root != S.Success && s.root != S.Failure))
  }

  /** In every reachable state in which the worker finds a command, between runs or after a tick of
      one, it takes the front of the queue, and once it has handled it the job shows the documented
      response to just that command. */
  lemma {:induction false} FrontCommandIsAnswered(moves: seq<Move>, result: S.Executed)
    requires Possible(START, moves) && FindsCommand(After(START, moves))
    ensures var s := After(START, moves);
            && WorkerCan(s)
            && var t := FinishHandling(WorkerDo(s, result));
            && t.published == Response(s.published, s.mail.queue[0])
            && (s.mail.queue[0] == Terminate <==> !t.keepAlive)
            && t.mail.queue == s.mail.queue[1..] && !InHandling(t.worker)
  {
    var s := After(START, moves);
    ReachableInv(moves);
    WorkerKeepsInv(s, result);
    WorkerMail(s, result);
    WorkerPops(s, result);
    var p := WorkerDo(s, result);
    CommandResponse(p);
    FinishKeepsMail(p);
  }

  lemma {:induction false} FinishKeepsMail(s: Job)
    ensures FinishHandling(s).mail == s.mail && !InHandling(FinishHandling(s).worker)
    decreases HandlingLeft(s.worker)
  {
    if InHandling(s.worker) {
      HandlingGetsCloser(s);
      WorkerMail(s, S.Success);
      FinishKeepsMail(WorkerDo(s, S.Success));
    }
  }
}
