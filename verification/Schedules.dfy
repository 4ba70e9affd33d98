/** The schedules of a ParallelSequence as runs of its threads: when ticks and threads can interleave
    so that the same outcomes of the children lead to different verdicts. */
module Schedules {
  import opened ExecutionStatus
  import opened Workspaces
  import opened Voting
  import opened Threads

  // ---------------------------------------------------------------- votes over a whole run

  /** The move, if it finishes a child, gives it its outcome. */
  predicate Respects(m: Move, o: Outcomes) {
    (m.Write? || m.Done?) && IsFinished(m.status) ==> m.k < |o| && m.status == o[m.k]
  }

  /** Finished children show their outcomes, and so did their wrappers at every vote. */
  predicate OutcomesShown(p: Parent, o: Outcomes) {
    && |p.children| == |o|
    && (forall i :: 0 <= i < |o| && IsFinished(p.children[i].status) ==> p.children[i].status == o[i])
    && Schedule(p.views, o)
  }

  /** The status of a wrapper before the first vote since a reset. */
  function FirstStatus(phase: Phase, i: nat): Status {
    if phase.Ticking? && i < phase.next then Running else NotStarted
  }

  /** The first vote comes after a single round of ticks, and the status is that of the last vote. */
  predicate RoundOk(p: Parent) {
    && (p.views == [] ==> forall i :: 0 <= i < |p.wrappers| ==> p.wrappers[i].status == FirstStatus(p.phase, i))
    && (p.wrappers == [] ==> p.views == [])
    && (p.views == [] ==> !IsFinished(p.status))
    && (p.views != [] && !p.isAsync ==> p.status == Vote(p.thresholds, p.views[|p.views| - 1]))
  }

  predicate VoteInv(p: Parent, o: Outcomes) {
    Inv(p) && OutcomesShown(p, o) && RoundOk(p)
  }

  lemma {:induction false} VoteShows(p: Parent, o: Outcomes)
    requires VoteInv(p, o) && Can(p, EndTick)
    ensures Schedule(p.views + [StatusOf(p.wrappers)], o)
  {
    var view := StatusOf(p.wrappers);
    forall i | 0 <= i < |view| && IsFinished(view[i]) ensures view[i] == o[i] {
      assert Paired(Pair(p.wrappers[i], p.children[i]));
    }
  }

  lemma {:induction false} VoteKeepsInv(p: Parent, o: Outcomes)
    requires VoteInv(p, o) && Can(p, EndTick)
    ensures VoteInv(Do(p, EndTick), o)
  {
    ParentKeepsInv(p, EndTick);
    VoteShows(p, o);
  }

  lemma {:induction false} TickKeepsVoteInv(p: Parent, o: Outcomes)
    requires VoteInv(p, o) && Can(p, TickNext)
    ensures VoteInv(Do(p, TickNext), o)
  {
    ParentKeepsInv(p, TickNext);
    var k := p.phase.next;
    assert Paired(Pair(p.wrappers[k], p.children[k]));
  }

  lemma {:induction false} OtherMoveKeepsVoteInv(p: Parent, o: Outcomes, m: Move)
    requires VoteInv(p, o) && Can(p, m) && Respects(m, o) && !m.EndTick? && !m.TickNext?
    ensures VoteInv(Do(p, m), o)
  {
    if m.Write? || m.Done? { ThreadKeepsInv(p, m); } else { ParentKeepsInv(p, m); }
  }

  lemma {:induction false} MoveKeepsVoteInv(p: Parent, o: Outcomes, m: Move)
    requires VoteInv(p, o) && Can(p, m) && Respects(m, o)
    ensures VoteInv(Do(p, m), o) && Do(p, m).thresholds == p.thresholds && Do(p, m).isAsync == p.isAsync
  {
    match m {
      case EndTick => VoteKeepsInv(p, o);
      case TickNext => TickKeepsVoteInv(p, o);
      case _ => OtherMoveKeepsVoteInv(p, o, m);
    }
  }

  lemma {:induction false} RunKeepsVoteInv(p: Parent, o: Outcomes, moves: seq<Move>)
    requires VoteInv(p, o) && Possible(p, moves) && forall i :: 0 <= i < |moves| ==> Respects(moves[i], o)
    ensures VoteInv(After(p, moves), o) && After(p, moves).thresholds == p.thresholds
    ensures After(p, moves).isAsync == p.isAsync
    decreases |moves|
  {
    if moves != [] {
      MoveKeepsVoteInv(p, o, moves[0]);
      RunKeepsVoteInv(Do(p, moves[0]), o, moves[1..]);
    }
  }

  // ---------------------------------------------------------------- the status is the decision

  lemma {:induction false} DecisionAppend(t: Thresholds, views: seq<seq<Status>>, view: seq<Status>)
    ensures Decision(t, views + [view]) ==
      if Decision(t, views).Some? then Decision(t, views)
      else if IsFinished(Vote(t, view)) then Some(Vote(t, view))
      else None
  {
    if views == [] {
      assert views + [view] == [view];
    } else {
      assert (views + [view])[1..] == views[1..] + [view];
      DecisionAppend(t, views[1..], view);
    }
  }

  /** The status of a ParallelSequence is the decision of its votes so far. */
  predicate Decided(p: Parent) {
    && !p.isAsync
    && (p.phase.Ticking? ==> NeedsExecute(p.status))
    && Decision(p.thresholds, p.views) == if IsFinished(p.status) then Some(p.status) else None
  }

  lemma {:induction false} RunKeepsDecided(p: Parent, moves: seq<Move>)
    requires Decided(p) && Possible(p, moves)
    ensures Decided(After(p, moves)) && After(p, moves).thresholds == p.thresholds
    decreases |moves|
  {
    if moves != [] {
      if moves[0] == EndTick {
        DecisionAppend(p.thresholds, p.views, StatusOf(p.wrappers));
      }
      RunKeepsDecided(Do(p, moves[0]), moves[1..]);
    }
  }

  /** In every run the status of a ParallelSequence is finished exactly when its votes led to a
      decision, and then it is that decision. */
  lemma {:induction false} StatusIsDecision(t: Thresholds, n: nat, moves: seq<Move>)
    requires Possible(Started(false, t, n), moves)
    ensures var p := After(Started(false, t, n), moves);
            Decision(t, p.views) == if IsFinished(p.status) then Some(p.status) else None
  {
    RunKeepsDecided(Started(false, t, n), moves);
  }

  predicate AllRespect(moves: seq<Move>, o: Outcomes) {
    forall i :: 0 <= i < |moves| ==> Respects(moves[i], o)
  }

  /** A run of n > 0 children that have the outcomes o. */
  predicate RunOf(t: Thresholds, o: Outcomes, moves: seq<Move>) {
    |o| > 0 && Possible(Started(false, t, |o|), moves) && AllRespect(moves, o)
  }

  function EndOf(t: Thresholds, o: Outcomes, moves: seq<Move>): Parent
    requires RunOf(t, o, moves)
  {
    After(Started(false, t, |o|), moves)
  }

  /** In every run in which the children have the outcomes o, the votes form a schedule of o. With
      thresholds that leave no room for both verdicts, a finished ParallelSequence has the verdict the
      outcomes alone determine, however ticks and threads interleave; when the thresholds add up, it
      has succeeded exactly if enough children do. */
  lemma {:induction false} VerdictOfRun(t: Thresholds, o: Outcomes, moves: seq<Move>)
    requires RunOf(t, o, moves)
    ensures var p := EndOf(t, o, moves);
      && Schedule(p.views, o)
      && (ScheduleFree(t, |o|) && IsFinished(p.status) ==> p.status == FreeDecision(t, o))
      && (t.success + t.failure == |o| + 1 && IsFinished(p.status) ==> p.status == Expected(t, o))
  {
    RunKeepsVoteInv(Started(false, t, |o|), o, moves);
    StatusIsDecision(t, |o|, moves);
    var p := EndOf(t, o, moves);
    if ScheduleFree(t, |o|) && IsFinished(p.status) {
      FreeVote(t, o, p.views);
    }
    if t.success + t.failure == |o| + 1 && IsFinished(p.status) {
      DecisionIsExpected(t, p.views, o);
    }
  }

  // ---------------------------------------------------------------- moves in a row

  lemma {:induction false} InARow(p: Parent, moves: seq<Move>, more: seq<Move>)
    requires Possible(p, moves) && Possible(After(p, moves), more)
    ensures Possible(p, moves + more) && After(p, moves + more) == After(After(p, moves), more)
    decreases |moves|
  {
    if moves == [] {
      assert moves + more == more;
    } else {
      assert (moves + more)[1..] == moves[1..] + more;
      InARow(Do(p, moves[0]), moves[1..], more);
    }
  }

  /** q is p with the wrappers from k on ticked. */
  predicate Swept(p: Parent, q: Parent, k: nat) {
    && |q.wrappers| == |p.wrappers| == |p.children| == |q.children|
    && q == p.(wrappers := q.wrappers, children := q.children, phase := Ticking(|p.wrappers|))
    && (forall i :: 0 <= i < k && i < |p.wrappers| ==> PairAt(q, i) == PairAt(p, i))
    && (forall i :: k <= i < |p.wrappers| ==> PairAt(q, i) == TickIfNeeded(PairAt(p, i)))
  }

  function TicksNext(n: nat): (moves: seq<Move>)
    ensures |moves| == n && forall i :: 0 <= i < n ==> moves[i] == TickNext
  {
    seq(n, i => TickNext)
  }

  lemma {:induction false} SweepStep(p: Parent, q: Parent, k: nat)
    requires p.phase == Ticking(k) && k < |p.wrappers| == |p.children| && Swept(Do(p, TickNext), q, k + 1)
    ensures Swept(p, q, k)
  {
    var d := Do(p, TickNext);
    assert PairAt(d, k) == TickIfNeeded(PairAt(p, k));
    forall i | 0 <= i < |p.wrappers| && i != k ensures PairAt(d, i) == PairAt(p, i) {
    }
  }

  lemma {:induction false} Sweep(p: Parent, k: nat)
    requires p.phase == Ticking(k) && k <= |p.wrappers| == |p.children|
    ensures var moves := TicksNext(|p.wrappers| - k);
            Possible(p, moves) && Swept(p, After(p, moves), k)
    decreases |p.wrappers| - k
  {
    var moves := TicksNext(|p.wrappers| - k);
    if k < |p.wrappers| {
      var d := Do(p, TickNext);
      Sweep(d, k + 1);
      assert moves[0] == TickNext && moves[1..] == TicksNext(|p.wrappers| - (k + 1));
      SweepStep(p, After(d, moves[1..]), k);
    }
  }

  /** One whole tick. */
  function Round(n: nat): seq<Move> {
    [BeginTick(false)] + TicksNext(n) + [EndTick]
  }

  /** A whole tick ticks every wrapper and then votes. */
  lemma {:induction false} RoundEnds(p: Parent, n: nat) returns (q: Parent)
    requires Can(p, BeginTick(false))
    requires var b := Do(p, BeginTick(false)); |b.wrappers| == |b.children| == n > 0
    ensures Swept(Do(p, BeginTick(false)), q, 0) && Can(q, EndTick)
    ensures Possible(p, Round(n)) && After(p, Round(n)) == Do(q, EndTick)
  {
    var b := Do(p, BeginTick(false));
    Sweep(b, 0);
    q := After(b, TicksNext(n));
    assert [EndTick][1..] == [];
    InARow(b, TicksNext(n), [EndTick]);
    assert Round(n)[1..] == TicksNext(n) + [EndTick];
  }

  // ---------------------------------------------------------------- unfinished children go on

  lemma {:induction false} TwoTicksLaunch(q: Pair)
    requires Paired(q) && q.child.running == 0 && NeedsExecute(q.child.status)
    ensures var r := TickIfNeeded(TickIfNeeded(q));
            r.child.running == 1 && r.wrapper == Wrapper(Running, Pending) && Paired(TickIfNeeded(q))
  {
  }

  lemma {:induction false} RoundTicks(p: Parent, n: nat, i: nat)
    requires Inv(p) && Can(p, BeginTick(false)) && |p.children| == n && i < n
    ensures Possible(p, Round(n)) && Inv(After(p, Round(n))) && |After(p, Round(n)).children| == n
    ensures After(p, Round(n)).wrappers != [] && After(p, Round(n)).phase == Idle
    ensures var b, r := Do(p, BeginTick(false)), After(p, Round(n));
            && |b.wrappers| == n == |r.wrappers| && |b.children| == n
            && PairAt(r, i).wrapper == TickIfNeeded(PairAt(b, i)).wrapper
            && PairAt(r, i).child.running == TickIfNeeded(PairAt(b, i)).child.running
            && (NeedsExecute(r.status) ==> PairAt(r, i) == TickIfNeeded(PairAt(b, i)))
  {
    ParentKeepsInv(p, BeginTick(false));
    var q := RoundEnds(p, n);
    RunKeepsInv(p, Round(n));
    assert PairAt(q, i) == TickIfNeeded(PairAt(Do(p, BeginTick(false)), i));
  }

  /** In every run, a child that is unfinished and has no thread inside it is launched, again or for the
      first time, by the next two whole ticks, unless the first of them decides the parent. */
  lemma {:induction false} UnfinishedChildGoesOn(isAsync: bool, t: Thresholds, n: nat, moves: seq<Move>, i: nat)
    requires i < n && (isAsync ==> n == 1) && Possible(Started(isAsync, t, n), moves)
    requires var p := After(Started(isAsync, t, n), moves);
             && Can(p, BeginTick(false)) && i < |p.children|
             && p.children[i].running == 0 && NeedsExecute(p.children[i].status)
    ensures var p := After(Started(isAsync, t, n), moves);
            && Possible(p, Round(n))
            && (NeedsExecute(After(p, Round(n)).status) ==>
                  && Possible(p, Round(n) + Round(n))
                  && var r := After(p, Round(n) + Round(n));
                  && i < |r.children| == |r.wrappers|
                  && r.children[i].running == 1 && r.wrappers[i] == Wrapper(Running, Pending))
  {
    var p := After(Started(isAsync, t, n), moves);
    RunKeepsInv(Started(isAsync, t, n), moves);
    RoundTicks(p, n, i);
    var m := After(p, Round(n));
    if NeedsExecute(m.status) {
      var q := PairAt(Do(p, BeginTick(false)), i);
      TwoTicksLaunch(q);
      RoundTicks(m, n, i);
      InARow(p, Round(n), Round(n));
      assert PairAt(Do(m, BeginTick(false)), i) == PairAt(m, i);
    }
  }

  /** The threads of the children from lo to hi - 1 finish. */
  function Completions(o: Outcomes, lo: nat, hi: nat): (moves: seq<Move>)
    requires lo <= hi <= |o|
    ensures |moves| == hi - lo && forall i :: 0 <= i < hi - lo ==> moves[i] == Done(lo + i, o[lo + i])
  {
    seq(hi - lo, i requires 0 <= i < hi - lo => Done(lo + i, o[lo + i]))
  }

  predicate Completed(p: Parent, q: Parent, o: Outcomes, lo: nat, hi: nat) {
    && |q.wrappers| == |p.wrappers| == |p.children| == |q.children| == |o|
    && q == p.(wrappers := q.wrappers, children := q.children)
    && forall i :: 0 <= i < |o| ==>
      PairAt(q, i) ==
        if lo <= i < hi then Pair(p.wrappers[i].(future := Ready), Child(o[i], 0, p.children[i].halted))
        else PairAt(p, i)
  }

  lemma {:induction false} Complete(p: Parent, o: Outcomes, lo: nat, hi: nat)
    requires |p.wrappers| == |p.children| == |o| && lo <= hi <= |o|
    requires forall i :: lo <= i < hi ==> p.children[i].running == 1
    ensures var moves := Completions(o, lo, hi);
            Possible(p, moves) && AllRespect(moves, o) && Completed(p, After(p, moves), o, lo, hi)
    decreases hi - lo
  {
    var moves := Completions(o, lo, hi);
    if lo < hi {
      var d := Do(p, moves[0]);
      Complete(d, o, lo + 1, hi);
      assert moves[1..] == Completions(o, lo + 1, hi);
    }
  }

  // ---------------------------------------------------------------- opposite runs

  /** All children were launched, and none of them is done. */
  predicate Launched(p: Parent, t: Thresholds, n: nat) {
    && p.thresholds == t && !p.isAsync && p.phase == Idle && p.status == Running
    && |p.wrappers| == |p.children| == n
    && forall i :: 0 <= i < n ==> PairAt(p, i) == Pair(Wrapper(Running, Pending), Child(NotStarted, 1, false))
  }

  lemma {:induction false} TickedPairs(s: Executed)
    requires IsFinished(s)
    ensures TickIfNeeded(Pair(UNUSED, Child(NotStarted, 0, false))) ==
      Pair(Wrapper(Running, Pending), Child(NotStarted, 1, false))
    ensures var launched := Pair(Wrapper(Running, Pending), Child(NotStarted, 1, false));
            TickIfNeeded(launched) == launched
    ensures TickIfNeeded(Pair(Wrapper(Running, Ready), Child(s, 0, false))) ==
      Pair(Wrapper(s, Ready), Child(s, 0, false))
  {
  }

  lemma {:induction false} FirstRound(t: Thresholds, n: nat)
    requires n > 0 && t.success > 0 && t.failure > 0
    ensures Possible(Started(false, t, n), Round(n)) && Launched(After(Started(false, t, n), Round(n)), t, n)
  {
    var b := Do(Started(false, t, n), BeginTick(false));
    var q := RoundEnds(Started(false, t, n), n);
    TickedPairs(Success);
    forall i | 0 <= i < n ensures PairAt(q, i) == Pair(Wrapper(Running, Pending), Child(NotStarted, 1, false)) {
      assert PairAt(b, i) == Pair(UNUSED, Child(NotStarted, 0, false));
      assert PairAt(q, i) == TickIfNeeded(PairAt(b, i));
    }
    var view := StatusOf(q.wrappers);
    forall i | 0 <= i < n ensures view[i] == Running {
      assert PairAt(q, i).wrapper == q.wrappers[i];
    }
    NothingCounted(Success, view);
    NothingCounted(Failure, view);
    forall i | 0 <= i < n ensures PairAt(Do(q, EndTick), i) == PairAt(q, i) {
    }
  }

  /** The children from lo to hi - 1 show their outcomes, the others are Running. */
  predicate Shown(view: seq<Status>, o: Outcomes, lo: nat, hi: nat) {
    |view| == |o| && forall i :: 0 <= i < |o| ==> view[i] == if lo <= i < hi then o[i] else Running
  }

  lemma {:induction false} SecondRound(p: Parent, t: Thresholds, o: Outcomes, lo: nat, hi: nat, view: seq<Status>)
    requires Launched(p, t, |o|) && lo <= hi <= |o| && |o| > 0 && Shown(view, o, lo, hi)
    ensures var moves := Completions(o, lo, hi) + Round(|o|);
            Possible(p, moves) && After(p, moves).status == Vote(t, view)
  {
    forall i | lo <= i < hi ensures p.children[i].running == 1 {
      assert p.children[i] == PairAt(p, i).child;
    }
    Complete(p, o, lo, hi);
    var c := After(p, Completions(o, lo, hi));
    var q := RoundEnds(c, |o|);
    InARow(p, Completions(o, lo, hi), Round(|o|));
    forall i | 0 <= i < |o| ensures q.wrappers[i].status == view[i] {
      assert PairAt(p, i) == Pair(Wrapper(Running, Pending), Child(NotStarted, 1, false));
      assert p.wrappers[i] == PairAt(p, i).wrapper && q.wrappers[i] == PairAt(q, i).wrapper;
      assert PairAt(Do(c, BeginTick(false)), i) == PairAt(c, i);
      assert PairAt(q, i) == TickIfNeeded(PairAt(c, i));
      TickedPairs(o[i]);
    }
    assert StatusOf(q.wrappers) == view;
  }

  /** All children are launched, those from lo to hi - 1 finish, and the next vote is taken. */
  function RunShowing(o: Outcomes, lo: nat, hi: nat): seq<Move>
    requires lo <= hi <= |o|
  {
    Round(|o|) + (Completions(o, lo, hi) + Round(|o|))
  }

  lemma {:induction false} RunShows(t: Thresholds, o: Outcomes, lo: nat, hi: nat, view: seq<Status>)
    requires |o| > 0 && t.success > 0 && t.failure > 0 && lo <= hi <= |o| && Shown(view, o, lo, hi)
    ensures RunOf(t, o, RunShowing(o, lo, hi)) && EndOf(t, o, RunShowing(o, lo, hi)).status == Vote(t, view)
  {
    FirstRound(t, |o|);
    var p := After(Started(false, t, |o|), Round(|o|));
    SecondRound(p, t, o, lo, hi, view);
    InARow(Started(false, t, |o|), Round(|o|), Completions(o, lo, hi) + Round(|o|));
    RunRespects(o, lo, hi);
  }

  lemma {:induction false} RunRespects(o: Outcomes, lo: nat, hi: nat)
    requires lo <= hi <= |o|
    ensures AllRespect(RunShowing(o, lo, hi), o)
  {
    assert AllRespect(Round(|o|), o) && AllRespect(Completions(o, lo, hi), o);
  }

  /** With all other thresholds the attributes can ask for, there are outcomes of the children and two
      runs with these outcomes that end in opposite verdicts. */
  lemma {:induction false} OppositeRuns(t: Thresholds, n: Uint32)
    returns (o: Outcomes, moves: seq<Move>, others: seq<Move>)
    requires t.success + t.failure <= n + 1 && !ScheduleFree(t, n)
    ensures ThresholdsOf(n, Some(t.success), Some(t.failure)) == t
    ensures |o| == n && RunOf(t, o, moves) && RunOf(t, o, others)
    ensures EndOf(t, o, moves).status == Success && EndOf(t, o, others).status == Failure
  {
    ThresholdsAreAttributes(t, n);
    o := Split(n, t.success);
    moves, others := RunShowing(o, 0, t.success), RunShowing(o, t.success, n);
    RunShows(t, o, 0, t.success, Only(Success, o));
    RunShows(t, o, t.success, n, Only(Failure, o));
    OnlyVotes(t, n);
  }
}
