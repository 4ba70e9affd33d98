/** The threads behind ParallelSequence and Async: every child is executed by a wrapper, in a
    thread of its own, while the parent ticks the wrappers. */
module Threads {
  import opened ExecutionStatus
  import opened Voting

  /** The result of a launched execution, if there ever was one. */
  datatype Future = NoFuture | Pending | Ready

  /** AsyncWrapper: the status it last read, and the future of the last launch. */
  datatype Wrapper = Wrapper(status: Status, future: Future)

  /** A wrapped instruction: its status, how many threads are inside its ExecuteSingle, and whether it
      was told to halt. */
  datatype Child = Child(status: Status, running: nat, halted: bool)

  datatype Pair = Pair(wrapper: Wrapper, child: Child)

  const UNUSED: Wrapper := Wrapper(NotStarted, NoFuture)

  /** AsyncWrapper::Tick. */
  function TickWrapper(p: Pair): Pair {
    if p.wrapper.future == Pending then p
    else if p.child.status != p.wrapper.status then p.(wrapper := p.wrapper.(status := p.child.status))
    else if NeedsExecute(p.wrapper.status)
    then Pair(Wrapper(Running, Pending), p.child.(running := p.child.running + 1))
    else p
  }

  /** What the loop of the parent does to a wrapper. */
  function TickIfNeeded(q: Pair): Pair {
    if NeedsExecute(q.wrapper.status) then TickWrapper(q) else q
  }

  /** The states in which a wrapper and its child can be. */
  predicate Paired(p: Pair) {
    && p.child.running == (if p.wrapper.future == Pending then 1 else 0)
    && (p.wrapper.future == NoFuture ==> p.wrapper.status == NotStarted && p.child.status == NotStarted)
    && (p.wrapper.future == Pending ==> p.wrapper.status == Running)
    && (p.wrapper.future == Ready ==> p.wrapper.status != NotStarted && p.child.status != NotStarted)
    && (p.wrapper.future == Ready && p.wrapper.status != Running ==> p.wrapper.status == p.child.status)
  }

  // ---------------------------------------------------------------- a parent and its children

  /** What the parent is doing. */
  datatype Phase =
    | Idle
    | Ticking(next: nat)     // in the loop over the wrappers
    | Clearing(next: nat)    // waiting for the threads, before the children are reset

  /** A ParallelSequence, or an Async (which has one child). `views` are the wrappers' statuses at
      the successive votes since the last reset. */
  datatype Parent = Parent(
    isAsync: bool,
    thresholds: Thresholds,
    children: seq<Child>,
    wrappers: seq<Wrapper>,
    status: Status,
    phase: Phase,
    views: seq<seq<Status>>)

  datatype Move =
    | BeginTick(halted: bool)
    | TickNext
    | EndTick
    | BeginReset
    | ClearNext
    | EndReset
    | Write(k: nat, status: Executed)    // a thread stores a status in its child
    | Done(k: nat, status: Executed)     // a thread leaves its child with this status

  function PairAt(p: Parent, k: nat): Pair
    requires k < |p.children| == |p.wrappers|
  {
    Pair(p.wrappers[k], p.children[k])
  }

  function Put(p: Parent, k: nat, q: Pair): Parent
    requires k < |p.children| == |p.wrappers|
  {
    p.(wrappers := p.wrappers[k := q.wrapper], children := p.children[k := q.child])
  }

  predicate Can(p: Parent, m: Move) {
    match m
    case BeginTick(_) => p.phase == Idle && NeedsExecute(p.status)
    case TickNext => p.phase.Ticking? && p.phase.next < |p.wrappers| == |p.children|
    case EndTick => p.phase == Ticking(|p.wrappers|) && |p.wrappers| == |p.children| > 0
    case BeginReset => p.phase == Idle
    // Destroying a future waits for its thread.
    case ClearNext => p.phase.Clearing? && p.phase.next < |p.wrappers| && p.wrappers[p.phase.next].future != Pending
    case EndReset => p.phase == Clearing(|p.wrappers|)
    case Write(k, _) => k < |p.children| && p.children[k].running > 0
    case Done(k, _) => k < |p.children| == |p.wrappers| && p.children[k].running > 0
  }

  function StatusOf(ws: seq<Wrapper>): (r: seq<Status>)
    ensures |r| == |ws| && forall i :: 0 <= i < |r| ==> r[i] == ws[i].status
  {
    seq(|ws|, i requires 0 <= i < |ws| => ws[i].status)
  }

  /** Tells every child to halt. */
  function HaltAll(p: Parent): Parent {
    p.(children := AllHalted(p.children))
  }

  function AllHalted(cs: seq<Child>): (r: seq<Child>)
    ensures |r| == |cs| && forall i :: 0 <= i < |r| ==> r[i] == cs[i].(halted := true)
  {
    seq(|cs|, i requires 0 <= i < |cs| => cs[i].(halted := true))
  }

  /** Whether a reset halts the children first. */
  predicate HaltsFirst(p: Parent) {
    p.status == Running || (!p.isAsync && p.status == NotFinished)
  }

  function Do(p: Parent, m: Move): Parent
    requires Can(p, m)
  {
    match m
    case BeginTick(halted) =>
      (if p.status == NotStarted then p.(wrappers := seq(|p.children|, i => UNUSED), status := NotFinished) else p)
        .(phase := if halted then Idle else Ticking(0))
    case TickNext =>
      var k := p.phase.next;
      (if NeedsExecute(p.wrappers[k].status) then Put(p, k, TickWrapper(PairAt(p, k))) else p).(phase := Ticking(k + 1))
    case EndTick =>
      var view := StatusOf(p.wrappers);
      var s := if p.isAsync then view[0] else Vote(p.thresholds, view);
      (if !p.isAsync && IsFinished(s) then HaltAll(p) else p).(status := s, phase := Idle, views := p.views + [view])
    case BeginReset => (if HaltsFirst(p) then HaltAll(p) else p).(phase := Clearing(0))
    case ClearNext => p.(phase := Clearing(p.phase.next + 1))
    case EndReset =>
      p.(wrappers := [], status := NotStarted, phase := Idle, views := [],
         children := seq(|p.children|,
             i requires 0 <= i < |p.children| => p.children[i].(status := NotStarted, halted := false)))
    case Write(k, s) => p.(children := p.children[k := p.children[k].(status := s)])
    case Done(k, s) =>
      p.(children := p.children[k := Child(s, p.children[k].running - 1, p.children[k].halted)],
         wrappers := p.wrappers[k := p.wrappers[k].(future := Ready)])
  }

  /** A parent right after setup. */
  function Started(isAsync: bool, t: Thresholds, n: nat): Parent {
    Parent(isAsync, t, seq(n, i => Child(NotStarted, 0, false)), [], NotStarted, Idle, [])
  }

  predicate Possible(p: Parent, moves: seq<Move>)
    decreases |moves|
  {
    moves == [] || (Can(p, moves[0]) && Possible(Do(p, moves[0]), moves[1..]))
  }

  function After(p: Parent, moves: seq<Move>): Parent
    requires Possible(p, moves)
    decreases |moves|
  {
    if moves == [] then p else After(Do(p, moves[0]), moves[1..])
  }

  // ---------------------------------------------------------------- what every run keeps

  predicate Quiet(c: Child) {
    c == Child(NotStarted, 0, false)
  }

  predicate PhaseOk(p: Parent) {
    match p.phase
    case Idle => p.status == NotStarted <==> p.wrappers == []
    case Ticking(next) =>
      && p.status != NotStarted && next <= |p.wrappers| == |p.children|
      && forall i :: 0 <= i < next ==> p.wrappers[i].status != NotStarted
    case Clearing(next) =>
      && (p.status == NotStarted <==> p.wrappers == [])
      && next <= |p.wrappers| && forall i :: 0 <= i < next ==> p.wrappers[i].future != Pending
  }

  predicate AllPaired(ws: seq<Wrapper>, cs: seq<Child>) {
    |ws| == |cs| && forall i :: 0 <= i < |ws| ==> Paired(Pair(ws[i], cs[i]))
  }

  predicate PairsOk(p: Parent) {
    if p.wrappers == [] then forall i :: 0 <= i < |p.children| ==> Quiet(p.children[i])
    else AllPaired(p.wrappers, p.children)
  }

  predicate Inv(p: Parent) {
    p.children != [] && PairsOk(p) && PhaseOk(p)
  }

  lemma {:induction false} PutKeepsPairs(p: Parent, k: nat, q: Pair)
    requires PairsOk(p) && k < |p.children| == |p.wrappers| && Paired(q)
    ensures PairsOk(Put(p, k, q))
  {
  }

  lemma {:induction false} TickKeepsPaired(q: Pair)
    requires Paired(q)
    ensures Paired(TickWrapper(q)) && TickWrapper(q).wrapper.status != NotStarted
  {
  }

  /** The beginning of a tick: the first one gives every child an unused wrapper, and a parent that was
      told to halt goes no further. */
  lemma {:induction false} BeginTickMeans(p: Parent, halted: bool)
    requires Can(p, BeginTick(halted))
    ensures var q := Do(p, BeginTick(halted));
            && q.children == p.children && q.views == p.views
            && (p.status != NotStarted ==> q.status == p.status && q.wrappers == p.wrappers)
            && (p.status == NotStarted ==>
                  && q.status == NotFinished && |q.wrappers| == |p.children|
                  && forall i :: 0 <= i < |q.wrappers| ==> q.wrappers[i] == Wrapper(NotStarted, NoFuture))
            && q.phase == (if halted then Idle else Ticking(0))
  {
  }

  /** What one step of the loop does to the wrapper it is at and its child: nothing while a thread is
      inside the child or once the wrapper is finished; otherwise the wrapper takes over a status the
      child has changed, or launches a child whose status it already shows. */
  lemma {:induction false} TickNextMeans(p: Parent)
    requires Inv(p) && Can(p, TickNext)
    ensures var k := p.phase.next;
            var w, c := p.wrappers[k], p.children[k];
            var next := p.(phase := Ticking(k + 1));
            Do(p, TickNext) ==
              if c.running > 0 || w.status == Success || w.status == Failure then next
              else if c.status != w.status then next.(wrappers := p.wrappers[k := w.(status := c.status)])
              else next.(wrappers := p.wrappers[k := Wrapper(Running, Pending)],
                         children := p.children[k := c.(running := 1)])
  {
    var k := p.phase.next;
    assert Paired(Pair(p.wrappers[k], p.children[k]));
    assert p.wrappers[k := p.wrappers[k]] == p.wrappers && p.children[k := p.children[k]] == p.children;
  }

  lemma {:induction false} ParentKeepsInv(p: Parent, m: Move)
    requires Inv(p) && Can(p, m) && !m.Write? && !m.Done?
    ensures Inv(Do(p, m))
  {
    if m.TickNext? {
      var k := p.phase.next;
      TickKeepsPaired(PairAt(p, k));
      PutKeepsPairs(p, k, TickWrapper(PairAt(p, k)));
    } else if m.EndReset? {
      ResetFindsNoThread(p);
    }
  }

  /** When the children are reset no thread is inside any of them. */
  lemma {:induction false} ResetFindsNoThread(p: Parent)
    requires Inv(p) && Can(p, EndReset)
    ensures forall i :: 0 <= i < |p.children| ==> p.children[i].running == 0
  {
  }

  lemma {:induction false} ThreadKeepsInv(p: Parent, m: Move)
    requires Inv(p) && Can(p, m) && (m.Write? || m.Done?)
    ensures Inv(Do(p, m))
  {
    assert p.wrappers != [];
    var q := PairAt(p, m.k);
    if m.Write? {
      PutKeepsPairs(p, m.k, q.(child := q.child.(status := m.status)));
      assert p.wrappers[m.k := q.wrapper] == p.wrappers;
    } else {
      PutKeepsPairs(p, m.k, Pair(q.wrapper.(future := Ready), Child(m.status, q.child.running - 1, q.child.halted)));
    }
  }

  lemma {:induction false} RunKeepsInv(p: Parent, moves: seq<Move>)
    requires Inv(p) && Possible(p, moves)
    ensures Inv(After(p, moves)) && |After(p, moves).children| == |p.children|
    decreases |moves|
  {
    if moves != [] {
      if moves[0].Write? || moves[0].Done? { ThreadKeepsInv(p, moves[0]); } else { ParentKeepsInv(p, moves[0]); }
      RunKeepsInv(Do(p, moves[0]), moves[1..]);
    }
  }

  /** In every interleaving a child has at most one thread inside it. A wrapper that is not started
      never launched one; one that is not finished, succeeded or failed has no thread in flight and
      shows its child's status. */
  lemma {:induction false} ThreadProtocol(isAsync: bool, t: Thresholds, n: nat, moves: seq<Move>)
    requires n > 0 && Possible(Started(isAsync, t, n), moves)
    ensures var p := After(Started(isAsync, t, n), moves);
      && (forall i :: 0 <= i < |p.children| ==> p.children[i].running <= 1)
      && (p.wrappers != [] ==> |p.wrappers| == |p.children| && forall i :: 0 <= i < |p.wrappers| ==>
        && (p.wrappers[i].status == NotStarted ==> p.wrappers[i].future == NoFuture && p.children[i].running == 0)
        && (p.wrappers[i].status == NotFinished || IsFinished(p.wrappers[i].status) ==>
          p.children[i].running == 0 && p.children[i].status == p.wrappers[i].status))
  {
    var p := After(Started(isAsync, t, n), moves);
    RunKeepsInv(Started(isAsync, t, n), moves);
  }

  /** A ParallelSequence or Async resets its children only after their threads have been joined. */
  lemma {:induction false} ResetAfterJoin(isAsync: bool, t: Thresholds, n: nat, moves: seq<Move>)
    requires n > 0 && Possible(Started(isAsync, t, n), moves)
    ensures var p := After(Started(isAsync, t, n), moves);
      Can(p, EndReset) ==> forall i :: 0 <= i < |p.children| ==> p.children[i].running == 0
  {
    RunKeepsInv(Started(isAsync, t, n), moves);
    if Can(After(Started(isAsync, t, n), moves), EndReset) {
      ResetFindsNoThread(After(Started(isAsync, t, n), moves));
    }
  }

  // ---------------------------------------------------------------- what a reset waits for

  /** The status of an Async is that of its wrapper, once it was ticked. */
  predicate AsyncStatus(p: Parent)
    requires p.wrappers != []
  {
    p.status == p.wrappers[0].status || (p.status == NotFinished && p.wrappers[0].status == NotStarted)
  }

  /** A decided ParallelSequence has told its children to halt, and a reset waits only for those that
      were told to. */
  predicate HaltInv(p: Parent) {
    && Inv(p)
    && (p.isAsync ==> |p.children| == 1 && (p.phase == Idle && p.wrappers != [] ==> AsyncStatus(p)))
    && (!p.isAsync && IsFinished(p.status) && !p.phase.Ticking? ==>
          forall i :: 0 <= i < |p.children| ==> p.children[i].halted)
    && (p.phase.Clearing? ==> forall i :: 0 <= i < |p.children| && p.children[i].running > 0 ==> p.children[i].halted)
  }

  lemma {:induction false} BeginResetHalts(p: Parent)
    requires HaltInv(p) && Can(p, BeginReset)
    ensures HaltInv(Do(p, BeginReset))
  {
    ParentKeepsInv(p, BeginReset);
    if p.wrappers != [] {
      assert forall i :: 0 <= i < |p.children| ==> Paired(Pair(p.wrappers[i], p.children[i]));
    }
  }

  /** The beginning of a reset halts all children if the status is Running, of a ParallelSequence also if
      it is NotFinished, and otherwise none. */
  lemma {:induction false} BeginResetMeans(p: Parent, i: nat)
    requires Can(p, BeginReset) && i < |p.children|
    ensures var q := Do(p, BeginReset);
            && |q.children| == |p.children|
            && q == p.(children := q.children, phase := Clearing(0))
            && q.children[i] == p.children[i].(halted :=
                 p.children[i].halted || p.status == Running || (p.status == NotFinished && !p.isAsync))
  {
  }

  lemma {:induction false} MoveKeepsHaltInv(p: Parent, m: Move)
    requires HaltInv(p) && Can(p, m)
    ensures HaltInv(Do(p, m)) && Do(p, m).isAsync == p.isAsync
  {
    match m {
      case BeginReset => BeginResetHalts(p);
      case Write(_, _) => ThreadKeepsInv(p, m);
      case Done(_, _) => ThreadKeepsInv(p, m);
      case _ => ParentKeepsInv(p, m);
    }
  }

  lemma {:induction false} RunKeepsHaltInv(p: Parent, moves: seq<Move>)
    requires HaltInv(p) && Possible(p, moves)
    ensures HaltInv(After(p, moves)) && After(p, moves).isAsync == p.isAsync
    decreases |moves|
  {
    if moves != [] {
      MoveKeepsHaltInv(p, moves[0]);
      RunKeepsHaltInv(Do(p, moves[0]), moves[1..]);
    }
  }

  /** In every interleaving, once a ParallelSequence has a verdict all its children were told to halt,
      and every thread that a reset of a ParallelSequence or Async waits for is inside a child that was
      told to halt. */
  lemma {:induction false} ResetWaitsForHalted(isAsync: bool, t: Thresholds, n: nat, moves: seq<Move>)
    requires n > 0 && (isAsync ==> n == 1) && Possible(Started(isAsync, t, n), moves)
    ensures var p := After(Started(isAsync, t, n), moves);
      && (!isAsync && p.phase == Idle && IsFinished(p.status) ==>
            forall i :: 0 <= i < |p.children| ==> p.children[i].halted)
      && (p.phase.Clearing? ==>
            forall i :: 0 <= i < |p.children| && p.children[i].running > 0 ==> p.children[i].halted)
  {
    RunKeepsHaltInv(Started(isAsync, t, n), moves);
  }

  // ---------------------------------------------------------------- the wrapper as an object

  /** The instruction behind a wrapper. */
  class WrappedInstruction {
    var status: Status
    var running: nat
    var halted: bool

    constructor ()
      ensures status == NotStarted && running == 0 && !halted
    {
      status, running, halted := NotStarted, 0, false;
    }
  }

  class AsyncWrapper {
    const instruction: WrappedInstruction
    var status: Status
    var childResult: Future

    ghost function View(): Pair
      reads this, instruction
    {
      Pair(Wrapper(status, childResult), Child(instruction.status, instruction.running, instruction.halted))
    }

    constructor (instruction: WrappedInstruction)
      ensures this.instruction == instruction && status == NotStarted && childResult == NoFuture
    {
      this.instruction := instruction;
      status, childResult := NotStarted, NoFuture;
    }

    method Tick()
      requires Paired(View())
      modifies this, instruction
      ensures View() == TickWrapper(old(View())) && Paired(View())
    {
      var waiting := WaitingForThread();
      if !waiting {
        var statusChanged := UpdateStatus();
        if !statusChanged && NeedsExecute(status) {
          LaunchChild();
          status := Running;
        }
      }
    }

    method WaitingForThread() returns (waiting: bool)
      ensures waiting <==> childResult == Pending
    {
      if childResult == NoFuture {
        return false;
      }
      return childResult == Pending;
    }

    method UpdateStatus() returns (changed: bool)
      modifies `status
      ensures status == instruction.status && (changed <==> old(status) != status)
    {
      var oldStatus := status;
      status := instruction.status;
      return status != oldStatus;
    }

    method LaunchChild()
      modifies `childResult, instruction
      ensures childResult == Pending
      ensures instruction.running == old(instruction.running) + 1
      ensures instruction.status == old(instruction.status) && instruction.halted == old(instruction.halted)
    {
      childResult := Pending;
      instruction.running := instruction.running + 1;
    }
  }
}
