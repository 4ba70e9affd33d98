/** ParallelSequence and Async as objects: a tick during which no thread interferes, and a reset that
    waits for the threads in flight, do what the moves of Threads do. */
module ThreadsObject {
  import opened ExecutionStatus
  import opened Workspaces
  import opened Voting
  import opened Threads

  // ---------------------------------------------------------------- a whole tick, without interference

  predicate InRound(p: Parent) {
    p.phase.Ticking? && p.phase.next <= |p.wrappers| == |p.children| && p.wrappers != []
  }

  /** The rest of the loop over the wrappers. */
  function Round(p: Parent): (r: Parent)
    requires InRound(p)
    ensures Can(r, EndTick)
    decreases |p.wrappers| - p.phase.next
  {
    if p.phase.next == |p.wrappers| then p else Round(Do(p, TickNext))
  }

  lemma {:induction false} RoundTicksAll(p: Parent)
    requires InRound(p)
    ensures var r := Round(p);
      && |r.wrappers| == |p.wrappers| == |r.children|
      && r == p.(wrappers := r.wrappers, children := r.children, phase := Ticking(|p.wrappers|))
      && forall j :: 0 <= j < |p.wrappers| ==>
        PairAt(r, j) == if j < p.phase.next then PairAt(p, j) else TickIfNeeded(PairAt(p, j))
    decreases |p.wrappers| - p.phase.next
  {
    if p.phase.next < |p.wrappers| {
      RoundTicksAll(Do(p, TickNext));
    }
  }

  /** What the loop leaves behind, by what it does to each wrapper and its child. */
  lemma {:induction false} RoundIs(p: Parent, ws: seq<Wrapper>, cs: seq<Child>)
    requires InRound(p) && p.phase == Ticking(0) && |ws| == |cs| == |p.wrappers|
    requires forall j :: 0 <= j < |ws| ==> Pair(ws[j], cs[j]) == TickIfNeeded(PairAt(p, j))
    ensures Round(p) == p.(wrappers := ws, children := cs, phase := Ticking(|ws|))
  {
    RoundTicksAll(p);
    var r := Round(p);
    forall j | 0 <= j < |ws| ensures r.wrappers[j] == ws[j] && r.children[j] == cs[j] {
      assert PairAt(r, j) == Pair(ws[j], cs[j]);
    }
    assert r.wrappers == ws && r.children == cs;
  }

  /** A tick of a parent that needs execution. */
  function Ticked(p: Parent): Parent
    requires p.phase == Idle && NeedsExecute(p.status) && p.children != []
    requires p.status != NotStarted ==> |p.wrappers| == |p.children|
  {
    Do(Round(Do(p, BeginTick(false))), EndTick)
  }

  /** A reset, once it has begun: every thread still in flight is waited for and leaves its child with
      its outcome, then the children are reset. */
  function Cleared(p: Parent, outcomes: seq<Executed>): (r: Parent)
    requires Threads.Inv(p) && p.phase.Clearing? && |outcomes| == |p.children|
    decreases |p.wrappers| - p.phase.next
  {
    var next := p.phase.next;
    if next == |p.wrappers| then Do(p, EndReset)
    else
      var q := Joined(p, next, outcomes[next]);
      ParentKeepsInv(q, ClearNext);
      Cleared(Do(q, ClearNext), outcomes)
  }

  function BeganReset(p: Parent): (q: Parent)
    requires Threads.Inv(p) && p.phase == Idle
    ensures Threads.Inv(q) && q.phase == Clearing(0) && |q.children| == |p.children|
    ensures q.isAsync == p.isAsync && q.thresholds == p.thresholds
  {
    ParentKeepsInv(p, BeginReset);
    Do(p, BeginReset)
  }

  /** Waiting for the thread of a child, if there is one. */
  function Joined(p: Parent, k: nat, outcome: Executed): (q: Parent)
    requires Threads.Inv(p) && k < |p.wrappers|
    ensures Threads.Inv(q) && q.phase == p.phase && |q.wrappers| == |p.wrappers| && |q.children| == |p.children|
    ensures q.wrappers[k].future != Pending
    ensures q.isAsync == p.isAsync && q.thresholds == p.thresholds
  {
    if p.wrappers[k].future == Pending then
      assert Paired(PairAt(p, k));
      ThreadKeepsInv(p, Done(k, outcome));
      Do(p, Done(k, outcome))
    else p
  }

  /** A reset leaves a parent as it was set up, whatever the threads it waited for ended in. */
  lemma {:induction false} ClearedIsStarted(p: Parent, outcomes: seq<Executed>)
    requires Threads.Inv(p) && p.phase.Clearing? && |outcomes| == |p.children|
    ensures Cleared(p, outcomes) == Started(p.isAsync, p.thresholds, |p.children|)
    decreases |p.wrappers| - p.phase.next
  {
    var next := p.phase.next;
    if next < |p.wrappers| {
      var q := Joined(p, next, outcomes[next]);
      ParentKeepsInv(q, ClearNext);
      ClearedIsStarted(Do(q, ClearNext), outcomes);
    } else {
      ResetFindsNoThread(p);
      assert Do(p, EndReset).children == Started(p.isAsync, p.thresholds, |p.children|).children;
    }
  }

  // ---------------------------------------------------------------- lists of objects

  predicate DistinctObjects<T(==)>(s: seq<T>) {
    forall i, j :: 0 <= i < j < |s| ==> s[i] != s[j]
  }

  ghost function ChildOf(child: WrappedInstruction): Child
    reads child
  {
    Child(child.status, child.running, child.halted)
  }

  ghost function ChildrenOf(children: seq<WrappedInstruction>): (r: seq<Child>)
    reads set i | 0 <= i < |children| :: children[i]
    ensures |r| == |children| && forall i :: 0 <= i < |r| ==> r[i] == ChildOf(children[i])
  {
    seq(|children|, i requires 0 <= i < |children| reads set j | 0 <= j < |children| :: children[j] =>
      ChildOf(children[i]))
  }

  ghost function WrappersOf(wrappers: seq<AsyncWrapper>): (r: seq<Wrapper>)
    reads set i | 0 <= i < |wrappers| :: wrappers[i]
    ensures |r| == |wrappers|
    ensures forall i :: 0 <= i < |r| ==> r[i] == Wrapper(wrappers[i].status, wrappers[i].childResult)
  {
    seq(|wrappers|, i requires 0 <= i < |wrappers| reads set j | 0 <= j < |wrappers| :: wrappers[j] =>
      Wrapper(wrappers[i].status, wrappers[i].childResult))
  }

  /** Wrapper i executes child i. */
  ghost predicate Wraps(wrappers: seq<AsyncWrapper>, children: seq<WrappedInstruction>) {
    && |wrappers| == |children| && DistinctObjects(wrappers) && DistinctObjects(children)
    && forall i :: 0 <= i < |wrappers| ==> wrappers[i].instruction == children[i]
  }

  /** The loop of ExecuteSingleImpl over the wrappers. */
  method TickWrappers(wrappers: seq<AsyncWrapper>, children: seq<WrappedInstruction>)
    requires Wraps(wrappers, children)
    requires forall i :: 0 <= i < |wrappers| ==> Paired(wrappers[i].View())
    modifies wrappers, children
    ensures forall i :: 0 <= i < |wrappers| ==> wrappers[i].View() == TickIfNeeded(old(wrappers[i].View()))
  {
    for i := 0 to |wrappers|
      invariant forall j :: 0 <= j < i ==> wrappers[j].View() == TickIfNeeded(old(wrappers[j].View()))
      invariant forall j :: i <= j < |wrappers| ==> wrappers[j].View() == old(wrappers[j].View())
    {
      if NeedsExecute(wrappers[i].status) {
        wrappers[i].Tick();
      }
    }
  }

  /** Tells the children to halt. */
  method HaltChildren(children: seq<WrappedInstruction>)
    modifies children
    ensures ChildrenOf(children) == AllHalted(old(ChildrenOf(children)))
  {
    for i := 0 to |children|
      invariant forall j :: 0 <= j < i ==> children[j].halted
      invariant forall j :: 0 <= j < |children| ==>
        ChildOf(children[j]).(halted := true) == old(ChildOf(children[j])).(halted := true)
    {
      children[i].halted := true;
    }
  }

  /** Waits for the threads that are still in flight; they end with these statuses. */
  method JoinThreads(wrappers: seq<AsyncWrapper>, children: seq<WrappedInstruction>, outcomes: seq<Executed>)
    requires Wraps(wrappers, children) && |outcomes| == |wrappers|
    requires forall i :: 0 <= i < |wrappers| ==> Paired(wrappers[i].View())
    modifies wrappers, children
    ensures forall i :: 0 <= i < |children| ==> children[i].running == 0
  {
    for i := 0 to |wrappers|
      invariant forall j :: 0 <= j < i ==> children[j].running == 0
      invariant forall j :: i <= j < |wrappers| ==> wrappers[j].View() == old(wrappers[j].View())
    {
      assert wrappers[i].instruction == children[i] && Paired(wrappers[i].View());
      if wrappers[i].childResult == Pending {
        children[i].status := outcomes[i];
        children[i].running := children[i].running - 1;
        wrappers[i].childResult := Ready;
      }
    }
  }

  /** Resets the children, once no thread is inside them. */
  method ResetChildren(children: seq<WrappedInstruction>)
    requires forall i :: 0 <= i < |children| ==> children[i].running == 0
    modifies children
    ensures forall i :: 0 <= i < |children| ==> ChildOf(children[i]) == Child(NotStarted, 0, false)
  {
    for i := 0 to |children|
      invariant forall j :: 0 <= j < i ==> ChildOf(children[j]) == Child(NotStarted, 0, false)
      invariant forall j :: 0 <= j < |children| ==> children[j].running == 0
    {
      children[i].status := NotStarted;
      children[i].halted := false;
    }
  }

  class ParallelSequence {
    const children: seq<WrappedInstruction>
    const successAttr: Option<Uint32>
    const failureAttr: Option<Uint32>
    var wrappers: seq<AsyncWrapper>
    var successTh: Uint32
    var failureTh: Uint32
    var status: Status
    ghost var views: seq<seq<Status>>

    ghost predicate Valid()
      reads this
    {
      && 0 < |children| < UINT32 && DistinctObjects(children)
      && (status == NotStarted <==> wrappers == [])
      && (status != NotStarted ==> Wraps(wrappers, children) && Thresholds(successTh, failureTh) == Limits())
    }

    ghost function Limits(): Thresholds
      requires |children| < UINT32
    {
      ThresholdsOf(|children|, successAttr, failureAttr)
    }

    ghost function View(phase: Phase): Parent
      requires Valid()
      reads this, children, wrappers
    {
      Parent(false, Limits(), ChildrenOf(children), WrappersOf(wrappers), status, phase, views)
    }

    constructor (children: seq<WrappedInstruction>, successAttr: Option<Uint32>, failureAttr: Option<Uint32>)
      requires 0 < |children| < UINT32 && DistinctObjects(children)
      requires forall i :: 0 <= i < |children| ==> ChildOf(children[i]) == Child(NotStarted, 0, false)
      ensures Valid() && View(Idle) == Started(false, Limits(), |children|)
    {
      this.children, this.successAttr, this.failureAttr := children, successAttr, failureAttr;
      wrappers, successTh, failureTh, status, views := [], 0, 0, NotStarted, [];
    }

    /** One tick while no thread makes a move. */
    method ExecuteSingle()
      requires Valid() && NeedsExecute(status) && Threads.Inv(View(Idle))
      modifies this, children, wrappers
      ensures Valid() && View(Idle) == Ticked(old(View(Idle)))
    {
      Begin();
      TickAll();
      End();
    }

    /** The initialisation, if this is the first tick. */
    method Begin()
      requires Valid() && NeedsExecute(status) && Threads.Inv(View(Idle))
      modifies `wrappers, `successTh, `failureTh, `status
      ensures Valid() && status != NotStarted
      ensures View(Ticking(0)) == Do(old(View(Idle)), BeginTick(false))
      ensures forall i :: 0 <= i < |wrappers| ==> Paired(wrappers[i].View())
      ensures forall i :: 0 <= i < |wrappers| ==> wrappers == old(wrappers) || fresh(wrappers[i])
    {
      if status == NotStarted {
        InitHook();
        status := NotFinished;
        assert WrappersOf(wrappers) == seq(|children|, i => UNUSED);
      } else {
        assert forall i :: 0 <= i < |wrappers| ==>
          wrappers[i].View() == Pair(WrappersOf(wrappers)[i], ChildrenOf(children)[i]);
      }
    }

    /** The loop over the wrappers. */
    method TickAll()
      requires Valid() && status != NotStarted && forall i :: 0 <= i < |wrappers| ==> Paired(wrappers[i].View())
      modifies children, wrappers
      ensures Valid() && View(Ticking(|wrappers|)) == Round(old(View(Ticking(0))))
    {
      ghost var p := View(Ticking(0));
      assert forall i :: 0 <= i < |wrappers| ==> wrappers[i].View() == PairAt(p, i);
      TickWrappers(wrappers, children);
      assert forall i :: 0 <= i < |wrappers| ==>
        wrappers[i].View() == Pair(WrappersOf(wrappers)[i], ChildrenOf(children)[i]);
      RoundIs(p, WrappersOf(wrappers), ChildrenOf(children));
    }

    /** The vote; a verdict halts the children. */
    method End()
      requires Valid() && status != NotStarted
      modifies `status, `views, children
      ensures Valid() && View(Idle) == Do(old(View(Ticking(|wrappers|))), EndTick)
    {
      TakeVote();
      if IsFinished(status) {
        HaltChildren(children);
      }
    }

    method TakeVote()
      requires Valid() && status != NotStarted
      modifies `status, `views
      ensures Valid() && status == Vote(Limits(), StatusOf(WrappersOf(wrappers)))
      ensures views == old(views) + [StatusOf(WrappersOf(wrappers))]
    {
      status := CalculateCompoundStatus(Thresholds(successTh, failureTh), Statuses());
      views := views + [Statuses()];
    }

    function Statuses(): (r: seq<Status>)
      reads this, wrappers
      ensures r == StatusOf(WrappersOf(wrappers))
    {
      seq(|wrappers|, i requires 0 <= i < |wrappers| reads this, wrappers => wrappers[i].status)
    }

    method InitHook()
      requires Valid()
      modifies `wrappers, `successTh, `failureTh
      ensures Wraps(wrappers, children) && Thresholds(successTh, failureTh) == Limits()
      ensures forall i :: 0 <= i < |wrappers| ==> fresh(wrappers[i])
      ensures forall i :: 0 <= i < |wrappers| ==>
        wrappers[i].status == NotStarted && wrappers[i].childResult == NoFuture
    {
      InitWrappers();
      successTh, failureTh := InitThresholds(|children|, successAttr, failureAttr);
    }

    method InitWrappers()
      requires DistinctObjects(children)
      modifies `wrappers
      ensures Wraps(wrappers, children) && forall i :: 0 <= i < |wrappers| ==> fresh(wrappers[i])
      ensures forall i :: 0 <= i < |wrappers| ==>
        wrappers[i].status == NotStarted && wrappers[i].childResult == NoFuture
    {
      wrappers := [];
      for i := 0 to |children|
        invariant |wrappers| == i && DistinctObjects(wrappers)
        invariant forall j :: 0 <= j < i ==> fresh(wrappers[j]) && wrappers[j].instruction == children[j]
        invariant forall j :: 0 <= j < i ==> wrappers[j].status == NotStarted && wrappers[j].childResult == NoFuture
      {
        var wrapper := new AsyncWrapper(children[i]);
        wrappers := wrappers + [wrapper];
      }
    }

    /** A reset; the threads it waits for end with these statuses. */
    method Reset(outcomes: seq<Executed>)
      requires Valid() && Threads.Inv(View(Idle)) && |outcomes| == |children|
      modifies this, children, wrappers
      ensures Valid() && View(Idle) == Cleared(BeganReset(old(View(Idle))), outcomes)
      ensures View(Idle) == Started(false, Limits(), |children|)
    {
      ClearedIsStarted(BeganReset(View(Idle)), outcomes);
      assert forall i :: 0 <= i < |wrappers| ==>
        wrappers[i].View() == Pair(WrappersOf(wrappers)[i], ChildrenOf(children)[i]);
      WaitForThreads(outcomes);
      wrappers := [];
      ResetChildren(children);
      status := NotStarted;
      views := [];
    }

    /** Halts the children unless they were halted already, and waits for their threads. */
    method WaitForThreads(outcomes: seq<Executed>)
      requires Valid() && |outcomes| == |children|
      requires forall i :: 0 <= i < |wrappers| ==> Paired(wrappers[i].View())
      requires wrappers == [] ==> forall i :: 0 <= i < |children| ==> children[i].running == 0
      modifies children, wrappers
      ensures forall i :: 0 <= i < |children| ==> children[i].running == 0
    {
      if status == Running || status == NotFinished {
        HaltChildren(children);
      }
      if wrappers != [] {
        JoinThreads(wrappers, children, outcomes);
      }
    }
  }

  class Async {
    const child: WrappedInstruction
    var wrapper: AsyncWrapper?
    var status: Status
    ghost var views: seq<seq<Status>>

    ghost predicate Valid()
      reads this
    {
      (status == NotStarted <==> wrapper == null) && (wrapper != null ==> wrapper.instruction == child)
    }

    ghost function View(phase: Phase): Parent
      requires Valid()
      reads this, child, wrapper
    {
      Parent(true, Thresholds(0, 0), [ChildOf(child)],
             if wrapper == null then [] else [Wrapper(wrapper.status, wrapper.childResult)], status, phase, views)
    }

    constructor (child: WrappedInstruction)
      requires ChildOf(child) == Child(NotStarted, 0, false)
      ensures Valid() && View(Idle) == Started(true, Thresholds(0, 0), 1)
    {
      this.child := child;
      wrapper, status, views := null, NotStarted, [];
    }

    method ExecuteSingle()
      requires Valid() && NeedsExecute(status) && Threads.Inv(View(Idle))
      modifies this, child, wrapper
      ensures Valid() && View(Idle) == Ticked(old(View(Idle)))
    {
      if status == NotStarted {
        wrapper := new AsyncWrapper(child);
        status := NotFinished;
      }
      ghost var p := View(Ticking(0));
      assert p == Do(old(View(Idle)), BeginTick(false));
      assert Paired(PairAt(p, 0));
      if NeedsExecute(wrapper.status) {
        wrapper.Tick();
      }
      RoundIs(p, [Wrapper(wrapper.status, wrapper.childResult)], [ChildOf(child)]);
      TickKeepsPaired(PairAt(p, 0));
      status := wrapper.status;
      assert StatusOf([Wrapper(wrapper.status, wrapper.childResult)]) == [status];
      views := views + [[status]];
    }

    /** A reset; a thread it waits for ends with this status. */
    method Reset(outcome: Executed)
      requires Valid() && Threads.Inv(View(Idle))
      modifies this, child, wrapper
      ensures Valid() && View(Idle) == Cleared(BeganReset(old(View(Idle))), [outcome])
      ensures View(Idle) == Started(true, Thresholds(0, 0), 1)
    {
      ClearedIsStarted(BeganReset(View(Idle)), [outcome]);
      ghost var p := View(Idle);
      if status == Running {
        child.halted := true;
      }
      if wrapper != null {
        assert Paired(PairAt(p, 0));
        if wrapper.childResult == Pending {
          child.status := outcome;
          child.running := child.running - 1;
        }
      }
      wrapper := null;
      child.status := NotStarted;
      child.halted := false;
      status := NotStarted;
      views := [];
    }
  }
}
