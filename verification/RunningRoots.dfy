/** Breakpoints under a Running root: nothing is tested there, so what the tick executes must not be
    ready. When that is so, and a reactive procedure for which it is not. */
module RunningRoots {
  import opened ExecutionStatus
  import opened Workspaces
  import opened Engine
  import opened Shape
  import opened Runs
  import opened Prediction
  import opened Breakpoints
  import opened RunnerModel

  /** Every instruction the next tick executes is Running already. */
  predicate RunningLine(n: Node, w: World)
    requires WellFormed(n)
    decreases Size(n)
  {
    && n.status == Running
    && match NextCall(n, w)
       case None => true
       case Some(c) => RunningLine(c.child, c.world)
  }

  /** A Running root is never stopped at. */
  lemma {:induction false} RunningIsNotHit(m: Machine)
    requires MachineOk(m) && m.config.root.status == Running
    ensures Next(m) == [] && !IsHit(m)
  {
  }

  lemma {:induction false} CalledNeedsExecute(n: Node, w: World)
    requires WellFormed(n) && Enterable(n) && NextCall(n, w).Some?
    ensures NeedsExecute(NextCall(n, w).value.child.status)
  {
  }

  /** The first instruction on the line of a tick that is not Running, if there is one. */
  lemma {:induction false} FirstReady(a: Actions, n: Node, w: World) returns (i: nat)
    requires WellFormed(n) && Shaped(n) && Live(n) && NeedsExecute(n.status) && !RunningLine(n, w)
    ensures i < |ExecutedNodes(a, n, w)| && ReadyForExecute(ExecutedNodes(a, n, w)[i].status)
    decreases Size(n)
  {
    if n.status != Running {
      i := 0;
    } else {
      var c := NextCall(n, w).value;
      CalledNeedsExecute(n, w);
      CalledChild(n, w);
      i := FirstReady(a, c.child, c.world);
      i := i + 1;
    }
  }

  lemma {:induction false} RunningLineExecutes(a: Actions, n: Node, w: World)
    requires WellFormed(n) && RunningLine(n, w)
    ensures forall i :: 0 <= i < |ExecutedNodes(a, n, w)| ==> ExecutedNodes(a, n, w)[i].status == Running
    decreases Size(n)
  {
    if !n.halted {
      match NextCall(n, w)
      case None =>
      case Some(c) => RunningLineExecutes(a, c.child, c.world);
    }
  }

  /** A Running root of any kind is never stopped at, and the next tick respects the breakpoints,
      wherever they are, exactly when everything it executes is Running. */
  lemma {:induction false} RunningRootsRespectBreakpoints(a: Actions, m: Machine)
    requires RootOk(m.config.root) && !m.config.root.halted && m.config.root.status == Running
    ensures !IsHit(m)
    ensures RunningLine(m.config.root, m.config.world)
      <==> forall bps :: TickRespectsBreakpoints(a, m.(bps := bps))
  {
    var n, w := m.config.root, m.config.world;
    RunningIsNotHit(m);
    if RunningLine(n, w) {
      RunningLineExecutes(a, n, w);
      forall bps ensures TickRespectsBreakpoints(a, m.(bps := bps)) {
      }
    } else {
      var i := FirstReady(a, n, w);
      var x := ExecutedNodes(a, n, w)[i];
      var bps := [Breakpoint(x.id, Set)];
      assert bps[0] == Breakpoint(x.id, Set);
      assert Stops(bps, x.id);
      assert !TickRespectsBreakpoints(a, m.(bps := bps));
    }
  }

  /** Without reactive and counting instructions everything under a Running root is Running. */
  lemma {:induction false} PlainLineIsRunning(n: Node, w: World)
    requires WellFormed(n) && Shaped(n) && n.status == Running && Uncounted(n) && Nonreactive(n)
    ensures RunningLine(n, w)
    decreases Size(n)
  {
    RunningCallsRunning(n, w);
    match NextCall(n, w)
    case None =>
    case Some(c) => PlainLineIsRunning(c.child, c.world);
  }

  // ---------------------------------------------------------------- a reactive procedure

  /** A guard and an action that stays Running. */
  const GUARDED: Prog := Prog(0, ReactiveSequence, [Prog(1, Action(1), []), Prog(2, Action(2), [])])

  ghost predicate GuardHolds(a: Actions) {
    && (forall act, u :: a.init(act, u).ok)
    && (forall mem, u :: a.exec(1, mem, u).status == Success)
    && (forall mem, u :: a.exec(2, mem, u).status == Running)
  }

  lemma {:induction false} ActionReports(a: Actions, n: Node, w: World)
    requires WellFormed(n) && n.op.Action? && n.status == NotStarted && !n.halted && a.init(n.op.act, w).ok
    ensures ExecuteSingle(a, n, w).node.status ==
      a.exec(n.op.act, a.init(n.op.act, w).mem, w.(vars := a.init(n.op.act, w).vars)).status
    ensures ExecuteSingle(a, n, w).node.id == n.id
  {
  }

  lemma {:induction false} GuardTicked(a: Actions, w: World)
    requires GuardHolds(a) && WellFormed(Fresh(GUARDED))
    ensures var r := ExecuteSingle(a, Fresh(GUARDED), w).node;
            && r.op == ReactiveSequence && r.status == NotFinished && !r.halted && |r.kids| == 2
            && r.kids[0].status == Success && r.kids[0].id == 1 && r.kids[1] == Fresh(GUARDED).kids[1]
  {
    var n := Fresh(GUARDED);
    var w' := Preamble(a, n, w).world;
    ActionReports(a, n.kids[0], w');
    PickIs(Statuses(n.kids), 0);
    ReactiveTick(a, n, w, 0);
    TickKeepsTree(a, n, w);
    var ss := [Success, NotStarted];
    VerdictAt(Success, ss, 1);
    assert Statuses(n.kids[0 := ExecuteSingle(a, n.kids[0], w').node]) == ss;
  }

  /** After two ticks the root is Running and the guard was reset; the third tick executes the guard,
      ready and with its breakpoint armed, without a stop. */
  lemma {:induction false} GuardIsNotStoppedAt(a: Actions, w: World) returns (m: Machine)
    requires GuardHolds(a)
    ensures ProgOk(GUARDED) && m == Machine(RunFrom(a, GUARDED, w, [Tick, Tick]), [Breakpoint(1, Set)], [])
    ensures MachineOk(m) && !m.config.root.halted && m.config.root.status == Running
    ensures !IsHit(m) && !TickRespectsBreakpoints(a, m)
  {
    FreshStart(GUARDED);
    var n := Fresh(GUARDED);
    ApplyWellFormed(a, Started(GUARDED, w), Tick);
    var c := Apply(a, Started(GUARDED, w), Tick);
    ApplyWellFormed(a, c, Tick);
    var d := Apply(a, c, Tick);
    TwoTicks(a, Started(GUARDED, w));
    GuardTicked(a, w);
    FreshIsShaped(n);
    TickKeepsShape(a, n, w);
    GuardReset(a, c);
    m := Machine(d, [Breakpoint(1, Set)], []);
    GuardIsNext(a, m);
  }

  lemma {:induction false} TwoTicks(a: Actions, c: Config)
    requires WellFormed(c.root) && WellFormed(Apply(a, c, Tick).root)
    ensures Run(a, c, [Tick, Tick]) == Apply(a, Apply(a, c, Tick), Tick)
  {
    assert [Tick, Tick][1..] == [Tick] && [Tick][1..] == [];
  }

  lemma {:induction false} GuardIsNext(a: Actions, m: Machine)
    requires MachineOk(m) && m.bps == [Breakpoint(1, Set)]
    requires var r := m.config.root;
             && r.op == ReactiveSequence && r.status == Running && !r.halted && |r.kids| == 2
             && r.kids[0].status == NotStarted && r.kids[0].id == 1
    ensures !IsHit(m) && !TickRespectsBreakpoints(a, m)
  {
    var d := m.config;
    PickIs(Statuses(d.root.kids), 0);
    assert NextCall(d.root, d.world) == Some(Call(0, d.root.kids[0], d.world, []));
    assert ExecutedNodes(a, d.root, d.world) == [d.root] + ExecutedNodes(a, d.root.kids[0], d.world);
    assert ExecutedNodes(a, d.root, d.world)[1] == d.root.kids[0];
    assert m.bps[0] == Breakpoint(1, Set);
  }

  lemma {:induction false} GuardReset(a: Actions, c: Config)
    requires GuardHolds(a) && WellFormed(c.root) && Shaped(c.root) && Live(c.root)
    requires c.root.op == ReactiveSequence && c.root.status == NotFinished && |c.root.kids| == 2
    requires c.root.kids[0].status == Success && c.root.kids[0].id == 1 && c.root.kids[1] == Fresh(GUARDED).kids[1]
    ensures var r := Apply(a, c, Tick).root;
            && r.op == ReactiveSequence && r.status == Running && !r.halted && |r.kids| == 2
            && r.kids[0].status == NotStarted && r.kids[0].id == 1
  {
    ActionReports(a, c.root.kids[1], c.world);
    RunningChildResetsSiblings(a, c.root, c.world, 1);
    TickKeepsTree(a, c.root, c.world);
    var r := Apply(a, c, Tick).root;
    assert Skel(r).kids[0].id == r.kids[0].id && Skel(c.root).kids[0].id == c.root.kids[0].id;
  }
}
