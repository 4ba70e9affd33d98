/** The run loop of Runner::ExecuteProcedure, with breakpoints. */
module RunnerModel {
  import opened ExecutionStatus
  import opened Workspaces
  import opened Engine
  import opened Shape
  import opened Runs
  import opened Prediction
  import opened Breakpoints

  /** A runner between two iterations: the procedure, the breakpoints, the last reported hits. */
  datatype Machine = Machine(config: Config, bps: seq<Breakpoint>, current: seq<nat>)

  predicate MachineOk(m: Machine) {
    WellFormed(m.config.root)
  }

  /** Runner::IsFinished. */
  predicate IsFinishedRoot(n: Node) {
    IsFinished(n.status) || n.halted
  }

  /** Runner::ExecuteSingle. */
  function TickMachine(a: Actions, m: Machine): (r: Machine)
    requires MachineOk(m)
    ensures MachineOk(r)
  {
    ApplyWellFormed(a, m.config, Tick);
    m.(config := Apply(a, m.config, Tick), bps := Rearm(m.bps))
  }

  function Next(m: Machine): seq<nat>
    requires MachineOk(m)
  {
    GetNextInstructions(m.config.root)
  }

  /** The hit test of one iteration; it is skipped when nothing is next. */
  function TestBreakpoints(m: Machine): (r: Machine)
    requires MachineOk(m)
    ensures r.config == m.config
  {
    if Next(m) == [] then m
    else m.(bps := ReleaseAll(m.bps, Next(m)), current := Hits(m.bps, Next(m)))
  }

  predicate IsHit(m: Machine)
    requires MachineOk(m)
  {
    Next(m) != [] && Hits(m.bps, Next(m)) != []
  }

  /** Runner::ExecuteProcedure; another thread asks for a pause once `ticks` ticks were made. */
  function ExecuteProcedure(a: Actions, m: Machine, ticks: nat): (r: Machine)
    requires MachineOk(m)
    ensures MachineOk(r)
    decreases ticks
  {
    if IsFinishedRoot(m.config.root) || ticks == 0 then m
    else if IsHit(m) then TestBreakpoints(m)
    else ExecuteProcedure(a, Iterate(a, m), ticks - 1)
  }

  /** This iteration ticks. */
  predicate Proceeds(m: Machine, ticks: nat)
    requires MachineOk(m)
  {
    !IsFinishedRoot(m.config.root) && ticks > 0 && !IsHit(m)
  }

  /** The machine after an iteration that ticks. */
  function Iterate(a: Actions, m: Machine): (r: Machine)
    requires MachineOk(m)
    ensures MachineOk(r)
  {
    TickMachine(a, TestBreakpoints(m))
  }

  // ---------------------------------------------------------------- what a tick executes

  /** The nodes a tick executes, each as it is when its ExecuteSingle is called. */
  function ExecutedNodes(a: Actions, n: Node, w: World): seq<Node>
    requires WellFormed(n)
    decreases Size(n)
  {
    var p := Preamble(a, n, w);
    [n] + if NeedsExecute(p.node.status) && !n.halted then
            match NextCall(p.node, p.world)
            case None => []
            case Some(c) => ExecutedNodes(a, c.child, c.world)
          else []
  }

  function NodeIds(ns: seq<Node>): (r: seq<nat>)
    ensures |r| == |ns| && forall i :: 0 <= i < |ns| ==> r[i] == ns[i].id
  {
    seq(|ns|, i requires 0 <= i < |ns| => ns[i].id)
  }

  /** They are the nodes whose execution is observed, in that order. */
  lemma {:induction false} ExecutedNodesAreExecuted(a: Actions, n: Node, w: World)
    requires WellFormed(n)
    ensures NodeIds(ExecutedNodes(a, n, w)) == ExecutedIds(ExecuteSingle(a, n, w).log)
    decreases Size(n)
  {
    var p := Preamble(a, n, w);
    if NeedsExecute(p.node.status) && !n.halted {
      match NextCall(p.node, p.world)
      case None => if n.op.Action? { ActionExecutesItself(a, n, w); } else { AloneExecutesItself(a, n, w); }
      case Some(c) =>
        ExecutedNodesAreExecuted(a, c.child, c.world);
        CallExecutesChild(a, n, w, c);
    } else {
      NotesExecuteNothing(a, n, w, false, NotStarted);
      Surround(n.id, p.log, [], []);
      assert [Ticked(n.id)] + p.log + [] + [] == [Ticked(n.id)] + p.log;
    }
  }

  predicate Nonreactive(n: Node) {
    && !n.op.ReactiveSequence? && !n.op.ReactiveFallback?
    && forall i :: 0 <= i < |n.kids| ==> Nonreactive(n.kids[i])
  }

  predicate NonreactiveProg(p: Prog) {
    && !p.op.ReactiveSequence? && !p.op.ReactiveFallback?
    && forall i :: 0 <= i < |p.kids| ==> NonreactiveProg(p.kids[i])
  }

  lemma {:induction false} NonreactiveSkel(n: Node)
    ensures Nonreactive(n) == NonreactiveProg(Skel(n))
    decreases n
  {
    forall i | 0 <= i < |n.kids| ensures Nonreactive(n.kids[i]) == NonreactiveProg(Skel(n).kids[i]) {
      NonreactiveSkel(n.kids[i]);
    }
  }

  /** A Running node without reactive parts calls a Running child, if any. */
  lemma {:induction false} RunningCallsRunning(n: Node, w: World)
    requires WellFormed(n) && Shaped(n) && n.status == Running && Uncounted(n) && Nonreactive(n)
    ensures match NextCall(n, w)
            case None => true
            case Some(c) => c.child.status == Running && c.child == n.kids[c.k]
  {
    var ss := Statuses(n.kids);
    if n.op.Sequence? || n.op.Fallback? {
      VerdictAt(if n.op.Sequence? then Success else Failure, ss, Pick(ss));
    } else if n.op.Choice? && n.loc.picked != [] {
      var cs := Statuses(Chosen(n.kids, n.loc.picked));
      VerdictAt(Success, cs, Pick(cs));
    }
  }

  /** Under a Running root nothing that is ready gets executed. */
  lemma {:induction false} RunningPath(a: Actions, n: Node, w: World)
    requires WellFormed(n) && Shaped(n) && Live(n) && n.status == Running && Uncounted(n) && Nonreactive(n)
    ensures forall i :: 0 <= i < |ExecutedNodes(a, n, w)| ==> ExecutedNodes(a, n, w)[i].status == Running
    decreases n
  {
    RunningCallsRunning(n, w);
    match NextCall(n, w) {
      case None =>
      case Some(c) => RunningPath(a, c.child, c.world);
    }
  }

  // ---------------------------------------------------------------- breakpoint safety

  /** The procedures of the claim, in a state they can reach. */
  predicate Covered(m: Machine) {
    RootOk(m.config.root) && UncountedProg(Skel(m.config.root)) && NonreactiveProg(Skel(m.config.root))
  }

  /** None of these nodes is ready and has an armed breakpoint. */
  predicate Unstopped(ns: seq<Node>, bps: seq<Breakpoint>) {
    forall i :: 0 <= i < |ns| && ReadyForExecute(ns[i].status) ==> !Stops(bps, ns[i].id)
  }

  /** Whatever a tick from m executes while it is ready has no armed breakpoint. */
  predicate TickRespectsBreakpoints(a: Actions, m: Machine)
    requires MachineOk(m)
  {
    Unstopped(ExecutedNodes(a, m.config.root, m.config.world), m.bps)
  }

  lemma {:induction false} NoHitNoStop(a: Actions, m: Machine)
    requires Covered(m) && !IsFinishedRoot(m.config.root) && !IsHit(m)
    ensures TickRespectsBreakpoints(a, m)
  {
    var n, w := m.config.root, m.config.world;
    UncountedSkel(n);
    NonreactiveSkel(n);
    var executed := ExecutedNodes(a, n, w);
    forall i | 0 <= i < |executed| && ReadyForExecute(executed[i].status) ensures !Stops(m.bps, executed[i].id) {
      if n.status == Running {
        RunningPath(a, n, w);
      } else {
        TickFollowsPath(a, n, w);
        NextTreeIsLine(n);
        LineBreadth(Path(n));
        ExecutedNodesAreExecuted(a, n, w);
        assert NodeIds(executed)[i] == executed[i].id;
        assert executed[i].id in Next(m);
        HitsAreStops(m.bps, Next(m), executed[i].id);
      }
    }
  }

  lemma {:induction false} IterationKeepsCovered(a: Actions, m: Machine)
    requires Covered(m)
    ensures Covered(Iterate(a, m))
  {
    ApplyKeepsRootOk(a, m.config, Tick);
    TickKeepsTree(a, m.config.root, m.config.world);
  }

  /** Every tick ExecuteProcedure makes from m respects the breakpoints. */
  predicate RunRespectsBreakpoints(a: Actions, m: Machine, ticks: nat)
    requires MachineOk(m)
    decreases ticks
  {
    Proceeds(m, ticks) ==> TickRespectsBreakpoints(a, m) && RunRespectsBreakpoints(a, Iterate(a, m), ticks - 1)
  }

  /** Breakpoint safety: no tick that ExecuteProcedure makes executes a ready instruction whose
      breakpoint is armed. */
  lemma {:induction false} BreakpointsAreRespected(a: Actions, m: Machine, ticks: nat)
    requires Covered(m)
    ensures RunRespectsBreakpoints(a, m, ticks)
    decreases ticks
  {
    if Proceeds(m, ticks) {
      NoHitNoStop(a, m);
      IterationKeepsCovered(a, m);
      BreakpointsAreRespected(a, Iterate(a, m), ticks - 1);
    }
  }

  /** ExecuteProcedure stops at a breakpoint. */
  predicate StopsAtBreakpoint(a: Actions, m: Machine, ticks: nat)
    requires MachineOk(m)
    decreases ticks
  {
    if Proceeds(m, ticks) then StopsAtBreakpoint(a, Iterate(a, m), ticks - 1)
    else !IsFinishedRoot(m.config.root) && ticks > 0
  }

  predicate AllArmed(bps: seq<Breakpoint>) {
    forall i :: 0 <= i < |bps| ==> bps[i].status == Set
  }

  lemma {:induction false} NothingToRelease(bps: seq<Breakpoint>, next: seq<nat>)
    requires AllArmed(bps)
    ensures forall i :: 0 <= i < |bps| ==>
      (ReleaseAll(bps, next)[i].status == Released <==> bps[i].instruction in Hits(bps, next))
  {
    forall i | 0 <= i < |bps| ensures bps[i].instruction in next <==> bps[i].instruction in Hits(bps, next) {
      HitsAreStops(bps, next, bps[i].instruction);
      assert bps[i] == Breakpoint(bps[i].instruction, Set);
    }
  }

  lemma {:induction false} ProcedureStep(a: Actions, m: Machine, ticks: nat)
    requires MachineOk(m) && Proceeds(m, ticks)
    ensures ExecuteProcedure(a, m, ticks) == ExecuteProcedure(a, Iterate(a, m), ticks - 1)
    ensures StopsAtBreakpoint(a, m, ticks) == StopsAtBreakpoint(a, Iterate(a, m), ticks - 1)
  {
  }

  /** The breakpoints in r that are disarmed are those of the reported hits of a stop. */
  predicate DisarmedAreHits(r: Machine, stopped: bool) {
    forall i :: 0 <= i < |r.bps| ==> (r.bps[i].status == Released <==> stopped && r.bps[i].instruction in r.current)
  }

  /** Breakpoint progress: when ExecuteProcedure stops at a breakpoint, the hits it reports are
      instructions that come next, and calling it again ticks from that very state. */
  lemma {:induction false} SecondCallTicks(a: Actions, m: Machine, ticks: nat)
    requires MachineOk(m) && StopsAtBreakpoint(a, m, ticks)
    ensures var r := ExecuteProcedure(a, m, ticks);
            && r.current != [] && (forall x :: x in r.current ==> x in Next(r))
            && forall more: nat :: more > 0 ==> Proceeds(r, more)
    decreases ticks
  {
    if Proceeds(m, ticks) {
      SecondCallTicks(a, Iterate(a, m), ticks - 1);
    } else {
      var r := TestBreakpoints(m);
      ReleasedDoNotStop(m.bps, Next(m));
      forall x | x in r.current ensures x in Next(r) {
        HitsAreStops(m.bps, Next(m), x);
      }
    }
  }

  /** Started with all breakpoints armed, ExecuteProcedure leaves disarmed exactly the ones it
      stopped at, and none when it did not stop at a breakpoint. */
  lemma {:induction false} OnlyHitsAreReleased(a: Actions, m: Machine, ticks: nat)
    requires MachineOk(m) && AllArmed(m.bps)
    ensures DisarmedAreHits(ExecuteProcedure(a, m, ticks), StopsAtBreakpoint(a, m, ticks))
    decreases ticks
  {
    if Proceeds(m, ticks) {
      ProcedureStep(a, m, ticks);
      assert AllArmed(Iterate(a, m).bps);
      OnlyHitsAreReleased(a, Iterate(a, m), ticks - 1);
    } else {
      NothingToRelease(m.bps, Next(m));
    }
  }

  /** No iteration that ticked had anything next. */
  predicate NothingWasNext(a: Actions, m: Machine, ticks: nat)
    requires MachineOk(m)
    decreases ticks
  {
    Proceeds(m, ticks) ==> Next(m) == [] && NothingWasNext(a, Iterate(a, m), ticks - 1)
  }

  lemma {:induction false} HitsAfterTick(a: Actions, m: Machine, ticks: nat)
    requires MachineOk(m) && Proceeds(m, ticks)
    ensures Iterate(a, m).current == if Next(m) == [] then m.current else []
  {
  }

  /** An iteration that ticks leaves the question which hits are reported to the rest of the call. */
  lemma {:induction false} HitsStep(a: Actions, m: Machine, r: Machine, ticks: nat)
    requires MachineOk(m) && Proceeds(m, ticks) && r == Iterate(a, m)
    ensures ExecuteProcedure(a, m, ticks).current == ExecuteProcedure(a, r, ticks - 1).current
    ensures StopsAtBreakpoint(a, m, ticks) == StopsAtBreakpoint(a, r, ticks - 1)
    ensures m.current != [] && NothingWasNext(a, m, ticks) <==> r.current != [] && NothingWasNext(a, r, ticks - 1)
  {
    HitsAfterTick(a, m, ticks);
    ProcedureStep(a, m, ticks);
  }

  lemma {:induction false} HitsWithoutTick(a: Actions, m: Machine, ticks: nat)
    requires MachineOk(m) && !Proceeds(m, ticks)
    ensures ExecuteProcedure(a, m, ticks).current != [] <==> StopsAtBreakpoint(a, m, ticks) || m.current != []
  {
  }

  /** Which hits the runner reports after a call: those of a stop in this call, or, when no
      iteration had anything next, whatever an earlier call left behind. */
  lemma {:induction false} ReportedHits(a: Actions, m: Machine, ticks: nat)
    requires MachineOk(m)
    ensures ExecuteProcedure(a, m, ticks).current != [] <==>
      StopsAtBreakpoint(a, m, ticks) || (m.current != [] && NothingWasNext(a, m, ticks))
    decreases ticks
  {
    if Proceeds(m, ticks) {
      var r := Iterate(a, m);
      HitsStep(a, m, r, ticks);
      ReportedHits(a, r, ticks - 1);
    } else {
      HitsWithoutTick(a, m, ticks);
    }
  }

  // ---------------------------------------------------------------- how a call ends

  function Ticks(k: nat): (cmds: seq<Command>)
    ensures |cmds| == k && forall i :: 0 <= i < k ==> cmds[i] == Tick
  {
    seq(k, i => Tick)
  }

  /** The procedure after k ticks. */
  function AfterTicks(a: Actions, c: Config, k: nat): (d: Config)
    requires WellFormed(c.root)
    ensures WellFormed(d.root)
  {
    Run(a, c, Ticks(k))
  }

  lemma {:induction false} OneMoreTick(a: Actions, c: Config, k: nat)
    requires WellFormed(c.root)
    ensures WellFormed(Apply(a, c, Tick).root)
    ensures AfterTicks(a, c, k + 1) == AfterTicks(a, Apply(a, c, Tick), k)
  {
    ApplyWellFormed(a, c, Tick);
    assert Ticks(k + 1)[1..] == Ticks(k);
  }

  predicate Unfinished(c: Config) {
    c.root.status != Success && c.root.status != Failure && !c.root.halted
  }

  /** A call ticks as long as the procedure is neither finished nor halted, until it stops at a
      breakpoint or is paused: it leaves the procedure after some number of ticks, which is all it was
      given unless the procedure is finished or halted by then or a hit is reported. */
  lemma {:induction false} CallIsTicks(a: Actions, m: Machine, ticks: nat) returns (k: nat)
    requires MachineOk(m)
    ensures var r := ExecuteProcedure(a, m, ticks);
            && k <= ticks && r.config == AfterTicks(a, m.config, k)
            && (forall i :: 0 <= i < k ==> Unfinished(AfterTicks(a, m.config, i)))
            && (k < ticks ==> !Unfinished(r.config) || r.current != [])
    decreases ticks
  {
    if Proceeds(m, ticks) {
      var r := Iterate(a, m);
      k := CallIsTicks(a, r, ticks - 1);
      ProcedureStep(a, m, ticks);
      FirstTick(a, m.config, r.config, k);
      k := k + 1;
    } else {
      k := 0;
      NoTick(a, m.config);
      EndsWithoutTick(a, m, ticks);
    }
  }

  lemma {:induction false} NoTick(a: Actions, c: Config)
    requires WellFormed(c.root)
    ensures AfterTicks(a, c, 0) == c
  {
  }

  lemma {:induction false} EndsWithoutTick(a: Actions, m: Machine, ticks: nat)
    requires MachineOk(m) && !Proceeds(m, ticks)
    ensures var r := ExecuteProcedure(a, m, ticks);
            r.config == m.config && (0 < ticks ==> !Unfinished(r.config) || r.current != [])
  {
  }

  lemma {:induction false} FirstTick(a: Actions, c: Config, d: Config, k: nat)
    requires WellFormed(c.root) && d == Apply(a, c, Tick) && WellFormed(d.root) && Unfinished(c)
    requires forall i :: 0 <= i < k ==> Unfinished(AfterTicks(a, d, i))
    ensures AfterTicks(a, c, k + 1) == AfterTicks(a, d, k)
    ensures forall i :: 0 <= i < k + 1 ==> Unfinished(AfterTicks(a, c, i))
  {
    NoTick(a, c);
    OneMoreTick(a, c, k);
    forall i | 0 < i < k + 1 ensures Unfinished(AfterTicks(a, c, i)) {
      OneMoreTick(a, c, i - 1);
    }
  }
}
