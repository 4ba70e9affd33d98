/** The breakpoint hits a runner reports can be left over from an earlier call. When they can, and
    what an asynchronous runner publishes because of it. */
module StaleHits {
  import opened ExecutionStatus
  import opened Workspaces
  import opened Engine
  import opened Runs
  import opened Prediction
  import opened Breakpoints
  import opened RunnerModel
  import opened AsyncProgress
  import AR = AsyncRunner

  // ---------------------------------------------------------------- whose hits are reported

  /** The hits reported after a call are those of a stop in this very call. */
  predicate HitsAreOwn(a: Actions, m: Machine, ticks: nat)
    requires MachineOk(m)
  {
    ExecuteProcedure(a, m, ticks).current != [] <==> StopsAtBreakpoint(a, m, ticks)
  }

  /** What a caller can look at before the call: nothing is left over, or the call will test the
      breakpoints before anything else. */
  predicate Clean(m: Machine) {
    m.current == [] || (!m.config.root.halted && ReadyForExecute(m.config.root.status))
  }

  lemma {:induction false} ReadyNamesItself(n: Node)
    requires WellFormed(n) && ReadyForExecute(n.status)
    ensures GetNextInstructions(n) != []
  {
    NextTreeIsLine(n);
    LineBreadth(Path(n));
  }

  lemma {:induction false} CleanCallsAreOwn(a: Actions, m: Machine, ticks: nat)
    requires MachineOk(m) && ticks > 0 && Clean(m)
    ensures HitsAreOwn(a, m, ticks)
  {
    ReportedHits(a, m, ticks);
    if m.current != [] {
      ReadyNamesItself(m.config.root);
    }
  }

  /** A call that ends before its second tick reports what was left over. */
  lemma {:induction false} UncleanCallIsStale(a: Actions, m: Machine)
    requires MachineOk(m) && !Clean(m)
    ensures !HitsAreOwn(a, m, 1)
  {
    if Proceeds(m, 1) {
      ProcedureStep(a, m, 1);
      HitsAfterTick(a, m, 1);
    }
  }

  /** Exactly in the clean states every call reports its own hits, however many ticks it makes before
      another thread pauses it. */
  lemma {:induction false} HitsAreOwnExactlyWhenClean(a: Actions, m: Machine)
    requires MachineOk(m)
    ensures Clean(m) <==> forall ticks: nat :: ticks > 0 ==> HitsAreOwn(a, m, ticks)
  {
    if Clean(m) {
      forall ticks: nat | ticks > 0 ensures HitsAreOwn(a, m, ticks) {
        CleanCallsAreOwn(a, m, ticks);
      }
    } else {
      UncleanCallIsStale(a, m);
    }
  }

  /** A call that makes no tick and tests nothing reports whatever was left over. */
  lemma {:induction false} IdleCallIsStale(a: Actions, m: Machine, ticks: nat)
    requires MachineOk(m) && (IsFinishedRoot(m.config.root) || ticks == 0)
    ensures ExecuteProcedure(a, m, ticks).current == m.current && !StopsAtBreakpoint(a, m, ticks)
    ensures HitsAreOwn(a, m, ticks) <==> m.current == []
  {
  }

  // ---------------------------------------------------------------- what is published

  /** The run is over within this many ticks without any command. */
  predicate EndsAlone(a: Actions, m: Machine, ticks: nat)
    requires MachineOk(m)
    decreases ticks
  {
    if Proceeds(m, ticks) then EndsAlone(a, Iterate(a, m), ticks - 1) else ticks > 0 || IsFinishedRoot(m.config.root)
  }

  /** What RunProcedure publishes when no command arrives: a verdict in the callback of the tick that
      finishes the root, and Paused when the runner reports hits at the end. */
  function RunPublishes(a: Actions, m: Machine, ticks: nat): seq<AR.JobState>
    requires MachineOk(m) && EndsAlone(a, m, ticks)
    decreases ticks
  {
    if Proceeds(m, ticks) then
      var r := Iterate(a, m);
      (if IsFinished(r.config.root.status) then [VerdictOf(r.config.root.status)] else [])
      + RunPublishes(a, r, ticks - 1)
    else if ExecuteProcedure(a, m, ticks).current != [] then [AR.Paused]
    else []
  }

  /** StepProcedure: one tick, then a verdict or Paused. */
  function StepPublishes(a: Actions, m: Machine): seq<AR.JobState>
    requires MachineOk(m)
  {
    [VerdictOf(TickMachine(a, m).config.root.status)]
  }

  /** A step publishes one state: the verdict of its tick, or Paused; left-over hits do not matter to it. */
  lemma {:induction false} PublishedByStep(a: Actions, m: Machine)
    requires MachineOk(m)
    ensures var s := ExecuteSingle(a, m.config.root, m.config.world).node.status;
            && (s == Success ==> StepPublishes(a, m) == [AR.Succeeded])
            && (s == Failure ==> StepPublishes(a, m) == [AR.Failed])
            && (s != Success && s != Failure ==> StepPublishes(a, m) == [AR.Paused])
  {
  }

  /** A run that ends alone publishes its verdict, if it has one, and then Paused exactly when the
      runner reports hits. */
  lemma {:induction false} PublishedByRun(a: Actions, m: Machine, ticks: nat)
    requires MachineOk(m) && NeedsExecute(m.config.root.status) && EndsAlone(a, m, ticks)
    ensures var r := ExecuteProcedure(a, m, ticks);
            RunPublishes(a, m, ticks) ==
              (if IsFinished(r.config.root.status) then [VerdictOf(r.config.root.status)] else [])
              + (if r.current != [] then [AR.Paused] else [])
    decreases ticks
  {
    if Proceeds(m, ticks) {
      var r := Iterate(a, m);
      ProcedureStep(a, m, ticks);
      PublishStep(a, m, ticks);
      if NeedsExecute(r.config.root.status) {
        PublishedByRun(a, r, ticks - 1);
      } else {
        PublishedWhenOver(a, r, ticks - 1);
      }
    }
  }

  lemma {:induction false} PublishStep(a: Actions, m: Machine, ticks: nat)
    requires MachineOk(m) && EndsAlone(a, m, ticks) && Proceeds(m, ticks)
    ensures var r := Iterate(a, m);
            && EndsAlone(a, r, ticks - 1)
            && RunPublishes(a, m, ticks) ==
                (if IsFinished(r.config.root.status) then [VerdictOf(r.config.root.status)] else [])
                + RunPublishes(a, r, ticks - 1)
  {
  }

  lemma {:induction false} PublishedWhenOver(a: Actions, m: Machine, ticks: nat)
    requires MachineOk(m) && IsFinished(m.config.root.status)
    ensures EndsAlone(a, m, ticks) && ExecuteProcedure(a, m, ticks) == m
    ensures RunPublishes(a, m, ticks) == if m.current != [] then [AR.Paused] else []
  {
    assert !Proceeds(m, ticks);
  }

  /** Paused is published after a verdict exactly when a run finishes the root, hits were left over,
      and no iteration had anything next. */
  lemma {:induction false} PausedAfterVerdict(a: Actions, m: Machine, ticks: nat)
    requires MachineOk(m) && NeedsExecute(m.config.root.status) && EndsAlone(a, m, ticks)
    ensures var r := ExecuteProcedure(a, m, ticks);
            |RunPublishes(a, m, ticks)| == 2 <==>
              IsFinished(r.config.root.status) && m.current != [] && NothingWasNext(a, m, ticks)
    ensures |RunPublishes(a, m, ticks)| == 2 ==> RunPublishes(a, m, ticks)[1] == AR.Paused && !Clean(m)
  {
    PublishedByRun(a, m, ticks);
    ReportedHits(a, m, ticks);
    StopLeavesUnfinished(a, m, ticks);
    if Clean(m) && m.current != [] {
      ReadyNamesItself(m.config.root);
    }
  }

  lemma {:induction false} StopLeavesUnfinished(a: Actions, m: Machine, ticks: nat)
    requires MachineOk(m)
    ensures StopsAtBreakpoint(a, m, ticks) ==> NeedsExecute(ExecuteProcedure(a, m, ticks).config.root.status)
    decreases ticks
  {
    if Proceeds(m, ticks) {
      StopLeavesUnfinished(a, Iterate(a, m), ticks - 1);
    }
  }

  // ---------------------------------------------------------------- the smallest case

  /** One action that stays Running when it is executed for the first time, and then succeeds. */
  const WAITING: Prog := Prog(0, Action(0), [])

  ghost predicate SecondTickSucceeds(a: Actions) {
    && (forall u :: a.init(0, u).ok)
    && (forall mem, u :: a.exec(0, mem, u).status == if u.calls == [] then Running else Success)
  }

  /** A start that stops at the action's breakpoint, a step, and another start that finishes. */
  lemma {:induction false} LeftOverHit(a: Actions, w: World, ticks: nat)
    returns (stopped: Machine, stepped: Machine, done: Machine)
    requires SecondTickSucceeds(a) && w.calls == [] && ticks > 1
    ensures ProgOk(WAITING) && WellFormed(Fresh(WAITING))
    ensures stopped == ExecuteProcedure(a, Machine(Started(WAITING, w), [Breakpoint(0, Set)], []), ticks)
    ensures MachineOk(stopped) && stopped.current == [0] && stopped.config.root.status == NotStarted
    ensures stepped == TickMachine(a, stopped) && MachineOk(stepped)
    ensures StepPublishes(a, stopped) == [AR.Paused]
    ensures EndsAlone(a, stepped, ticks)
    ensures done == ExecuteProcedure(a, stepped, ticks) && MachineOk(done)
    ensures done.config.root.status == Success && done.current == [0] && !StopsAtBreakpoint(a, stepped, ticks)
    ensures RunPublishes(a, stepped, ticks) == [AR.Succeeded, AR.Paused]
  {
    FreshStart(WAITING);
    var m := Machine(Started(WAITING, w), [Breakpoint(0, Set)], []);
    StopsAtOnce(m);
    stopped := ExecuteProcedure(a, m, ticks);
    assert stopped == TestBreakpoints(m);
    stepped := TickMachine(a, stopped);
    FirstTick(a, stopped.config.root, w);
    done := SecondStart(a, stepped, ticks);
  }

  lemma {:induction false} SecondStart(a: Actions, m: Machine, ticks: nat) returns (done: Machine)
    requires SecondTickSucceeds(a) && ticks > 1 && MachineOk(m) && m.current == [0] && m.config.world.calls != []
    requires m.config.root.op == Action(0) && m.config.root.status == Running && !m.config.root.halted
    ensures EndsAlone(a, m, ticks)
    ensures done == ExecuteProcedure(a, m, ticks) && MachineOk(done)
    ensures done.config.root.status == Success && done.current == [0] && !StopsAtBreakpoint(a, m, ticks)
    ensures RunPublishes(a, m, ticks) == [AR.Succeeded, AR.Paused]
  {
    done := Iterate(a, m);
    SecondTick(a, m.config.root, m.config.world);
    assert Next(m) == [] && Proceeds(m, ticks);
    assert !Proceeds(done, ticks - 1);
  }

  lemma {:induction false} StopsAtOnce(m: Machine)
    requires MachineOk(m) && m.bps == [Breakpoint(0, Set)] && m.config.root == Fresh(WAITING)
    ensures Next(m) == [0] && Hits(m.bps, Next(m)) == [0]
  {
    var n := m.config.root;
    NextTreeIsLine(n);
    assert Path(n) == [0];
    LineBreadth(Path(n));
    assert Hits(m.bps[1..], Next(m)) == [];
  }

  lemma {:induction false} FirstTick(a: Actions, n: Node, w: World)
    requires SecondTickSucceeds(a) && w.calls == [] && n == Fresh(WAITING) && WellFormed(n)
    ensures var s := ExecuteSingle(a, n, w);
            s.node.op == Action(0) && s.node.status == Running && !s.node.halted && s.world.calls != []
  {
  }

  lemma {:induction false} SecondTick(a: Actions, n: Node, w: World)
    requires SecondTickSucceeds(a) && w.calls != [] && WellFormed(n)
    requires n.op == Action(0) && n.status == Running && !n.halted
    ensures ExecuteSingle(a, n, w).node.status == Success
  {
  }
}
