/** How far GetNextInstructions can be trusted: exactly which states it predicts correctly, for all
    kinds of instructions. */
module PredictionLimits {
  import opened ExecutionStatus
  import opened Workspaces
  import opened Engine
  import opened Shape
  import opened Runs
  import opened Mirror
  import opened Prediction
  import opened Counting
  import opened Breakpoints
  import opened RunnerModel

  /** The child a tick of n executes, when initialisation succeeds. */
  function CallOf(a: Actions, n: Node, w: World): Option<Call>
    requires WellFormed(n)
  {
    var p := Preamble(a, n, w);
    if NeedsExecute(p.node.status) then NextCall(p.node, p.world) else None
  }

  /** Whether a tick of n starts the next run of a child that already succeeded. */
  predicate StartsOver(n: Node)
    requires WellFormed(n)
  {
    IsCounting(n.op) && n.kids[0].status == Success
  }

  /** Along the instructions that execute, each Repeat or For passes its own checks, and one that
      starts its child over finds the child announcing the same line before its reset as after. */
  predicate Foretold(a: Actions, n: Node, w: World)
    requires WellFormed(n)
    decreases Size(n)
  {
    match CallOf(a, n, w)
    case None => !IsCounting(n.op)
    case Some(c) =>
      && Foretold(a, c.child, c.world)
      && (StartsOver(n) ==> Path(c.child) == Path(n.kids[0]))
  }

  // ---------------------------------------------------------------- where lines of ids end

  /** id belongs to a decorator in p. */
  ghost predicate Wraps(p: Prog, id: nat) {
    (IsDecorator(p.op) && p.id == id) || exists i :: 0 <= i < |p.kids| && Wraps(p.kids[i], id)
  }

  /** id belongs to an instruction in p that is not a decorator. */
  ghost predicate Plain(p: Prog, id: nat) {
    (!IsDecorator(p.op) && p.id == id) || exists i :: 0 <= i < |p.kids| && Plain(p.kids[i], id)
  }

  /** No decorator shares its identity with another kind of instruction. */
  ghost predicate Unambiguous(p: Prog) {
    forall id :: Wraps(p, id) ==> !Plain(p, id)
  }

  lemma {:induction false} KindsInside(n: Node, id: nat)
    ensures Wraps(Skel(n), id) || Plain(Skel(n), id) ==> id in Ids(n)
    decreases n
  {
    forall i | 0 <= i < |n.kids|
      ensures Wraps(Skel(n).kids[i], id) || Plain(Skel(n).kids[i], id) ==> id in Ids(n.kids[i])
    {
      KindsInside(n.kids[i], id);
    }
  }

  lemma {:induction false} DistinctIsUnambiguous(n: Node)
    requires Distinct(n)
    ensures Unambiguous(Skel(n))
    decreases n
  {
    var p := Skel(n);
    forall id | Wraps(p, id) ensures !Plain(p, id) {
      forall i | 0 <= i < |n.kids| ensures Wraps(p.kids[i], id) ==> !Plain(p.kids[i], id) {
        DistinctIsUnambiguous(n.kids[i]);
      }
      forall i | 0 <= i < |n.kids| ensures Wraps(p.kids[i], id) || Plain(p.kids[i], id) ==> id in Ids(n.kids[i]) {
        KindsInside(n.kids[i], id);
      }
    }
  }

  lemma {:induction false} KidIsUnambiguous(p: Prog, i: nat)
    requires Unambiguous(p) && i < |p.kids|
    ensures Unambiguous(p.kids[i])
  {
    forall id | Wraps(p.kids[i], id) ensures !Plain(p.kids[i], id) {
      assert Wraps(p, id);
    }
  }

  /** A predicted line goes all the way through decorators. */
  lemma {:induction false} PathEndsPlain(n: Node)
    requires WellFormed(n)
    ensures Path(n) != [] && Plain(Skel(n), Path(n)[|Path(n)| - 1])
    decreases n
  {
    var next := NextInstructions(n);
    if next == [] {
      assert Path(n) == [n.id];
    } else {
      PathEndsPlain(next[0]);
      PlainBelow(n, next[0], Path(next[0])[|Path(next[0])| - 1]);
      assert Path(n) == [n.id] + Path(next[0]);
    }
  }

  lemma {:induction false} PlainBelow(n: Node, kid: Node, id: nat)
    requires kid in n.kids && Plain(Skel(kid), id)
    ensures Plain(Skel(n), id)
  {
    var i :| 0 <= i < |n.kids| && n.kids[i] == kid;
    assert Skel(n).kids[i] == Skel(kid);
  }

  function Executed(a: Actions, n: Node, w: World): seq<nat>
    requires WellFormed(n)
  {
    ExecutedIds(ExecuteSingle(a, n, w).log)
  }

  /** A tick executes the node, then what its child executes. */
  lemma {:induction false} ExecutedStep(a: Actions, n: Node, w: World)
    requires WellFormed(n) && !n.halted
    ensures Executed(a, n, w) ==
      match CallOf(a, n, w)
      case None => [n.id]
      case Some(c) => [n.id] + Executed(a, c.child, c.world)
  {
    var p := Preamble(a, n, w);
    if !NeedsExecute(p.node.status) {
      NotesExecuteNothing(a, n, w, false, NotStarted);
      Surround(n.id, p.log, [], []);
      assert [Ticked(n.id)] + p.log + [] + [] == [Ticked(n.id)] + p.log;
    } else if n.op.Action? {
      ActionExecutesItself(a, n, w);
    } else if NextCall(p.node, p.world).None? {
      AloneExecutesItself(a, n, w);
    } else {
      CallExecutesChild(a, n, w, NextCall(p.node, p.world).value);
    }
  }

  /** A first run that is not foretold stops at a decorator. */
  lemma {:induction false} FreshEndsAtDecorator(a: Actions, n: Node, w: World)
    requires WellFormed(n) && AllFresh(n) && Live(n) && !Foretold(a, n, w)
    ensures var e := Executed(a, n, w);
            e != [] && Wraps(Skel(n), e[|e| - 1])
    decreases Size(n)
  {
    ExecutedStep(a, n, w);
    FreshKids(n);
    match CallOf(a, n, w)
    case None =>
    case Some(c) =>
      assert c.child == n.kids[c.k];
      FreshEndsAtDecorator(a, c.child, c.world);
      assert Skel(n).kids[c.k] == Skel(c.child);
  }

  /** When a child is started over, what it executes is what it announced only if foretold. */
  lemma {:induction false} StartedOver(a: Actions, kid: Node, w: World)
    requires WellFormed(kid) && Unambiguous(Skel(kid))
    requires WellFormed(Reset(kid)) && !Foretold(a, Reset(kid), w)
    ensures Executed(a, Reset(kid), w) != Path(kid)
  {
    ResetIsFresh(kid);
    ResetSkel(kid);
    FreshEndsAtDecorator(a, Reset(kid), w);
    PathEndsPlain(kid);
  }

  // ---------------------------------------------------------------- the exact limits

  lemma {:induction false} CountingChild(a: Actions, n: Node, w: World, c: Call)
    requires WellFormed(n) && Shaped(n) && Live(n) && ReadyForExecute(n.status) && IsCounting(n.op)
    requires CallOf(a, n, w) == Some(c)
    ensures c.k == 0 && WellFormed(c.child) && Shaped(c.child) && Live(c.child) && ReadyForExecute(c.child.status)
    ensures c.child == if StartsOver(n) then Reset(n.kids[0]) else n.kids[0]
  {
    var p := Preamble(a, n, w);
    CalledChild(p.node, p.world);
    if n.status == NotStarted {
      FreshKids(n);
    }
  }

  /** A tick executes the predicted line exactly when the line is foretold. */
  lemma {:induction false} TickFollowsForetold(a: Actions, n: Node, w: World)
    requires WellFormed(n) && Shaped(n) && Live(n) && ReadyForExecute(n.status) && Unambiguous(Skel(n))
    ensures Executed(a, n, w) == Path(n) <==> Foretold(a, n, w)
    decreases Size(n)
  {
    ExecutedStep(a, n, w);
    if IsCounting(n.op) {
      CountingFollowsForetold(a, n, w);
    } else {
      NextIsCalled(a, n, w);
      match CallOf(a, n, w) {
        case None =>
        case Some(c) =>
          KidIsUnambiguous(Skel(n), c.k);
          TickFollowsForetold(a, c.child, c.world);
          SameTail(n.id, Executed(a, c.child, c.world), Path(c.child));
      }
    }
  }

  lemma {:induction false} SameTail(id: nat, l: seq<nat>, m: seq<nat>)
    ensures [id] + l == [id] + m <==> l == m
  {
    assert ([id] + l)[1..] == l && ([id] + m)[1..] == m;
  }

  lemma {:induction false} CountingFollowsForetold(a: Actions, n: Node, w: World)
    requires WellFormed(n) && Shaped(n) && Live(n) && ReadyForExecute(n.status) && Unambiguous(Skel(n))
    requires IsCounting(n.op)
    ensures Executed(a, n, w) == Path(n) <==> Foretold(a, n, w)
    decreases Size(n), 0
  {
    ExecutedStep(a, n, w);
    PathEndsPlain(n.kids[0]);
    assert Path(n) == [n.id] + Path(n.kids[0]);
    match CallOf(a, n, w)
    case None =>
    case Some(c) =>
      CountingChild(a, n, w, c);
      KidIsUnambiguous(Skel(n), 0);
      ResetSkel(n.kids[0]);
      TickFollowsForetold(a, c.child, c.world);
      SameTail(n.id, Executed(a, c.child, c.world), Path(n.kids[0]));
      if StartsOver(n) && !Foretold(a, c.child, c.world) {
        StartedOver(a, n.kids[0], c.world);
      }
  }

  /** The exact limits of the prediction: in a reachable state that is not halted and not finished,
      GetNextInstructions lists what the next tick executes if and only if the root is not Running
      and its line is foretold. */
  lemma {:induction false} PredictionLimits(a: Actions, p: Prog, w: World, cmds: seq<Command>)
    requires ProgOk(p) && Distinct(Fresh(p))
    requires var r := RunFrom(a, p, w, cmds).root; !r.halted && NeedsExecute(r.status)
    ensures var c := RunFrom(a, p, w, cmds);
            GetNextInstructions(c.root) == Executed(a, c.root, c.world)
            <==> c.root.status != Running && Foretold(a, c.root, c.world)
  {
    var c := RunFrom(a, p, w, cmds);
    ReachableRootOk(a, p, w, cmds);
    ReachableSkel(a, p, w, cmds);
    FreshSkel(p);
    DistinctIsUnambiguous(Fresh(p));
    if c.root.status == Running {
      ExecutedStep(a, c.root, c.world);
    } else {
      TickFollowsForetold(a, c.root, c.world);
      NextTreeIsLine(c.root);
      LineBreadth(Path(c.root));
    }
  }

  /** Without Repeat and For every line is foretold. */
  lemma {:induction false} UncountedIsForetold(a: Actions, n: Node, w: World)
    requires WellFormed(n) && Uncounted(n)
    ensures Foretold(a, n, w)
    decreases Size(n)
  {
    match CallOf(a, n, w)
    case None =>
    case Some(c) => UncountedIsForetold(a, c.child, c.world);
  }

  /** So a tick whose line is foretold respects all breakpoints, whatever the tree is made of. */
  lemma {:induction false} ForetoldTickRespectsBreakpoints(a: Actions, m: Machine)
    requires RootOk(m.config.root) && Distinct(m.config.root) && !IsFinishedRoot(m.config.root) && !IsHit(m)
    requires m.config.root.status != Running && Foretold(a, m.config.root, m.config.world)
    ensures TickRespectsBreakpoints(a, m)
  {
    var n, w := m.config.root, m.config.world;
    DistinctIsUnambiguous(n);
    TickFollowsForetold(a, n, w);
    NextTreeIsLine(n);
    LineBreadth(Path(n));
    ExecutedNodesAreExecuted(a, n, w);
    var executed := ExecutedNodes(a, n, w);
    forall i | 0 <= i < |executed| && ReadyForExecute(executed[i].status) ensures !Stops(m.bps, executed[i].id) {
      assert NodeIds(executed)[i] == executed[i].id;
      assert executed[i].id in Next(m);
      HitsAreStops(m.bps, Next(m), executed[i].id);
    }
  }

  // ---------------------------------------------------------------- starting a child over

  predicate IsCompound(op: Op) {
    !op.Action? && !IsDecorator(op)
  }

  /** CalculateCompoundStatus of the node itself. */
  function OwnVerdict(n: Node): Status
    requires WellFormed(n)
  {
    match n.op
    case Fallback => Verdict(Failure, Statuses(n.kids))
    case ReactiveFallback => Verdict(Failure, Statuses(n.kids))
    case Choice(_) => Verdict(Success, Statuses(Chosen(n.kids, n.loc.picked)))
    case _ => Verdict(Success, Statuses(n.kids))
  }

  /** The children of every finished compound have decided it. */
  predicate Closed(n: Node)
    requires WellFormed(n)
  {
    && (IsFinished(n.status) && IsCompound(n.op) ==> OwnVerdict(n) != NotFinished)
    && forall i :: 0 <= i < |n.kids| ==> Closed(n.kids[i])
  }

  lemma {:induction false} VerdictCloses(pass: Status, kids: seq<Node>)
    requires IsFinished(pass)
    ensures NextOf(pass, kids) == [] <==> Verdict(pass, Statuses(kids)) != NotFinished
  {
    if kids != [] {
      VerdictCloses(pass, kids[1..]);
      assert Statuses(kids)[1..] == Statuses(kids[1..]);
    }
  }

  lemma {:induction false} DecidedNamesNothing(n: Node)
    requires WellFormed(n) && IsCompound(n.op)
    ensures NextInstructions(n) == [] <==> OwnVerdict(n) != NotFinished
  {
    VerdictCloses(Success, n.kids);
    VerdictCloses(Failure, n.kids);
    VerdictCloses(Success, Chosen(n.kids, n.loc.picked));
  }

  lemma {:induction false} FreshIsClosed(n: Node)
    requires WellFormed(n) && AllFresh(n)
    ensures Closed(n)
    decreases n
  {
    FreshKids(n);
    forall i | 0 <= i < |n.kids| ensures Closed(n.kids[i]) {
      FreshIsClosed(n.kids[i]);
    }
  }

  lemma {:induction false} ResetIsClosed(n: Node)
    requires WellFormed(n)
    ensures WellFormed(Reset(n)) && Closed(Reset(n))
  {
    ResetWellFormed(n);
    ResetIsFresh(n);
    FreshIsClosed(Reset(n));
  }

  lemma {:induction false} HaltIsClosed(n: Node)
    requires WellFormed(n) && Closed(n)
    ensures WellFormed(Halt(n)) && Closed(Halt(n))
    decreases n
  {
    HaltWellFormed(n);
    forall i | 0 <= i < |n.kids| ensures Closed(Halt(n).kids[i]) {
      HaltIsClosed(n.kids[i]);
    }
    assert Statuses(Halt(n).kids) == Statuses(n.kids);
    assert Statuses(Chosen(Halt(n).kids, n.loc.picked)) == Statuses(Chosen(n.kids, n.loc.picked));
  }

  /** Executing a child reports the verdict of the children, or Running. */
  lemma {:induction false} ConcludeDecides(n: Node, c: Call, s: Step)
    requires WellFormed(n) && c.k < |n.kids| && IsCompound(n.op) && WellFormed(After(n, Conclude(n, c, s)))
    ensures var r := After(n, Conclude(n, c, s)); IsFinished(r.status) ==> r.status == OwnVerdict(r)
  {
  }

  lemma {:induction false} ResetAllAreClosed(kids: seq<Node>)
    requires forall i :: 0 <= i < |kids| ==> WellFormed(kids[i])
    ensures forall i :: 0 <= i < |kids| ==> WellFormed(ResetAll(kids)[i]) && Closed(ResetAll(kids)[i])
  {
    forall i | 0 <= i < |kids| ensures WellFormed(ResetAll(kids)[i]) && Closed(ResetAll(kids)[i]) {
      ResetIsClosed(kids[i]);
    }
  }

  lemma {:induction false} ConcludeCloses(n: Node, c: Call, s: Step)
    requires WellFormed(n) && c.k < |n.kids| && !n.op.Action? && WellFormed(After(n, Conclude(n, c, s)))
    requires forall i :: 0 <= i < |n.kids| ==> Closed(n.kids[i])
    requires WellFormed(s.node) && Closed(s.node)
    ensures Closed(After(n, Conclude(n, c, s)))
  {
    ConcludeLog(n, c, s);
    ResetAllAreClosed(n.kids[c.k := s.node]);
    if IsCompound(n.op) {
      ConcludeDecides(n, c, s);
    }
  }

  lemma {:induction false} AloneCloses(a: Actions, n: Node, w: World)
    requires WellFormed(n) && NextCall(n, w).None? && WellFormed(After(n, Alone(a, n, w)))
    requires forall i :: 0 <= i < |n.kids| ==> Closed(n.kids[i])
    ensures Closed(After(n, Alone(a, n, w)))
  {
  }

  lemma {:induction false} TickIsClosed(a: Actions, n: Node, w: World)
    requires WellFormed(n) && Closed(n)
    ensures var r := ExecuteSingle(a, n, w).node; WellFormed(r) && Closed(r)
    decreases Size(n)
  {
    TickKeepsTree(a, n, w);
    var p := Preamble(a, n, w);
    if NeedsExecute(p.node.status) && !n.halted {
      match NextCall(p.node, p.world) {
        case None => AloneCloses(a, p.node, p.world);
        case Some(c) =>
          ResetIsClosed(n.kids[c.k]);
          TickIsClosed(a, c.child, c.world);
          ConcludeCloses(p.node, c, ExecuteSingle(a, c.child, c.world));
      }
    }
  }

  lemma {:induction false} RunIsClosed(a: Actions, c: Config, cmds: seq<Command>)
    requires WellFormed(c.root) && Closed(c.root)
    ensures Closed(Run(a, c, cmds).root)
    decreases |cmds|
  {
    if cmds != [] {
      ApplyWellFormed(a, c, cmds[0]);
      match cmds[0] {
        case Tick => TickIsClosed(a, c.root, c.world);
        case ResetTree => ResetIsClosed(c.root);
        case HaltTree => HaltIsClosed(c.root);
        case Write(_, _) =>
      }
      RunIsClosed(a, Apply(a, c, cmds[0]), cmds[1..]);
    }
  }

  lemma {:induction false} ClosedInside(x: Node, n: Node)
    requires WellFormed(n) && Closed(n) && InTree(x, n)
    ensures WellFormed(x) && Closed(x)
    decreases n
  {
    if x != n {
      var i :| 0 <= i < |n.kids| && InTree(x, n.kids[i]);
      ClosedInside(x, n.kids[i]);
    }
  }

  /** The line a finished instruction announces survives its reset for actions and Choices, and for
      no other instruction that is not a decorator. */
  lemma {:induction false} FinishedLine(n: Node)
    requires WellFormed(n) && Closed(n) && IsFinished(n.status) && !IsDecorator(n.op)
    ensures WellFormed(Reset(n))
    ensures Path(Reset(n)) == Path(n) <==> n.op.Action? || n.op.Choice?
  {
    ResetWellFormed(n);
    ResetIsFresh(n);
    if IsCompound(n.op) {
      DecidedNamesNothing(n);
      assert Path(n) == [n.id];
      FreshKids(Reset(n));
      assert NextInstructions(Reset(n)) != [] <==> !n.op.Choice?;
    }
  }

  /** What the decorators from n on are wrapped around. */
  function Core(n: Node): (r: Node)
    requires WellFormed(n)
    ensures WellFormed(r) && !IsDecorator(r.op)
    decreases n
  {
    if IsDecorator(n.op) then Core(n.kids[0]) else n
  }

  lemma {:induction false} CoreIsClosed(n: Node)
    requires WellFormed(n) && Closed(n)
    ensures Closed(Core(n))
    decreases n
  {
    if IsDecorator(n.op) {
      CoreIsClosed(n.kids[0]);
    }
  }

  /** A line before the first tick follows the first children. */
  lemma {:induction false} FreshNext(n: Node)
    requires WellFormed(n) && AllFresh(n)
    ensures Path(n) == [n.id] + if n.op.Action? || n.op.Choice? then [] else Path(n.kids[0])
  {
    FreshKids(n);
  }

  lemma {:induction false} FreshLine(n: Node)
    requires WellFormed(n) && AllFresh(n)
    ensures WellFormed(Reset(n)) && Path(Reset(n)) == Path(n)
    decreases n
  {
    ResetWellFormed(n);
    ResetIsFresh(n);
    FreshNext(n);
    FreshNext(Reset(n));
    if !n.op.Action? && !n.op.Choice? {
      FreshLine(n.kids[0]);
      assert Reset(n).kids[0] == Reset(n.kids[0]);
    }
  }

  lemma {:induction false} DecoratorLine(n: Node)
    requires WellFormed(n) && IsDecorator(n.op)
    ensures Path(n) == [n.id] + Path(n.kids[0])
  {
    assert NextInstructions(n) == n.kids;
  }

  /** A line survives a reset exactly if its part inside the decorators does. */
  lemma {:induction false} CoreLine(n: Node)
    requires WellFormed(n)
    ensures WellFormed(Reset(n)) && WellFormed(Reset(Core(n)))
    ensures Path(Reset(n)) == Path(n) <==> Path(Reset(Core(n))) == Path(Core(n))
    decreases n
  {
    ResetWellFormed(n);
    if IsDecorator(n.op) {
      DecoratorLine(n);
      DecoratorLine(Reset(n));
      ResetWellFormed(n.kids[0]);
      assert Reset(n).kids[0] == Reset(n.kids[0]);
      CoreLine(n.kids[0]);
      SameTail(n.id, Path(Reset(n.kids[0])), Path(n.kids[0]));
    }
  }

  /** Which lines survive a reset, whatever decorators are nested in them: those of actions, of
      instructions that never started, and of finished Choices, but of no other finished compound. */
  lemma {:induction false} LineSurvivesReset(n: Node)
    requires WellFormed(n) && Closed(n)
    ensures WellFormed(Reset(n))
    ensures Core(n).op.Action? || AllFresh(Core(n)) ==> Path(Reset(n)) == Path(n)
    ensures IsFinished(Core(n).status) ==>
      (Path(Reset(n)) == Path(n) <==> Core(n).op.Action? || Core(n).op.Choice?)
  {
    CoreLine(n);
    CoreIsClosed(n);
    if IsFinished(Core(n).status) {
      FinishedLine(Core(n));
    }
    if AllFresh(Core(n)) {
      FreshLine(Core(n));
    }
  }

  lemma {:induction false} RestartedCall(a: Actions, n: Node, w: World)
    requires WellFormed(n) && StartsOver(n) && CallOf(a, n, w).Some?
    ensures CallOf(a, n, w).value.child == Reset(n.kids[0])
  {
  }

  lemma {:induction false} RestartedLine(a: Actions, n: Node, w: World)
    requires WellFormed(n) && StartsOver(n)
    ensures WellFormed(Reset(n.kids[0]))
    ensures Foretold(a, n, w) <==>
      && CallOf(a, n, w).Some? && Foretold(a, Reset(n.kids[0]), CallOf(a, n, w).value.world)
      && Path(Reset(n.kids[0])) == Path(n.kids[0])
  {
    ResetWellFormed(n.kids[0]);
    if CallOf(a, n, w).Some? {
      RestartedCall(a, n, w);
    }
  }

  /** A Repeat or For that starts over a child whose innermost instruction is finished is predicted
      rightly exactly if that is an action or a Choice, and it and the decorators in between pass
      their own checks. */
  lemma {:induction false} DecoratedStartOver(a: Actions, n: Node, w: World)
    requires WellFormed(n) && Closed(n) && StartsOver(n) && IsFinished(Core(n.kids[0]).status)
    ensures WellFormed(Reset(n.kids[0]))
    ensures Foretold(a, n, w) <==>
      && CallOf(a, n, w).Some? && Foretold(a, Reset(n.kids[0]), CallOf(a, n, w).value.world)
      && (Core(n.kids[0]).op.Action? || Core(n.kids[0]).op.Choice?)
  {
    LineSurvivesReset(n.kids[0]);
    RestartedLine(a, n, w);
  }

  /** A Repeat or For that starts over a finished Sequence, Fallback or reactive instruction is
      predicted wrongly; over an action or a Choice it is so only when it fails its own checks. */
  lemma {:induction false} StartOverIsForetold(a: Actions, n: Node, w: World)
    requires WellFormed(n) && Closed(n) && StartsOver(n) && !IsDecorator(n.kids[0].op)
    ensures Foretold(a, n, w) <==> CallOf(a, n, w).Some? && (n.kids[0].op.Action? || n.kids[0].op.Choice?)
  {
    var kid := n.kids[0];
    DecoratedStartOver(a, n, w);
    ResetIsFresh(kid);
    if CallOf(a, n, w).Some? && (kid.op.Action? || kid.op.Choice?) {
      FreshLineIsForetold(a, Reset(kid), CallOf(a, n, w).value.world);
    }
  }

  lemma {:induction false} FreshLineIsForetold(a: Actions, n: Node, w: World)
    requires WellFormed(n) && AllFresh(n) && (n.op.Action? || n.op.Choice?)
    ensures Foretold(a, n, w)
  {
    assert CallOf(a, n, w).None?;
  }

  /** Finished compounds have been decided by their children in every reachable state. */
  lemma {:induction false} ReachableClosed(a: Actions, p: Prog, w: World, cmds: seq<Command>, x: Node)
    requires ProgOk(p) && InTree(x, RunFrom(a, p, w, cmds).root)
    ensures WellFormed(x) && Closed(x)
  {
    FreshStart(p);
    FreshIsClosed(Fresh(p));
    RunIsClosed(a, Started(p, w), cmds);
    ClosedInside(x, RunFrom(a, p, w, cmds).root);
  }

  /** The smallest procedure that is predicted wrongly: a Repeat of a Sequence of one action. */
  const REPEATED: Prog := Prog(0, Repeat(Literal(2)), [Prog(1, Sequence, [Prog(2, Action(0), [])])])

  lemma {:induction false} SequenceOnce(a: Actions, w: World)
    requires (forall u :: a.init(0, u).ok) && (forall mem, u :: a.exec(0, mem, u).status == Success)
    ensures var n := Fresh(REPEATED).kids[0]; WellFormed(n) && ExecuteSingle(a, n, w).node.status == Success
  {
    var n := Fresh(REPEATED).kids[0];
    var p := Preamble(a, n, w);
    assert Statuses(p.node.kids) == [NotStarted];
    var s := ExecuteSingle(a, n.kids[0], p.world);
    assert s.node.status == Success;
    assert Statuses(p.node.kids[0 := s.node]) == [Success];
    VerdictAt(Success, [Success], 1);
    assert NextCall(p.node, p.world) == Some(Call(0, n.kids[0], p.world, []));
  }

  /** Its state after one tick, when the action succeeds. */
  lemma {:induction false} RepeatedOnce(a: Actions, w: World)
    requires (forall u :: a.init(0, u).ok) && (forall mem, u :: a.exec(0, mem, u).status == Success)
    requires WellFormed(Fresh(REPEATED))
    ensures var r := ExecuteSingle(a, Fresh(REPEATED), w).node;
            && r.op == Repeat(Literal(2)) && r.status == NotFinished && !r.halted
            && WellFormed(r) && r.loc.max == 2 && r.kids[0].op == Sequence && r.kids[0].status == Success
  {
    var n := Fresh(REPEATED);
    var p := Preamble(a, n, w);
    SequenceOnce(a, p.world);
    TickKeepsTree(a, n, w);
    TickKeepsTree(a, n.kids[0], p.world);
    assert p.node.status == NotFinished && p.node.loc.max == 2 && p.node.loc.count == 0;
    assert NextCall(p.node, p.world) == Some(Call(0, n.kids[0], p.world, []));
  }

  lemma {:induction false} RepeatedIsMispredicted(a: Actions, w: World)
    requires (forall u :: a.init(0, u).ok) && (forall mem, u :: a.exec(0, mem, u).status == Success)
    ensures ProgOk(REPEATED)
    ensures var c := RunFrom(a, REPEATED, w, [Tick]);
            && !c.root.halted && c.root.status == NotFinished
            && GetNextInstructions(c.root) != Executed(a, c.root, c.world)
  {
    FreshStart(REPEATED);
    FreshIsDistinct();
    RepeatedOnce(a, w);
    var c := Apply(a, Started(REPEATED, w), Tick);
    assert [Tick][1..] == [];
    assert RunFrom(a, REPEATED, w, [Tick]) == c;
    ReachableClosed(a, REPEATED, w, [Tick], c.root);
    StartOverIsForetold(a, c.root, c.world);
    PredictionLimits(a, REPEATED, w, [Tick]);
  }

  lemma {:induction false} FreshIsDistinct()
    ensures Distinct(Fresh(REPEATED))
  {
    var n := Fresh(REPEATED);
    assert Ids(n.kids[0].kids[0]) == {2};
    assert Ids(n.kids[0]) == {1, 2};
  }
}
