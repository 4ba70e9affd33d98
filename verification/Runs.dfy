/** Runs of a tree: ticks, resets and halts of the root in any order, with the outside world
    free to rewrite the workspace in between. */
module Runs {
  import opened ExecutionStatus
  import opened Workspaces
  import opened Engine
  import opened Shape

  datatype Command = Tick | ResetTree | HaltTree | Write(vars: map<string, Value>, locked: set<string>)

  datatype Config = Config(root: Node, world: World, log: seq<Event>)

  predicate ProgOk(p: Prog) {
    ArityOk(p.op, |p.kids|) && forall i :: 0 <= i < |p.kids| ==> ProgOk(p.kids[i])
  }

  function Apply(a: Actions, c: Config, cmd: Command): Config
    requires WellFormed(c.root)
  {
    match cmd
    case Tick =>
      var s := ExecuteSingle(a, c.root, c.world);
      Config(s.node, s.world, c.log + s.log)
    case ResetTree => Config(Reset(c.root), c.world, c.log + ResetLog(c.root))
    case HaltTree => c.(root := Halt(c.root))
    case Write(vars, locked) => c.(world := c.world.(vars := vars, locked := locked))
  }

  lemma {:induction false} ApplyWellFormed(a: Actions, c: Config, cmd: Command)
    requires WellFormed(c.root)
    ensures WellFormed(Apply(a, c, cmd).root)
  {
    match cmd
    case Tick => TickKeepsTree(a, c.root, c.world);
    case ResetTree => ResetWellFormed(c.root);
    case HaltTree => HaltWellFormed(c.root);
    case Write(_, _) =>
  }

  function Run(a: Actions, c: Config, cmds: seq<Command>): (r: Config)
    requires WellFormed(c.root)
    ensures WellFormed(r.root)
    decreases |cmds|
  {
    if cmds == [] then c
    else
      ApplyWellFormed(a, c, cmds[0]);
      Run(a, Apply(a, c, cmds[0]), cmds[1..])
  }

  function Started(p: Prog, w: World): Config {
    Config(Fresh(p), w, [])
  }

  lemma {:induction false} HaltWellFormed(n: Node)
    requires WellFormed(n)
    ensures WellFormed(Halt(n))
    decreases n
  {
    forall i | 0 <= i < |n.kids| ensures WellFormed(Halt(n).kids[i]) {
      HaltWellFormed(n.kids[i]);
    }
  }

  lemma {:induction false} FreshStart(p: Prog)
    requires ProgOk(p)
    ensures WellFormed(Fresh(p)) && AllFresh(Fresh(p)) && Live(Fresh(p))
    decreases p
  {
    forall i | 0 <= i < |p.kids|
      ensures WellFormed(Fresh(p).kids[i]) && AllFresh(Fresh(p).kids[i]) && Live(Fresh(p).kids[i])
    {
      FreshStart(p.kids[i]);
    }
  }

  /** Where a freshly set-up procedure p is after the commands cmds. */
  function RunFrom(a: Actions, p: Prog, w: World, cmds: seq<Command>): (r: Config)
    requires ProgOk(p)
    ensures WellFormed(r.root)
  {
    FreshStart(p);
    Run(a, Started(p, w), cmds)
  }

  // ---------------------------------------------------------------- halting keeps the shape

  lemma {:induction false} HaltFresh(n: Node)
    requires AllFresh(n)
    ensures AllFresh(Halt(n))
    decreases n
  {
    forall i | 0 <= i < |n.kids| ensures AllFresh(Halt(n).kids[i]) {
      HaltFresh(n.kids[i]);
    }
  }

  lemma {:induction false} HaltStatuses(n: Node)
    requires WellFormed(n)
    ensures WellFormed(Halt(n)) && Statuses(Halt(n).kids) == Statuses(n.kids)
    ensures Statuses(Chosen(Halt(n).kids, n.loc.picked)) == Statuses(Chosen(n.kids, n.loc.picked))
    ensures forall i :: 0 <= i < |n.kids| ==> Halt(n).kids[i].status == n.kids[i].status
  {
    HaltWellFormed(n);
  }

  /** A halt changes nothing of what a node's own state says about its children. */
  lemma {:induction false} HaltEnterable(n: Node)
    requires WellFormed(n)
    ensures WellFormed(Halt(n))
    ensures Enterable(n) ==> Enterable(Halt(n))
    ensures Reported(n) ==> Reported(Halt(n))
  {
    HaltStatuses(n);
  }

  lemma {:induction false} HaltShaped(n: Node)
    requires WellFormed(n) && Shaped(n)
    ensures WellFormed(Halt(n)) && Shaped(Halt(n))
    decreases n
  {
    HaltEnterable(n);
    forall i | 0 <= i < |n.kids| ensures Shaped(Halt(n).kids[i]) {
      HaltShaped(n.kids[i]);
    }
    if n.status == NotStarted {
      HaltFresh(n);
    }
  }

  // ---------------------------------------------------------------- reachable configurations

  /** The shape of a tree whose root may be halted: a halted root that is ticked starts, but it does
      not execute, so its status need not follow from its children yet. */
  predicate Formed(n: Node)
    requires WellFormed(n)
  {
    && (forall i :: 0 <= i < |n.kids| ==> Shaped(n.kids[i]))
    && (n.status == NotStarted ==> AllFresh(n))
    && (n.status == NotFinished || n.status == Running ==> Enterable(n))
  }

  /** What holds of the root in every reachable configuration. */
  predicate RootOk(n: Node) {
    WellFormed(n) && Formed(n) && (!n.halted ==> Shaped(n) && Live(n))
  }

  lemma {:induction false} HaltKeepsRootOk(n: Node)
    requires RootOk(n)
    ensures RootOk(Halt(n))
  {
    HaltEnterable(n);
    forall i | 0 <= i < |n.kids| ensures Shaped(Halt(n).kids[i]) {
      HaltShaped(n.kids[i]);
    }
    if n.status == NotStarted {
      HaltFresh(n);
    }
  }

  lemma {:induction false} HaltedTickKeepsRootOk(a: Actions, n: Node, w: World)
    requires RootOk(n) && n.halted
    ensures RootOk(ExecuteSingle(a, n, w).node)
  {
    var p := Preamble(a, n, w).node;
    if n.status == NotStarted {
      FreshIsShaped(n);
      PreambleEnters(a, n, w);
    }
    assert ExecuteSingle(a, n, w).node == p;
  }

  lemma {:induction false} ApplyKeepsRootOk(a: Actions, c: Config, cmd: Command)
    requires RootOk(c.root)
    ensures RootOk(Apply(a, c, cmd).root)
  {
    match cmd
    case Tick =>
      if c.root.halted {
        HaltedTickKeepsRootOk(a, c.root, c.world);
      } else {
        TickKeepsShape(a, c.root, c.world);
      }
    case ResetTree =>
      ResetWellFormed(c.root);
      ResetIsFresh(c.root);
      FreshIsShaped(Reset(c.root));
    case HaltTree => HaltKeepsRootOk(c.root);
    case Write(_, _) =>
  }

  lemma {:induction false} RunKeepsRootOk(a: Actions, c: Config, cmds: seq<Command>)
    requires RootOk(c.root)
    ensures RootOk(Run(a, c, cmds).root)
    decreases |cmds|
  {
    if cmds != [] {
      ApplyWellFormed(a, c, cmds[0]);
      ApplyKeepsRootOk(a, c, cmds[0]);
      RunKeepsRootOk(a, Apply(a, c, cmds[0]), cmds[1..]);
    }
  }

  /** Every configuration reachable from a start satisfies the shape invariant. */
  lemma {:induction false} ReachableRootOk(a: Actions, p: Prog, w: World, cmds: seq<Command>)
    requires ProgOk(p)
    ensures RootOk(RunFrom(a, p, w, cmds).root)
  {
    FreshStart(p);
    FreshIsShaped(Fresh(p));
    RunKeepsRootOk(a, Started(p, w), cmds);
  }

  lemma {:induction false} FreshSkel(p: Prog)
    ensures Skel(Fresh(p)) == p
    decreases p
  {
    forall i | 0 <= i < |p.kids| ensures Skel(Fresh(p).kids[i]) == p.kids[i] {
      FreshSkel(p.kids[i]);
    }
    assert Skel(Fresh(p)).kids == p.kids;
  }

  lemma {:induction false} HaltSkel(n: Node)
    ensures Skel(Halt(n)) == Skel(n)
    decreases n
  {
    forall i | 0 <= i < |n.kids| ensures Skel(Halt(n).kids[i]) == Skel(n.kids[i]) {
      HaltSkel(n.kids[i]);
    }
    SkelKids(n, Halt(n));
  }

  lemma {:induction false} RunKeepsSkel(a: Actions, c: Config, cmds: seq<Command>)
    requires WellFormed(c.root)
    ensures Skel(Run(a, c, cmds).root) == Skel(c.root)
    decreases |cmds|
  {
    if cmds != [] {
      match cmds[0] {
        case Tick => TickKeepsTree(a, c.root, c.world);
        case ResetTree => ResetSkel(c.root);
        case HaltTree => HaltSkel(c.root);
        case Write(_, _) =>
      }
      ApplyWellFormed(a, c, cmds[0]);
      RunKeepsSkel(a, Apply(a, c, cmds[0]), cmds[1..]);
    }
  }

  /** Nothing that happens to a tree changes the procedure it runs. */
  lemma {:induction false} ReachableSkel(a: Actions, p: Prog, w: World, cmds: seq<Command>)
    requires ProgOk(p)
    ensures Skel(RunFrom(a, p, w, cmds).root) == p
  {
    FreshStart(p);
    FreshSkel(p);
    RunKeepsSkel(a, Started(p, w), cmds);
  }

  // ---------------------------------------------------------------- what that says of each node

  /** x is n or one of its descendants. */
  ghost predicate InTree(x: Node, n: Node) {
    x == n || exists i :: 0 <= i < |n.kids| && InTree(x, n.kids[i])
  }

  lemma {:induction false} ShapedInside(x: Node, n: Node)
    requires WellFormed(n) && Shaped(n) && InTree(x, n)
    ensures WellFormed(x) && Shaped(x)
    decreases n
  {
    if x != n {
      var i :| 0 <= i < |n.kids| && InTree(x, n.kids[i]);
      ShapedInside(x, n.kids[i]);
    }
  }

  /** Every instruction of every reachable tree is in the shape of its status. */
  lemma {:induction false} ReachableFormed(a: Actions, p: Prog, w: World, cmds: seq<Command>, x: Node)
    requires ProgOk(p) && InTree(x, RunFrom(a, p, w, cmds).root)
    ensures WellFormed(x) && Formed(x)
  {
    var r := RunFrom(a, p, w, cmds).root;
    ReachableRootOk(a, p, w, cmds);
    if x != r {
      var i :| 0 <= i < |r.kids| && InTree(x, r.kids[i]);
      ShapedInside(x, r.kids[i]);
    }
  }

  /** Between ticks, an unfinished Sequence or Fallback anywhere in a tree has children that passed,
      then one child that needs execution, then children that never started. */
  lemma {:induction false} CompoundShape(a: Actions, p: Prog, w: World, cmds: seq<Command>, x: Node) returns (k: nat)
    requires ProgOk(p) && InTree(x, RunFrom(a, p, w, cmds).root)
    requires (x.op.Sequence? || x.op.Fallback?) && NeedsExecute(x.status)
    ensures k < |x.kids| && NeedsExecute(x.kids[k].status)
    ensures forall i :: 0 <= i < k ==> x.kids[i].status == if x.op.Sequence? then Success else Failure
    ensures forall i :: k < i < |x.kids| ==> x.kids[i].status == NotStarted && AllFresh(x.kids[i])
  {
    ReachableFormed(a, p, w, cmds, x);
    if x.status == NotStarted {
      FreshKids(x);
      FreshProgress(if x.op.Sequence? then Success else Failure, Statuses(x.kids));
    }
    k := Pick(Statuses(x.kids));
    assert forall i :: 0 <= i < |x.kids| ==> Shaped(x.kids[i]);
    assert forall i :: 0 <= i < |x.kids| ==> Statuses(x.kids)[i] == x.kids[i].status;
  }

  /** Between ticks, an unfinished reactive node anywhere in a tree has no child that decides it, and
      at most one Running child. */
  lemma {:induction false} ReactiveShape(a: Actions, p: Prog, w: World, cmds: seq<Command>, x: Node)
    requires ProgOk(p) && InTree(x, RunFrom(a, p, w, cmds).root)
    requires (x.op.ReactiveSequence? || x.op.ReactiveFallback?) && NeedsExecute(x.status)
    ensures forall i :: 0 <= i < |x.kids| ==>
      x.kids[i].status != if x.op.ReactiveSequence? then Failure else Success
    ensures forall i, j :: 0 <= i < j < |x.kids| ==> x.kids[i].status != Running || x.kids[j].status != Running
  {
    ReachableFormed(a, p, w, cmds, x);
    if x.status == NotStarted {
      FreshKids(x);
      FreshProgress(if x.op.ReactiveSequence? then Success else Failure, Statuses(x.kids));
    }
    ReactiveStatuses(if x.op.ReactiveSequence? then Success else Failure, x.kids);
  }

  lemma {:induction false} ReactiveStatuses(pass: Status, kids: seq<Node>)
    requires IsFinished(pass) && ReactiveProgress(pass, Statuses(kids))
    ensures forall i :: 0 <= i < |kids| ==> kids[i].status == pass || NeedsExecute(kids[i].status)
    ensures forall i, j :: 0 <= i < j < |kids| ==> kids[i].status != Running || kids[j].status != Running
  {
    var ss := Statuses(kids);
    var k := Pick(ss);
    forall i, j | 0 <= i < j < |kids| ensures kids[i].status != Running || kids[j].status != Running {
      assert ss[i] != Running || ss[j] != Running;
    }
    forall i | 0 <= i < |kids| ensures kids[i].status == pass || NeedsExecute(kids[i].status) {
      assert ss[i] == kids[i].status;
      assert i < k || i == k || ss[i] == NotStarted || ss[i] == Running;
    }
  }

  /** What a tick of a reactive node does with the child that is next. */
  lemma {:induction false} ReactiveTick(a: Actions, n: Node, w: World, k: nat)
    requires WellFormed(n) && !n.halted && NeedsExecute(n.status)
    requires n.op.ReactiveSequence? || n.op.ReactiveFallback?
    requires k < |n.kids| && Pick(Statuses(n.kids)) == k
    ensures var p := Preamble(a, n, w);
            var s := ExecuteSingle(a, n.kids[k], p.world);
            var pass := if n.op.ReactiveSequence? then Success else Failure;
            var b := ConcludeReactive(pass, p.node.loc, n.kids[k := s.node], k, s.world, [] + s.log);
            var r := ExecuteSingle(a, n, w).node;
            r.status == b.status && r.kids == b.kids
  {
    var p := Preamble(a, n, w);
    assert NextCall(p.node, p.world) == Some(Call(k, n.kids[k], p.world, []));
  }

  lemma {:induction false} AllReset(kids: seq<Node>)
    requires forall i :: 0 <= i < |kids| ==> WellFormed(kids[i])
    ensures forall i :: 0 <= i < |kids| ==> AllFresh(ResetAll(kids)[i]) && Live(ResetAll(kids)[i])
  {
    forall i | 0 <= i < |kids| ensures AllFresh(ResetAll(kids)[i]) && Live(ResetAll(kids)[i]) {
      ResetIsFresh(kids[i]);
    }
  }

  /** A tick that leaves the executed child of a reactive node Running makes the node Running and
      brings every sibling back to its start. */
  lemma {:induction false} RunningChildResetsSiblings(a: Actions, n: Node, w: World, k: nat)
    requires WellFormed(n) && Shaped(n) && Live(n) && NeedsExecute(n.status)
    requires n.op.ReactiveSequence? || n.op.ReactiveFallback?
    requires k < |n.kids| && NeedsExecute(n.kids[k].status)
    requires forall i :: 0 <= i < k ==> IsFinished(n.kids[i].status)
    ensures var kid := ExecuteSingle(a, n.kids[k], Preamble(a, n, w).world).node;
            var r := ExecuteSingle(a, n, w).node;
            kid.status == Running ==>
              && r.status == Running && |r.kids| == |n.kids| && r.kids[k] == kid
              && forall i :: 0 <= i < |r.kids| && i != k ==> AllFresh(r.kids[i]) && Live(r.kids[i])
  {
    PickIs(Statuses(n.kids), k);
    var w' := Preamble(a, n, w).world;
    TickKeepsTree(a, n.kids[k], w');
    ReactiveTick(a, n, w, k);
    AllReset(n.kids[k := ExecuteSingle(a, n.kids[k], w').node]);
  }
}
