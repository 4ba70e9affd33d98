/** Iteration counting over whole runs, for every Repeat and For anywhere in a procedure. */
module Tallies {
  import opened ExecutionStatus
  import opened Workspaces
  import opened Engine
  import opened Shape
  import opened Runs
  import opened Mirror
  import opened Counting
  import RunnerModel

  /** How many completed runs of instruction `kid` were reported since instruction `id` was last
      reported as not started. */
  function Since(log: seq<Event>, id: nat, kid: nat): nat
    decreases |log|
  {
    if log == [] then 0
    else
      var last := log[|log| - 1];
      if last == Notified(id, NotStarted) then 0
      else Since(log[..|log| - 1], id, kid) + if last.Notified? && last.id == kid && IsFinished(last.status)
        then 1 else 0
  }

  lemma {:induction false} SinceAppend(log: seq<Event>, more: seq<Event>, id: nat, kid: nat)
    requires Notified(id, NotStarted) !in more
    ensures Since(log + more, id, kid) == Since(log, id, kid) + Completed(more, kid)
    decreases |more|
  {
    if more == [] {
      assert log + more == log;
    } else {
      var rest, last := more[..|more| - 1], more[|more| - 1];
      assert (log + more)[..|log + more| - 1] == log + rest;
      SinceAppend(log, rest, id, kid);
      CompletedAppend(rest, [last], kid);
      assert more == rest + [last];
      assert [last][1..] == [];
    }
  }

  /** Every counter in the tree is right. */
  ghost predicate Tallied(n: Node, log: seq<Event>) {
    && (IsCounting(n.op) && n.kids != [] ==> CountOk(n, Since(log, n.id, n.kids[0].id)))
    && TalliedAll(n.kids, log)
  }

  ghost predicate TalliedAll(kids: seq<Node>, log: seq<Event>) {
    forall i :: 0 <= i < |kids| ==> Tallied(kids[i], log)
  }

  /** What is reported outside of n does not matter. */
  lemma {:induction false} TalliedFrame(n: Node, log: seq<Event>, more: seq<Event>, ids: set<nat>)
    requires Tallied(n, log) && Within(more, ids) && ids !! Ids(n)
    ensures Tallied(n, log + more)
    decreases n
  {
    forall i | 0 <= i < |n.kids| ensures Tallied(n.kids[i], log + more) {
      KidIds(n, i);
      TalliedFrame(n.kids[i], log, more, ids);
    }
    if IsCounting(n.op) && n.kids != [] {
      KidIds(n, 0);
      assert n.kids[0].id in Ids(n.kids[0]);
      CompletedOutside(more, ids, n.kids[0].id);
      SinceAppend(log, more, n.id, n.kids[0].id);
    }
  }

  lemma {:induction false} AllFrame(kids: seq<Node>, log: seq<Event>, more: seq<Event>, ids: set<nat>)
    requires TalliedAll(kids, log) && Within(more, ids) && ids !! IdsAll(kids)
    ensures TalliedAll(kids, log + more)
  {
    forall i | 0 <= i < |kids| ensures Tallied(kids[i], log + more) {
      assert forall x :: x in Ids(kids[i]) ==> x in IdsAll(kids);
      TalliedFrame(kids[i], log, more, ids);
    }
  }

  // ---------------------------------------------------------------- resets

  lemma {:induction false} OwnReset(n: Node, log: seq<Event>)
    requires Tallied(n, log) && Distinct(n) && IsCounting(n.op) && n.kids != []
    ensures Since(log + ResetLog(n), n.id, n.kids[0].id) == 0
  {
    var below := ResetLogAll(n.kids);
    if n.status == NotStarted {
      NotBelow(n);
      ResetAllWithin(n.kids);
      ResetsCompleteNothing(n.kids, n.kids[0].id);
      SinceAppend(log, below, n.id, n.kids[0].id);
      assert ResetLog(n) == below;
    } else {
      assert log + ResetLog(n) == log + below + [Notified(n.id, NotStarted)];
    }
  }

  lemma {:induction false} ResetTallies(n: Node, log: seq<Event>)
    requires Tallied(n, log) && Distinct(n)
    ensures Tallied(Reset(n), log + ResetLog(n))
    decreases n, 0
  {
    var below := ResetLogAll(n.kids);
    var note := if n.status != NotStarted then [Notified(n.id, NotStarted)] else [];
    NotBelow(n);
    ResetAllTallies(n.kids, log);
    ResetIdsAll(n.kids);
    AllFrame(ResetAll(n.kids), log + below, note, {n.id});
    assert log + ResetLog(n) == log + below + note;
    if IsCounting(n.op) && n.kids != [] {
      OwnReset(n, log);
    }
  }

  lemma {:induction false} ResetIdsAll(kids: seq<Node>)
    ensures IdsAll(ResetAll(kids)) == IdsAll(kids) && (DistinctAll(kids) ==> DistinctAll(ResetAll(kids)))
  {
    forall i | 0 <= i < |kids| ensures Skel(kids[i]) == Skel(ResetAll(kids)[i]) {
      ResetSkel(kids[i]);
    }
    SameIds(kids, ResetAll(kids));
  }

  lemma {:induction false} ResetAllTallies(kids: seq<Node>, log: seq<Event>)
    requires TalliedAll(kids, log) && DistinctAll(kids)
    ensures TalliedAll(ResetAll(kids), log + ResetLogAll(kids))
    decreases kids
  {
    if kids != [] {
      var head, rest := kids[0], kids[1..];
      ResetTallies(head, log);
      ResetWithin(head);
      ResetHeadApart(kids);
      AllFrame(rest, log, ResetLog(head), Ids(head));
      ResetAllTallies(rest, log + ResetLog(head));
      ResetHeadTallies(head, rest, log + ResetLog(head));
      assert log + ResetLogAll(kids) == log + ResetLog(head) + ResetLogAll(rest);
      TalliedCons(Reset(head), ResetAll(rest), log + ResetLogAll(kids));
      assert ResetAll(kids) == [Reset(head)] + ResetAll(rest);
    }
  }

  lemma {:induction false} TalliedCons(head: Node, rest: seq<Node>, log: seq<Event>)
    requires Tallied(head, log) && TalliedAll(rest, log)
    ensures TalliedAll([head] + rest, log)
  {
  }

  lemma {:induction false} ResetHeadTallies(head: Node, rest: seq<Node>, log: seq<Event>)
    requires Tallied(Reset(head), log) && IdsAll(rest) !! Ids(head)
    ensures Tallied(Reset(head), log + ResetLogAll(rest))
  {
    ResetAllWithin(rest);
    ResetSkel(head);
    SkelIds(Reset(head), head);
    TalliedFrame(Reset(head), log, ResetLogAll(rest), IdsAll(rest));
  }

  // ---------------------------------------------------------------- ticks

  /** Child k became x while only instructions below it were reported. */
  lemma {:induction false} ChildTallies(kids: seq<Node>, k: nat, x: Node, log: seq<Event>, more: seq<Event>)
    requires TalliedAll(kids, log) && DistinctAll(kids) && k < |kids|
    requires Within(more, Ids(kids[k])) && Tallied(x, log + more)
    ensures TalliedAll(kids[k := x], log + more)
  {
    var after := kids[k := x];
    forall i | 0 <= i < |kids| ensures Tallied(after[i], log + more) {
      if i != k {
        assert Ids(kids[k]) !! Ids(kids[i]);
        TalliedFrame(kids[i], log, more, Ids(kids[k]));
      }
    }
  }

  lemma {:induction false} SidesApart(kids: seq<Node>, k: nat)
    requires DistinctAll(kids) && k < |kids|
    ensures var left, right := kids[..k], kids[k + 1..];
      && DistinctAll(left) && DistinctAll(right) && IdsAll(left) !! IdsAll(right)
      && Ids(kids[k]) !! IdsAll(left) && Ids(kids[k]) !! IdsAll(right)
  {
    var left, right := kids[..k], kids[k + 1..];
    forall x | x in IdsAll(left) ensures x !in IdsAll(right) && x !in Ids(kids[k]) {
      var i :| 0 <= i < |left| && x in Ids(left[i]);
      assert left[i] == kids[i] && Ids(kids[i]) !! Ids(kids[k]);
      forall j | 0 <= j < |right| ensures x !in Ids(right[j]) {
        assert Ids(kids[i]) !! Ids(kids[k + 1 + j]);
      }
    }
    forall x | x in IdsAll(right) ensures x !in Ids(kids[k]) {
      var j :| 0 <= j < |right| && x in Ids(right[j]);
      assert right[j] == kids[k + 1 + j] && Ids(kids[k]) !! Ids(kids[k + 1 + j]);
    }
  }

  /** A reactive node reset the siblings of child k. */
  lemma {:induction false} OthersTally(kids: seq<Node>, k: nat, log: seq<Event>)
    requires TalliedAll(kids, log) && DistinctAll(kids) && k < |kids|
    ensures TalliedAll(ResetAll(kids)[k := kids[k]], log + ResetLogAll(kids[..k]) + ResetLogAll(kids[k + 1..]))
  {
    var left, right := kids[..k], kids[k + 1..];
    var l, r := ResetLogAll(left), ResetLogAll(right);
    SidesApart(kids, k);
    ResetAllWithin(left);
    ResetAllWithin(right);
    ResetIdsAll(left);
    ResetAllTallies(left, log);
    AllFrame(ResetAll(left), log + l, r, IdsAll(right));
    AllFrame(right, log, l, IdsAll(left));
    ResetAllTallies(right, log + l);
    TalliedFrame(kids[k], log, l, IdsAll(left));
    TalliedFrame(kids[k], log + l, r, IdsAll(right));
    assert ResetAll(kids)[k := kids[k]] == ResetAll(left) + [kids[k]] + ResetAll(right);
  }

  /** The child a tick executes, first reset if it is between two runs. */
  lemma {:induction false} CallTallies(n: Node, w: World, log: seq<Event>)
    requires WellFormed(n) && NextCall(n, w).Some? && TalliedAll(n.kids, log) && DistinctAll(n.kids)
    ensures var c := NextCall(n, w).value;
      && Within(c.log, Ids(n.kids[c.k])) && Skel(c.child) == Skel(n.kids[c.k]) && Ids(c.child) == Ids(n.kids[c.k])
      && Distinct(c.child) && Tallied(c.child, log + c.log)
  {
    var c := NextCall(n, w).value;
    var kid := n.kids[c.k];
    AgainCall(n, w);
    ResetSkel(kid);
    SkelIds(kid, c.child);
    ResetWithin(kid);
    ResetTallies(kid, log);
    assert log + [] == log;
  }

  lemma {:induction false} ConcludeTallies(n: Node, c: Call, s: Step, log: seq<Event>)
    requires WellFormed(n) && c.k < |n.kids| && !n.op.Action? && DistinctAll(n.kids)
    requires Skel(s.node) == Skel(n.kids[c.k]) && TalliedAll(n.kids[c.k := s.node], log + (c.log + s.log))
    ensures TalliedAll(Conclude(n, c, s).kids, log + Conclude(n, c, s).log)
  {
    var kids := n.kids[c.k := s.node];
    ConcludeLog(n, c, s);
    var own := c.log + s.log;
    SameIds(n.kids, kids);
    OthersTally(kids, c.k, log + own);
    assert log + (own + ResetLogAll(kids[..c.k]) + ResetLogAll(kids[c.k + 1..])) ==
      log + own + ResetLogAll(kids[..c.k]) + ResetLogAll(kids[c.k + 1..]);
  }

  lemma {:induction false} BodyTallies(a: Actions, n: Node, w: World, log: seq<Event>)
    requires WellFormed(n) && TalliedAll(n.kids, log) && DistinctAll(n.kids)
    requires forall i :: 0 <= i < |n.kids| ==> Shaped(n.kids[i]) && Live(n.kids[i])
    ensures TalliedAll(ExecuteImpl(a, n, w).kids, log + ExecuteImpl(a, n, w).log)
    decreases Size(n), 0
  {
    match NextCall(n, w) {
      case None =>
        AloneFacts(a, n, w);
        assert Alone(a, n, w).log == [] && log + [] == log;
      case Some(c) =>
        CallTallies(n, w, log);
        CalledChild(n, w);
        TickTallies(a, c.child, c.world, log + c.log);
        CalledTallies(a, n, c, log);
    }
  }

  /** From the executed child to all children. */
  lemma {:induction false} CalledTallies(a: Actions, n: Node, c: Call, log: seq<Event>)
    requires WellFormed(n) && TalliedAll(n.kids, log) && DistinctAll(n.kids) && !n.op.Action? && c.k < |n.kids|
    requires WellFormed(c.child) && Skel(c.child) == Skel(n.kids[c.k])
    requires Within(c.log, Ids(n.kids[c.k])) && Ids(c.child) == Ids(n.kids[c.k])
    requires var s := ExecuteSingle(a, c.child, c.world); Tallied(s.node, log + c.log + s.log)
    ensures var b := Conclude(n, c, ExecuteSingle(a, c.child, c.world)); TalliedAll(b.kids, log + b.log)
  {
    var s := ExecuteSingle(a, c.child, c.world);
    TickWithin(a, c.child, c.world);
    TickKeepsTree(a, c.child, c.world);
    assert log + c.log + s.log == log + (c.log + s.log);
    ChildTallies(n.kids, c.k, s.node, log, c.log + s.log);
    ConcludeTallies(n, c, s, log);
  }

  /** A tick never reports its node as not started. */
  lemma {:induction false} TickNeverRestarts(a: Actions, n: Node, w: World)
    requires WellFormed(n) && Distinct(n)
    ensures Notified(n.id, NotStarted) !in ExecuteSingle(a, n, w).log
  {
    var p := Preamble(a, n, w);
    TickParts(a, n, w);
    TickKeepsTree(a, n, w);
    NotBelow(n);
    if NeedsExecute(p.node.status) && !n.halted {
      BodyWithin(a, p.node, p.world);
    }
  }

  lemma {:induction false} SameFirstKid(n: Node, r: Node)
    requires SameTree(n, r) && n.kids != []
    ensures r.kids != [] && r.kids[0].id == n.kids[0].id
  {
    assert Skel(r).kids[0] == Skel(n).kids[0];
  }

  lemma {:induction false} OwnTally(a: Actions, n: Node, w: World, log: seq<Event>)
    requires WellFormed(n) && Shaped(n) && Live(n) && Distinct(n) && Tallied(n, log) && IsCounting(n.op)
    ensures var s := ExecuteSingle(a, n, w);
      && s.node.op == n.op && s.node.id == n.id && s.node.kids != [] && s.node.kids[0].id == n.kids[0].id
      && CountOk(s.node, Since(log + s.log, n.id, n.kids[0].id))
  {
    var s := ExecuteSingle(a, n, w);
    var completed := Since(log, n.id, n.kids[0].id);
    assert CountOk(s.node, completed + Completed(s.log, n.kids[0].id)) by {
      TickCounts(a, n, w, completed);
    }
    assert Since(log + s.log, n.id, n.kids[0].id) == completed + Completed(s.log, n.kids[0].id) by {
      TickNeverRestarts(a, n, w);
      SinceAppend(log, s.log, n.id, n.kids[0].id);
    }
    TickKeepsTree(a, n, w);
    SameFirstKid(n, s.node);
  }

  /** The children of n when its body starts. */
  lemma {:induction false} StartTallies(a: Actions, n: Node, w: World, log: seq<Event>)
    requires WellFormed(n) && Distinct(n) && Tallied(n, log)
    ensures TalliedAll(n.kids, log + [Ticked(n.id)] + Preamble(a, n, w).log)
  {
    NotBelow(n);
    TickParts(a, n, w);
    AllFrame(n.kids, log, [Ticked(n.id)], {n.id});
    AllFrame(n.kids, log + [Ticked(n.id)], Preamble(a, n, w).log, {n.id});
  }

  /** What a node's own report at the end of its tick leaves as it is. */
  lemma {:induction false} EndTallies(a: Actions, n: Node, w: World, log: seq<Event>)
    requires WellFormed(n) && n.id !in IdsAll(n.kids) && TalliedAll(ExecuteImpl(a, n, w).kids, log)
    ensures var b := ExecuteImpl(a, n, w);
      TalliedAll(b.kids, log + NoteIf(b.status != n.status, n.id, b.status))
  {
    var b := ExecuteImpl(a, n, w);
    BodySkels(a, n, w);
    SameIds(n.kids, b.kids);
    AllFrame(b.kids, log, NoteIf(b.status != n.status, n.id, b.status), {n.id});
  }

  /** A tick keeps all counters right. */
  lemma {:induction false} TickTallies(a: Actions, n: Node, w: World, log: seq<Event>)
    requires WellFormed(n) && Shaped(n) && Live(n) && Distinct(n) && Tallied(n, log)
    ensures var s := ExecuteSingle(a, n, w); Tallied(s.node, log + s.log)
    decreases Size(n), 2
  {
    var s := ExecuteSingle(a, n, w);
    if IsCounting(n.op) {
      OwnTally(a, n, w, log);
    }
    KidsTally(a, n, w, log);
    TickKeepsTree(a, n, w);
  }

  /** All that is reported up to the end of a tick. */
  lemma {:induction false} AppendTick(a: Actions, n: Node, w: World, log: seq<Event>)
    requires WellFormed(n) && !n.halted
    ensures var p := Preamble(a, n, w);
            var s := ExecuteSingle(a, n, w);
            var start := log + [Ticked(n.id)] + p.log;
            if NeedsExecute(p.node.status) then
              var b := ExecuteImpl(a, p.node, p.world);
              && s.node.kids == b.kids
              && log + s.log == start + b.log + NoteIf(b.status != p.node.status, n.id, b.status)
            else s.node.kids == n.kids && log + s.log == start
  {
    var p := Preamble(a, n, w);
    TickParts(a, n, w);
    if NeedsExecute(p.node.status) {
      var b := ExecuteImpl(a, p.node, p.world);
      Regroup(log, [Ticked(n.id)], p.log, b.log, NoteIf(b.status != p.node.status, n.id, b.status));
    } else {
      Regroup(log, [Ticked(n.id)], p.log, [], []);
    }
  }

  lemma {:induction false} Regroup(log: seq<Event>, a: seq<Event>, b: seq<Event>, c: seq<Event>, d: seq<Event>)
    ensures log + (a + b + (c + d)) == log + a + b + c + d
    ensures log + (a + b + []) == log + a + b
  {
  }

  lemma {:induction false} KidsTally(a: Actions, n: Node, w: World, log: seq<Event>)
    requires WellFormed(n) && Shaped(n) && Live(n) && Distinct(n) && Tallied(n, log)
    ensures var s := ExecuteSingle(a, n, w); TalliedAll(s.node.kids, log + s.log)
    decreases Size(n), 1
  {
    var p := Preamble(a, n, w);
    StartTallies(a, n, w, log);
    AppendTick(a, n, w, log);
    if NeedsExecute(p.node.status) {
      var start := log + [Ticked(n.id)] + p.log;
      NotBelow(n);
      BodyTallies(a, p.node, p.world, start);
      EndTallies(a, p.node, p.world, start + ExecuteImpl(a, p.node, p.world).log);
    }
  }

  // ---------------------------------------------------------------- whole runs

  lemma {:induction false} HaltTallies(n: Node, log: seq<Event>)
    requires Tallied(n, log)
    ensures Tallied(Halt(n), log)
    decreases n
  {
    forall i | 0 <= i < |n.kids| ensures Tallied(Halt(n).kids[i], log) {
      HaltTallies(n.kids[i], log);
    }
  }

  /** Ticking a halted tree only initialises its root. */
  lemma {:induction false} HaltedTickTallies(a: Actions, n: Node, w: World, log: seq<Event>)
    requires WellFormed(n) && Distinct(n) && n.halted && Tallied(n, log)
    ensures var s := ExecuteSingle(a, n, w); Tallied(s.node, log + s.log)
  {
    var s := ExecuteSingle(a, n, w);
    TickParts(a, n, w);
    StartTallies(a, n, w, log);
    assert log + s.log == log + [Ticked(n.id)] + Preamble(a, n, w).log;
    if IsCounting(n.op) && n.kids != [] {
      KidIds(n, 0);
      CompletedOutside(s.log, {n.id}, n.kids[0].id);
      TickNeverRestarts(a, n, w);
      SinceAppend(log, s.log, n.id, n.kids[0].id);
    }
  }

  lemma {:induction false} ApplyTallies(a: Actions, c: Config, cmd: Command)
    requires RootOk(c.root) && Distinct(c.root) && Tallied(c.root, c.log)
    ensures var d := Apply(a, c, cmd); Distinct(d.root) && Tallied(d.root, d.log)
  {
    var d := Apply(a, c, cmd);
    match cmd {
      case Tick =>
        TickKeepsTree(a, c.root, c.world);
        if c.root.halted {
          HaltedTickTallies(a, c.root, c.world, c.log);
        } else {
          TickTallies(a, c.root, c.world, c.log);
        }
      case ResetTree =>
        ResetSkel(c.root);
        ResetTallies(c.root, c.log);
      case HaltTree =>
        HaltSkel(c.root);
        HaltTallies(c.root, c.log);
      case Write(_, _) =>
    }
    SkelIds(c.root, d.root);
  }

  lemma {:induction false} RunTallies(a: Actions, c: Config, cmds: seq<Command>)
    requires RootOk(c.root) && Distinct(c.root) && Tallied(c.root, c.log)
    ensures var r := Run(a, c, cmds); Distinct(r.root) && Tallied(r.root, r.log)
    decreases |cmds|
  {
    if cmds != [] {
      ApplyWellFormed(a, c, cmds[0]);
      ApplyKeepsRootOk(a, c, cmds[0]);
      ApplyTallies(a, c, cmds[0]);
      RunTallies(a, Apply(a, c, cmds[0]), cmds[1..]);
    }
  }

  lemma {:induction false} FreshTallied(n: Node)
    requires AllFresh(n)
    ensures Tallied(n, [])
    decreases n
  {
    forall i | 0 <= i < |n.kids| ensures Tallied(n.kids[i], []) {
      FreshTallied(n.kids[i]);
    }
  }

  lemma {:induction false} ReachableTallied(a: Actions, p: Prog, w: World, cmds: seq<Command>)
    requires ProgOk(p) && Distinct(Fresh(p))
    ensures var c := RunFrom(a, p, w, cmds); Distinct(c.root) && Tallied(c.root, c.log)
  {
    FreshStart(p);
    FreshIsShaped(Fresh(p));
    FreshTallied(Fresh(p));
    RunTallies(a, Started(p, w), cmds);
  }

  lemma {:induction false} TalliedInside(x: Node, n: Node, log: seq<Event>)
    requires Tallied(n, log) && InTree(x, n)
    ensures Tallied(x, log)
    decreases n
  {
    if x != n {
      var i :| 0 <= i < |n.kids| && InTree(x, n.kids[i]);
      TalliedInside(x, n.kids[i], log);
    }
  }

  /** Iteration counting: at any point of any run, with resets and halts, the counter of every Repeat
      and For with a limit is the number of runs of its child reported as completed since it was last
      reset. While it is unfinished fewer runs than the limit have completed, and it succeeds only
      after exactly that many; so it never succeeds with a negative limit. */
  lemma {:induction false} CounterIsCompletedRuns(a: Actions, p: Prog, w: World, cmds: seq<Command>, x: Node)
    requires ProgOk(p) && Distinct(Fresh(p))
    requires InTree(x, RunFrom(a, p, w, cmds).root) && IsCounting(x.op) && x.kids != []
    ensures CountOk(x, Since(RunFrom(a, p, w, cmds).log, x.id, x.kids[0].id))
  {
    var c := RunFrom(a, p, w, cmds);
    ReachableTallied(a, p, w, cmds);
    TalliedInside(x, c.root, c.log);
  }

  // ---------------------------------------------------------------- the executions inside a tick

  /** A call of ExecuteSingle: the instruction, the world and all that was reported before it. */
  datatype Execution = Execution(node: Node, world: World, log: seq<Event>)

  function Executions(a: Actions, n: Node, w: World, log: seq<Event>): (r: seq<Execution>)
    requires WellFormed(n)
    ensures r != [] && r[0] == Execution(n, w, log)
    decreases Size(n)
  {
    var p := Preamble(a, n, w);
    [Execution(n, w, log)] + if NeedsExecute(p.node.status) && !n.halted then
                               match NextCall(p.node, p.world)
                               case None => []
                               case Some(c) => Executions(a, c.child, c.world, log + [Ticked(n.id)] + p.log + c.log)
                             else []
  }

  /** They are the calls a tick makes, in order. */
  lemma {:induction false} ExecutionsAreExecuted(a: Actions, n: Node, w: World, log: seq<Event>)
    requires WellFormed(n)
    ensures var es, ns := Executions(a, n, w, log), RunnerModel.ExecutedNodes(a, n, w);
            |es| == |ns| && forall i :: 0 <= i < |es| ==> es[i].node == ns[i]
    decreases Size(n)
  {
    var p := Preamble(a, n, w);
    if NeedsExecute(p.node.status) && !n.halted {
      match NextCall(p.node, p.world)
      case None =>
      case Some(c) => ExecutionsAreExecuted(a, c.child, c.world, log + [Ticked(n.id)] + p.log + c.log);
    }
  }

  ghost predicate Sound(e: Execution) {
    WellFormed(e.node) && Shaped(e.node) && Live(e.node) && Distinct(e.node) && Tallied(e.node, e.log)
  }

  lemma {:induction false} CallSound(a: Actions, n: Node, w: World, log: seq<Event>)
    requires Sound(Execution(n, w, log)) && NeedsExecute(Preamble(a, n, w).node.status)
    requires NextCall(Preamble(a, n, w).node, Preamble(a, n, w).world).Some?
    ensures var p := Preamble(a, n, w);
            var c := NextCall(p.node, p.world).value;
            Sound(Execution(c.child, c.world, log + [Ticked(n.id)] + p.log + c.log))
  {
    var p := Preamble(a, n, w);
    NotBelow(n);
    StartTallies(a, n, w, log);
    CallTallies(p.node, p.world, log + [Ticked(n.id)] + p.log);
    CalledChild(p.node, p.world);
  }

  /** The child a For executes starts with the element variable set to the element of the run under
      way, in the array For read when it started. */
  ghost predicate Writes(a: Actions, e: Execution, child: Execution)
    requires e.node.op.For? && e.node.kids != []
  {
    var k := Since(e.log, e.node.id, e.node.kids[0].id);
    var arr := Preamble(a, e.node, e.world).node.loc.arr;
    var element := e.node.op.elementVar;
    && arr.Array? && k < |arr.elems| && child.node.id == e.node.kids[0].id
    && element in child.world.vars && child.world.vars[element] == arr.elems[k]
  }

  lemma {:induction false} ForCallWrites(a: Actions, n: Node, w: World, log: seq<Event>)
    requires Sound(Execution(n, w, log)) && n.op.For? && NeedsExecute(Preamble(a, n, w).node.status)
    requires NextCall(Preamble(a, n, w).node, Preamble(a, n, w).world).Some?
    ensures var p := Preamble(a, n, w);
            var c := NextCall(p.node, p.world).value;
            Writes(a, Execution(n, w, log), Execution(c.child, c.world, log + [Ticked(n.id)] + p.log + c.log))
  {
    PreambleEnters(a, n, w);
  }

  lemma {:induction false} ExecutionsWrite(a: Actions, n: Node, w: World, log: seq<Event>, i: nat)
    requires Sound(Execution(n, w, log)) && i + 1 < |Executions(a, n, w, log)|
    ensures var es := Executions(a, n, w, log);
            es[i].node.op.For? && es[i].node.kids != [] ==> Writes(a, es[i], es[i + 1])
    decreases Size(n)
  {
    var p := Preamble(a, n, w);
    var c := NextCall(p.node, p.world).value;
    var rest := Executions(a, c.child, c.world, log + [Ticked(n.id)] + p.log + c.log);
    assert Executions(a, n, w, log)[1..] == rest;
    if i == 0 {
      if n.op.For? {
        ForCallWrites(a, n, w, log);
      }
    } else {
      CallSound(a, n, w, log);
      ExecutionsWrite(a, c.child, c.world, log + [Ticked(n.id)] + p.log + c.log, i - 1);
    }
  }

  /** In every tick of every run, each execution of the child of a For, nested anywhere, starts with
      the element variable equal to the element whose number is the count of completed runs; the
      index is always within the array. */
  lemma {:induction false} ForWritesElement(a: Actions, p: Prog, w: World, cmds: seq<Command>, i: nat)
    requires ProgOk(p) && Distinct(Fresh(p)) && !RunFrom(a, p, w, cmds).root.halted
    requires var c := RunFrom(a, p, w, cmds);
             var es := Executions(a, c.root, c.world, c.log);
             i + 1 < |es| && es[i].node.op.For? && es[i].node.kids != []
    ensures var c := RunFrom(a, p, w, cmds);
            var es := Executions(a, c.root, c.world, c.log);
            Writes(a, es[i], es[i + 1])
  {
    var c := RunFrom(a, p, w, cmds);
    ReachableTallied(a, p, w, cmds);
    ReachableRootOk(a, p, w, cmds);
    ExecutionsWrite(a, c.root, c.world, c.log, i);
  }
}
