/** When a For fails of its own accord, and that otherwise it runs its child once for every element. */
module ForLoops {
  import opened ExecutionStatus
  import opened Workspaces
  import opened Engine
  import opened Shape
  import opened Runs
  import opened Mirror
  import opened Counting
  import opened Tallies

  /** v has type t. */
  predicate HasType(v: Value, t: Type) {
    match t
    case ScalarType => v.Scalar?
    case ArrayType(elem) => v.Array? && v.elem == elem
  }

  /** The value a For works on in a tick: what it read when it started, or what it reads now. */
  function ArrayOf(n: Node, w: World): Option<Value>
    requires n.op.For?
  {
    if n.status != NotStarted then Some(n.loc.arr)
    else if n.op.arrayVar in w.vars then Some(w.vars[n.op.arrayVar])
    else None
  }

  /** It is there, it is an array, and if it has elements the element variable exists, is not locked and
      has their type. */
  predicate CanRun(n: Node, w: World)
    requires n.op.For?
  {
    var v := ArrayOf(n, w);
    var element := n.op.elementVar;
    && v.Some? && v.value.Array?
    && (v.value.elems != [] ==>
          element in w.vars && element !in w.locked && HasType(w.vars[element], v.value.elem))
  }

  /** A tick of a For that reports a failure its child did not report. */
  predicate FailsAlone(a: Actions, n: Node, w: World)
    requires WellFormed(n) && n.op.For?
  {
    var r := ExecuteSingle(a, n, w).node;
    r.status == Failure && (r.kids == [] || r.kids[0].status != Failure)
  }

  lemma {:induction false} TypesAgree(v: Value, t: Type)
    ensures TypeOf(v) == t <==> HasType(v, t)
  {
  }

  /** A tick that cannot go on with the array leaves the child alone. */
  lemma {:induction false} BlockedTick(a: Actions, n: Node, w: World)
    requires WellFormed(n) && Shaped(n) && Live(n) && n.op.For? && NeedsExecute(n.status) && !CanRun(n, w)
    ensures var r := ExecuteSingle(a, n, w).node; r.status == Failure && r.kids == n.kids && n.kids[0].status != Failure
  {
    PreambleEnters(a, n, w);
    if n.status == NotStarted {
      FreshKids(n);
    }
    var p := Preamble(a, n, w);
    if NeedsExecute(p.node.status) && n.op.elementVar in w.vars && p.node.loc.arr.Array? {
      TypesAgree(w.vars[n.op.elementVar], p.node.loc.arr.elem);
    }
  }

  /** A tick over an empty array succeeds at once and leaves the child alone. */
  lemma {:induction false} EmptyTick(a: Actions, n: Node, w: World)
    requires WellFormed(n) && Live(n) && n.op.For? && NeedsExecute(n.status)
    requires ArrayOf(n, w).Some? && ArrayOf(n, w).value.Array? && ArrayOf(n, w).value.elems == []
    ensures var r := ExecuteSingle(a, n, w).node; r.status == Success && r.kids == n.kids
  {
  }

  /** The child execution of a tick that can go on. */
  lemma {:induction false} ElementCall(a: Actions, n: Node, w: World)
    requires WellFormed(n) && Shaped(n) && Live(n) && n.op.For? && NeedsExecute(n.status)
    requires CanRun(n, w) && ArrayOf(n, w).value.elems != []
    ensures var elems := ArrayOf(n, w).value.elems;
            var i := if n.status == NotStarted then 0 else n.loc.count;
            var kid := if n.kids[0].status == Success then Reset(n.kids[0]) else n.kids[0];
            var p := Preamble(a, n, w);
            && 0 <= i < |elems| && WellFormed(kid)
            && NeedsExecute(p.node.status) && p.node.loc.arr == ArrayOf(n, w).value && p.node.loc.count == i
            && var c := NextCall(p.node, p.world);
            && c.Some? && c.value.k == 0 && c.value.child == kid
            && c.value.world == w.(vars := w.vars[n.op.elementVar := elems[i]])
  {
    PreambleEnters(a, n, w);
    if n.status == NotStarted {
      FreshKids(n);
    }
    var p := Preamble(a, n, w);
    TypesAgree(w.vars[n.op.elementVar], p.node.loc.arr.elem);
    ResetWellFormed(n.kids[0]);
  }

  /** Any other tick executes the child: with the current element in the element variable, after a reset
      if it succeeded before. The last element's run decides, and a failing one. */
  lemma {:induction false} ElementTick(a: Actions, n: Node, w: World)
    requires WellFormed(n) && Shaped(n) && Live(n) && n.op.For? && NeedsExecute(n.status)
    requires CanRun(n, w) && ArrayOf(n, w).value.elems != []
    ensures var elems := ArrayOf(n, w).value.elems;
            var i := if n.status == NotStarted then 0 else n.loc.count;
            var kid := if n.kids[0].status == Success then Reset(n.kids[0]) else n.kids[0];
            0 <= i < |elems| && WellFormed(kid)
            && var s := ExecuteSingle(a, kid, w.(vars := w.vars[n.op.elementVar := elems[i]]));
            var t := ExecuteSingle(a, n, w);
            && t.world == s.world && t.node.kids == [s.node] && t.node.loc.arr == ArrayOf(n, w).value
            && t.node.loc.count == (if IsFinished(s.node.status) then i + 1 else i)
            && t.node.status == (if s.node.status == Success && i + 1 < |elems| then NotFinished else s.node.status)
  {
    ElementCall(a, n, w);
    var p := Preamble(a, n, w);
    var c := NextCall(p.node, p.world).value;
    var s := ExecuteSingle(a, c.child, c.world);
    TickKeepsTree(a, c.child, c.world);
    assert ExecuteImpl(a, p.node, p.world) == Conclude(p.node, c, s);
  }

  /** A For fails without its child failing exactly if it finds no array, or an element variable that is
      missing, locked or of another type than the elements. */
  lemma {:induction false} ForFailsAlone(a: Actions, n: Node, w: World)
    requires WellFormed(n) && Shaped(n) && Live(n) && n.op.For? && NeedsExecute(n.status)
    ensures FailsAlone(a, n, w) <==> !CanRun(n, w)
  {
    if !CanRun(n, w) {
      BlockedTick(a, n, w);
    } else if ArrayOf(n, w).value.elems == [] {
      EmptyTick(a, n, w);
    } else {
      ElementTick(a, n, w);
    }
  }

  // ---------------------------------------------------------------- whole runs

  /** Ticks and outside writes only; the For can go on before every tick, and no tick leaves its child
      failed. */
  ghost predicate Smooth(a: Actions, c: Config, cmds: seq<Command>)
    requires WellFormed(c.root) && c.root.op.For?
    decreases |cmds|
  {
    cmds == [] ||
      (ApplyWellFormed(a, c, cmds[0]);
       ApplySkel(a, c, cmds[0]);
       var d := Apply(a, c, cmds[0]);
       && (cmds[0].Tick? || cmds[0].Write?)
       && (cmds[0].Tick? && NeedsExecute(c.root.status) ==> CanRun(c.root, c.world) && d.root.kids[0].status != Failure)
       && Smooth(a, d, cmds[1..]))
  }

  lemma {:induction false} ApplySkel(a: Actions, c: Config, cmd: Command)
    requires WellFormed(c.root)
    ensures Skel(Apply(a, c, cmd).root) == Skel(c.root) && Apply(a, c, cmd).root.op == c.root.op
    ensures |Apply(a, c, cmd).root.kids| == |c.root.kids|
  {
    match cmd
    case Tick => TickKeepsTree(a, c.root, c.world);
    case ResetTree => ResetSkel(c.root);
    case HaltTree => HaltSkel(c.root);
    case Write(_, _) =>
  }

  lemma {:induction false} SmoothTick(a: Actions, n: Node, w: World)
    requires WellFormed(n) && Shaped(n) && Live(n) && n.op.For? && (n.status != NotStarted ==> n.loc.arr.Array?)
    requires NeedsExecute(n.status) ==> CanRun(n, w) && ExecuteSingle(a, n, w).node.kids != []
    requires NeedsExecute(n.status) ==> ExecuteSingle(a, n, w).node.kids[0].status != Failure
    ensures var r := ExecuteSingle(a, n, w).node;
            && !r.halted && r.loc.arr.Array? && (n.status != Failure ==> r.status != Failure)
  {
    TickKeepsTree(a, n, w);
    if NeedsExecute(n.status) {
      ForFailsAlone(a, n, w);
      if ArrayOf(n, w).value.elems != [] {
        ElementTick(a, n, w);
      }
    }
  }

  lemma {:induction false} SmoothNeverFails(a: Actions, c: Config, cmds: seq<Command>)
    requires WellFormed(c.root) && c.root.op.For? && RootOk(c.root) && !c.root.halted && c.root.status != Failure
    requires Smooth(a, c, cmds) && (c.root.status != NotStarted ==> c.root.loc.arr.Array?)
    ensures var r := Run(a, c, cmds).root;
            !r.halted && r.status != Failure && r.op == c.root.op && (r.status != NotStarted ==> r.loc.arr.Array?)
    decreases |cmds|
  {
    if cmds != [] {
      var d := Apply(a, c, cmds[0]);
      ApplyWellFormed(a, c, cmds[0]);
      ApplySkel(a, c, cmds[0]);
      ApplyKeepsRootOk(a, c, cmds[0]);
      if cmds[0].Tick? {
        SmoothTick(a, c.root, c.world);
      }
      SmoothNeverFails(a, d, cmds[1..]);
    }
  }

  /** Whatever else writes to the workspace: when the For can go on before every tick and no run of its
      child fails, the For never fails either. Until it has succeeded, fewer runs of its child have
      completed than the array has elements; it has succeeded exactly if as many have. */
  lemma {:induction false} SmoothForCompletes(a: Actions, p: Prog, w: World, cmds: seq<Command>)
    requires ProgOk(p) && p.op.For? && Distinct(Fresh(p)) && WellFormed(Fresh(p)) && Smooth(a, Started(p, w), cmds)
    ensures var c := RunFrom(a, p, w, cmds);
            var n := c.root;
            && n.status != Failure && |n.kids| == 1 && n.op == p.op
            && var completed := Since(c.log, n.id, n.kids[0].id);
            && (n.status == NotStarted ==> completed == 0)
            && (n.status != NotStarted ==>
                  && n.loc.arr.Array? && completed <= |n.loc.arr.elems|
                  && (n.status == Success <==> completed == |n.loc.arr.elems|))
  {
    FreshStart(p);
    FreshIsShaped(Fresh(p));
    SmoothNeverFails(a, Started(p, w), cmds);
    CounterIsCompletedRuns(a, p, w, cmds, RunFrom(a, p, w, cmds).root);
    ReachableRootOk(a, p, w, cmds);
  }
}
