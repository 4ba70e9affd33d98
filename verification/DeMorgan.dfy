/** Sequence and Inverter(Fallback(Inverter ...)) are interchangeable, and dually. */
module DeMorgan {
  import opened ExecutionStatus
  import opened Workspaces
  import opened Engine
  import opened Shape
  import opened Runs

  predicate IsPlain(op: Op) {
    op.Sequence? || op.Fallback?
  }

  function Dual(op: Op): Op
    requires IsPlain(op)
  {
    if op.Sequence? then Fallback else Sequence
  }

  function Pass(op: Op): Status
    requires IsPlain(op)
  {
    if op.Sequence? then Success else Failure
  }

  /** p with every Sequence and Fallback named in `chosen` rewritten by De Morgan's law. */
  function Dualize(p: Prog, chosen: set<nat>): Prog {
    if IsPlain(p.op) && p.id in chosen then
      Prog(p.id, Inverter, [Prog(p.id, Dual(p.op), seq(|p.kids|, i requires 0 <= i < |p.kids| =>
        Prog(p.kids[i].id, Inverter, [Dualize(p.kids[i], chosen)])))])
    else
      Prog(p.id, p.op, seq(|p.kids|, i requires 0 <= i < |p.kids| => Dualize(p.kids[i], chosen)))
  }

  // ---------------------------------------------------------------- twins

  /** y is x with some compounds rewritten, and in a corresponding state. */
  predicate Twin(x: Node, y: Node)
    decreases x
  {
    && x.status == y.status && x.halted == y.halted
    && if IsPlain(x.op) && y.op.Inverter? then
         && |y.kids| == 1 && IsDual(x, y.kids[0])
         && forall i :: 0 <= i < |x.kids| ==> Twin(x.kids[i], y.kids[0].kids[i].kids[0])
       else
         && x.op == y.op && x.loc == y.loc && |x.kids| == |y.kids|
         && forall i :: 0 <= i < |x.kids| ==> Twin(x.kids[i], y.kids[i])
  }

  /** The inner compound f of the rewritten x: inverters around the children, statuses inverted. */
  predicate IsDual(x: Node, f: Node)
    requires IsPlain(x.op)
  {
    && f.op == Dual(x.op) && f.halted == x.halted && |f.kids| == |x.kids|
    && (!x.halted ==> f.status == Invert(x.status))
    && forall i :: 0 <= i < |x.kids| ==>
         && f.kids[i].op.Inverter? && |f.kids[i].kids| == 1
         && f.kids[i].halted == x.kids[i].halted
         && (!x.halted ==> f.kids[i].status == Invert(x.kids[i].status))
  }

  predicate TwinAll(xs: seq<Node>, ys: seq<Node>) {
    |xs| == |ys| && forall i :: 0 <= i < |xs| ==> Twin(xs[i], ys[i])
  }

  lemma {:induction false} TwinStatuses(xs: seq<Node>, ys: seq<Node>)
    requires TwinAll(xs, ys)
    ensures Statuses(xs) == Statuses(ys)
  {
    assert forall i :: 0 <= i < |xs| ==> xs[i].status == ys[i].status;
  }

  lemma {:induction false} ResetTwin(x: Node, y: Node)
    requires Twin(x, y)
    ensures Twin(Reset(x), Reset(y))
    decreases x
  {
    if IsPlain(x.op) && y.op.Inverter? {
      var f := y.kids[0];
      forall i | 0 <= i < |x.kids|
        ensures Twin(ResetAll(x.kids)[i], Reset(f.kids[i].kids[0]))
        ensures ResetAll(f.kids)[i] == Reset(f.kids[i])
        ensures ResetAll(f.kids[i].kids)[0] == Reset(f.kids[i].kids[0])
      {
        ResetTwin(x.kids[i], f.kids[i].kids[0]);
      }
      assert ResetAll(y.kids)[0] == Reset(f);
    } else {
      forall i | 0 <= i < |x.kids| ensures Twin(ResetAll(x.kids)[i], ResetAll(y.kids)[i]) {
        ResetTwin(x.kids[i], y.kids[i]);
      }
    }
  }

  lemma {:induction false} HaltTwin(x: Node, y: Node)
    requires Twin(x, y)
    ensures Twin(Halt(x), Halt(y))
    decreases x
  {
    if IsPlain(x.op) && y.op.Inverter? {
      var f := y.kids[0];
      forall i | 0 <= i < |x.kids|
        ensures Halt(f).kids[i] == Halt(f.kids[i])
        ensures Halt(f.kids[i]).kids == [Halt(f.kids[i].kids[0])]
        ensures Halt(x).kids[i] == Halt(x.kids[i]) && Halt(x.kids[i]).halted
        ensures Twin(Halt(x.kids[i]), Halt(f.kids[i].kids[0]))
      {
        HaltTwin(x.kids[i], f.kids[i].kids[0]);
      }
      assert Halt(y).kids == [Halt(f)];
    } else {
      forall i | 0 <= i < |x.kids| ensures Twin(Halt(x).kids[i], Halt(y).kids[i]) {
        HaltTwin(x.kids[i], y.kids[i]);
      }
    }
  }

  lemma {:induction false} DualParts(x: Node, y: Node)
    requires WellFormed(y) && Twin(x, y) && IsPlain(x.op) && y.op.Inverter?
    ensures var f := y.kids[0];
            && WellFormed(f) && IsDual(x, f)
            && forall i :: 0 <= i < |x.kids| ==>
                 WellFormed(f.kids[i]) && WellFormed(f.kids[i].kids[0]) && Twin(x.kids[i], f.kids[i].kids[0])
  {
    var f := y.kids[0];
    forall i | 0 <= i < |x.kids| ensures WellFormed(f.kids[i]) && WellFormed(f.kids[i].kids[0]) {
      assert WellFormed(f);
    }
  }

  // ---------------------------------------------------------------- statuses under negation

  function Negated(ss: seq<Status>): (r: seq<Status>)
    ensures |r| == |ss| && forall i :: 0 <= i < |ss| ==> r[i] == Invert(ss[i])
  {
    seq(|ss|, i requires 0 <= i < |ss| => Invert(ss[i]))
  }

  lemma {:induction false} VerdictNegated(pass: Status, ss: seq<Status>)
    requires IsFinished(pass)
    ensures Verdict(Invert(pass), Negated(ss)) == Invert(Verdict(pass, ss))
  {
    if ss != [] {
      VerdictNegated(pass, ss[1..]);
      assert Negated(ss)[1..] == Negated(ss[1..]);
    }
  }

  lemma {:induction false} PickNegated(ss: seq<Status>)
    ensures Pick(Negated(ss)) == Pick(ss)
  {
    if ss != [] {
      PickNegated(ss[1..]);
      assert Negated(ss)[1..] == Negated(ss[1..]);
    }
  }

  // ---------------------------------------------------------------- ticks, one node at a time

  lemma {:induction false} InverterTick(a: Actions, n: Node, w: World)
    requires WellFormed(n) && n.op.Inverter? && !n.halted && NeedsExecute(n.status)
    requires NeedsExecute(n.kids[0].status)
    ensures var s, t := ExecuteSingle(a, n, w), ExecuteSingle(a, n.kids[0], w);
            s.node == n.(status := Invert(t.node.status), kids := [t.node]) && s.world == t.world
  {
    var p := Preamble(a, n, w);
    var t := ExecuteSingle(a, n.kids[0], w);
    assert p.world == w;
    assert NextCall(p.node, w) == Some(CallKid(p.node, 0, w));
    assert n.kids[0 := t.node] == [t.node];
  }

  lemma {:induction false} PlainTick(a: Actions, n: Node, w: World)
    requires WellFormed(n) && IsPlain(n.op) && !n.halted && NeedsExecute(n.status)
    ensures var s := ExecuteSingle(a, n, w);
            var k := Pick(Statuses(n.kids));
            if k < |n.kids| then
              var t := ExecuteSingle(a, n.kids[k], w);
              var kids := n.kids[k := t.node];
              s.node == n.(status := Verdict(Pass(n.op), Statuses(kids)), kids := kids) && s.world == t.world
            else
              s.node == n.(status := Verdict(Pass(n.op), Statuses(n.kids))) && s.world == w
  {
    var p := Preamble(a, n, w);
    assert p.world == w && p.node.kids == n.kids;
    var k := Pick(Statuses(n.kids));
    assert NextCall(p.node, w) == if k < |n.kids| then Some(CallKid(p.node, k, w)) else None;
  }

  /** A halted node only initialises. */
  lemma {:induction false} HaltedTick(a: Actions, n: Node, w: World)
    requires WellFormed(n) && n.halted
    ensures var p := Preamble(a, n, w);
            ExecuteSingle(a, n, w).node == p.node && ExecuteSingle(a, n, w).world == p.world
  {
  }

  lemma {:induction false} HaltedTickTwin(a: Actions, x: Node, y: Node, w: World)
    requires WellFormed(x) && WellFormed(y) && Twin(x, y) && x.halted
    ensures var s, t := ExecuteSingle(a, x, w), ExecuteSingle(a, y, w); Twin(s.node, t.node) && s.world == t.world
  {
    HaltedTick(a, x, w);
    HaltedTick(a, y, w);
  }

  /** The rewritten node after its inner compound executed the k-th inverter. */
  lemma {:induction false} DualUpdate(x: Node, y: Node, k: nat, u: Node, v: Node, s: Status)
    requires Live(x) && Twin(x, y) && IsPlain(x.op) && y.op.Inverter?
    requires k < |x.kids| && Twin(u, v) && !u.halted
    ensures var f := y.kids[0];
            var inverter := f.kids[k].(status := Invert(u.status), kids := [v]);
            Twin(x.(status := s, kids := x.kids[k := u]),
                 y.(status := s, kids := [f.(status := Invert(s), kids := f.kids[k := inverter])]))
  {
    var f := y.kids[0];
    var inverter := f.kids[k].(status := Invert(u.status), kids := [v]);
    var x' := x.(status := s, kids := x.kids[k := u]);
    var f' := f.(status := Invert(s), kids := f.kids[k := inverter]);
    assert IsDual(x', f');
    forall i | 0 <= i < |x.kids| ensures Twin(x'.kids[i], f'.kids[i].kids[0]) {
      if i != k {
        assert Twin(x.kids[i], f.kids[i].kids[0]);
      }
    }
  }

  lemma {:induction false} InvertTwice(s: Status)
    ensures Invert(Invert(s)) == s
  {
  }

  /** How a tick of the rewritten node comes about: inverter, compound, inverter, child. */
  lemma {:induction false} DualCall(a: Actions, x: Node, y: Node, w: World)
    requires WellFormed(x) && WellFormed(y) && Live(x) && Twin(x, y)
    requires IsPlain(x.op) && y.op.Inverter? && NeedsExecute(x.status)
    ensures var f := y.kids[0];
            var k := Pick(Statuses(x.kids));
            && WellFormed(f) && Pick(Statuses(f.kids)) == k && Statuses(f.kids) == Negated(Statuses(x.kids))
            && var t := ExecuteSingle(a, f, w);
            && ExecuteSingle(a, y, w).node == y.(status := Invert(t.node.status), kids := [t.node])
            && ExecuteSingle(a, y, w).world == t.world
  {
    DualParts(x, y);
    var f := y.kids[0];
    assert Statuses(f.kids) == Negated(Statuses(x.kids));
    PickNegated(Statuses(x.kids));
    InverterTick(a, y, w);
  }

  lemma {:induction false} NegatedUpdate(xs: seq<Node>, fs: seq<Node>, k: nat, u: Node, v: Node)
    requires |xs| == |fs| && k < |xs| && v.status == Invert(u.status)
    requires forall i :: 0 <= i < |xs| ==> fs[i].status == Invert(xs[i].status)
    ensures Statuses(fs[k := v]) == Negated(Statuses(xs[k := u]))
  {
  }

  lemma {:induction false} InnerCall(a: Actions, f: Node, w: World, k: nat)
    requires WellFormed(f) && IsPlain(f.op) && !f.halted && NeedsExecute(f.status)
    requires k == Pick(Statuses(f.kids)) && k < |f.kids| && f.kids[k].op.Inverter? && !f.kids[k].halted
    requires |f.kids[k].kids| == 1 && WellFormed(f.kids[k].kids[0]) && NeedsExecute(f.kids[k].kids[0].status)
    ensures var t := ExecuteSingle(a, f.kids[k].kids[0], w);
            var inverter := f.kids[k].(status := Invert(t.node.status), kids := [t.node]);
            var kids := f.kids[k := inverter];
            && ExecuteSingle(a, f, w).node == f.(status := Verdict(Pass(f.op), Statuses(kids)), kids := kids)
            && ExecuteSingle(a, f, w).world == t.world
  {
    PlainTick(a, f, w);
    InverterTick(a, f.kids[k], w);
  }

  /** The verdict of the inner compound f is the negation of that of the original. */
  lemma {:induction false} InnerVerdict(x: Node, f: Node, k: nat, u: Node, inverter: Node)
    requires IsPlain(x.op) && IsDual(x, f) && !x.halted && k < |x.kids| && inverter.status == Invert(u.status)
    ensures Verdict(Pass(f.op), Statuses(f.kids[k := inverter])) ==
      Invert(Verdict(Pass(x.op), Statuses(x.kids[k := u])))
  {
    NegatedUpdate(x.kids, f.kids, k, u, inverter);
    VerdictNegated(Pass(x.op), Statuses(x.kids[k := u]));
  }

  /** The rewritten node does what the original does. */
  lemma {:induction false} DualTick(a: Actions, x: Node, y: Node, w: World, k: nat)
    requires WellFormed(x) && WellFormed(y) && Live(x) && Twin(x, y)
    requires IsPlain(x.op) && y.op.Inverter? && NeedsExecute(x.status)
    requires k == Pick(Statuses(x.kids)) && k < |x.kids| && WellFormed(y.kids[0].kids[k].kids[0])
    requires var s := ExecuteSingle(a, x.kids[k], w);
             var t := ExecuteSingle(a, y.kids[0].kids[k].kids[0], w);
             Twin(s.node, t.node) && s.world == t.world && !s.node.halted
    ensures var s, t := ExecuteSingle(a, x, w), ExecuteSingle(a, y, w); Twin(s.node, t.node) && s.world == t.world
  {
    var f := y.kids[0];
    var u := ExecuteSingle(a, x.kids[k], w).node;
    var v := ExecuteSingle(a, f.kids[k].kids[0], w).node;
    var s := Verdict(Pass(x.op), Statuses(x.kids[k := u]));
    DualCall(a, x, y, w);
    DualParts(x, y);
    InnerCall(a, f, w, k);
    InnerVerdict(x, f, k, u, f.kids[k].(status := Invert(u.status), kids := [v]));
    PlainTick(a, x, w);
    InvertTwice(s);
    DualUpdate(x, y, k, u, v, s);
  }

  /** The same when no child is left to execute. */
  lemma {:induction false} DualTickAlone(a: Actions, x: Node, y: Node, w: World)
    requires WellFormed(x) && WellFormed(y) && Live(x) && Twin(x, y)
    requires IsPlain(x.op) && y.op.Inverter? && NeedsExecute(x.status) && Pick(Statuses(x.kids)) == |x.kids|
    ensures var s, t := ExecuteSingle(a, x, w), ExecuteSingle(a, y, w); Twin(s.node, t.node) && s.world == t.world
  {
    var f := y.kids[0];
    var s := Verdict(Pass(x.op), Statuses(x.kids));
    DualCall(a, x, y, w);
    PlainTick(a, f, w);
    PlainTick(a, x, w);
    VerdictNegated(Pass(x.op), Statuses(x.kids));
    InvertTwice(s);
    DualRename(x, y, s);
  }

  lemma {:induction false} DualRename(x: Node, y: Node, s: Status)
    requires Twin(x, y) && IsPlain(x.op) && y.op.Inverter?
    ensures Twin(x.(status := s), y.(status := s, kids := [y.kids[0].(status := Invert(s))]))
  {
  }

  // ---------------------------------------------------------------- nodes of the same kind

  lemma {:induction false} AgainTwin(x: Node, y: Node, w: World)
    requires WellFormed(x) && WellFormed(y) && |x.kids| == 1 && |y.kids| == 1 && Twin(x.kids[0], y.kids[0])
    ensures Twin(CallAgain(x, w).child, CallAgain(y, w).child)
  {
    ResetTwin(x.kids[0], y.kids[0]);
  }

  lemma {:induction false} NextCallTwin(x: Node, y: Node, w: World)
    requires WellFormed(x) && WellFormed(y) && x.op == y.op && x.loc == y.loc && TwinAll(x.kids, y.kids)
    ensures match (NextCall(x, w), NextCall(y, w))
            case (None, None) => true
            case (Some(c), Some(d)) => c.k == d.k && c.world == d.world && Twin(c.child, d.child)
            case _ => false
  {
    if x.op.Choice? {
      ChosenTwin(x.kids, y.kids, x.loc.picked);
    } else if IsDecorator(x.op) {
      assert Twin(x.kids[0], y.kids[0]);
      if x.op.Repeat? {
        AgainTwin(x, y, w);
      } else if x.op.For? && CanIterate(x.op.elementVar, x.loc, w) {
        AgainTwin(x, y, w.(vars := w.vars[x.op.elementVar := x.loc.arr.elems[x.loc.count]]));
      }
    } else {
      TwinStatuses(x.kids, y.kids);
    }
  }

  lemma {:induction false} ChosenTwin(xs: seq<Node>, ys: seq<Node>, picked: seq<nat>)
    requires TwinAll(xs, ys) && forall j :: 0 <= j < |picked| ==> picked[j] < |xs|
    ensures Statuses(Chosen(xs, picked)) == Statuses(Chosen(ys, picked))
  {
    TwinStatuses(Chosen(xs, picked), Chosen(ys, picked));
  }

  predicate TwinBody(b: Body, d: Body) {
    b.status == d.status && b.world == d.world && b.loc == d.loc && TwinAll(b.kids, d.kids)
  }

  lemma {:induction false} AloneTwin(a: Actions, x: Node, y: Node, w: World)
    requires WellFormed(x) && WellFormed(y) && x.op == y.op && x.loc == y.loc && TwinAll(x.kids, y.kids)
    requires NextCall(x, w).None? && NextCall(y, w).None?
    ensures TwinBody(Alone(a, x, w), Alone(a, y, w))
  {
    TwinStatuses(x.kids, y.kids);
    if x.op.Choice? {
      ChosenTwin(x.kids, y.kids, x.loc.picked);
    }
  }

  lemma {:induction false} ConcludeTwin(x: Node, y: Node, c: Call, d: Call, s: Step, t: Step)
    requires WellFormed(x) && WellFormed(y) && x.op == y.op && x.loc == y.loc && TwinAll(x.kids, y.kids)
    requires c.k == d.k && c.k < |x.kids| && !x.op.Action?
    requires Twin(s.node, t.node) && s.world == t.world
    ensures TwinBody(Conclude(x, c, s), Conclude(y, d, t))
  {
    var xs, ys := x.kids[c.k := s.node], y.kids[c.k := t.node];
    assert TwinAll(xs, ys);
    TwinStatuses(xs, ys);
    forall i | 0 <= i < |xs| ensures Twin(ResetAll(xs)[i], ResetAll(ys)[i]) {
      ResetTwin(xs[i], ys[i]);
    }
    if x.op.Choice? {
      ChosenTwin(xs, ys, x.loc.picked);
    }
  }

  /** Twins stay twins under a tick, and do the same to the world. */
  lemma {:induction false} TickTwin(a: Actions, x: Node, y: Node, w: World)
    requires WellFormed(x) && WellFormed(y) && Twin(x, y) && Live(x)
    ensures var s, t := ExecuteSingle(a, x, w), ExecuteSingle(a, y, w); Twin(s.node, t.node) && s.world == t.world
    decreases Size(x)
  {
    if IsPlain(x.op) && y.op.Inverter? {
      if NeedsExecute(x.status) {
        DualParts(x, y);
        var k := Pick(Statuses(x.kids));
        if k < |x.kids| {
          KidSize(x.kids, k);
          TickTwin(a, x.kids[k], y.kids[0].kids[k].kids[0], w);
          TickKeepsTree(a, x.kids[k], w);
          DualTick(a, x, y, w, k);
        } else {
          DualTickAlone(a, x, y, w);
        }
      }
    } else {
      var p, q := Preamble(a, x, w), Preamble(a, y, w);
      if NeedsExecute(p.node.status) {
        BodyTwin(a, p.node, q.node, p.world);
      }
    }
  }

  lemma {:induction false} BodyTwin(a: Actions, x: Node, y: Node, w: World)
    requires WellFormed(x) && WellFormed(y) && x.op == y.op && x.loc == y.loc && TwinAll(x.kids, y.kids)
    requires forall i :: 0 <= i < |x.kids| ==> Live(x.kids[i])
    ensures TwinBody(ExecuteImpl(a, x, w), ExecuteImpl(a, y, w))
    decreases Size(x), 0
  {
    NextCallTwin(x, y, w);
    match (NextCall(x, w), NextCall(y, w)) {
      case (None, None) => AloneTwin(a, x, y, w);
      case (Some(c), Some(d)) =>
        ResetIsFresh(x.kids[c.k]);
        TickTwin(a, c.child, d.child, c.world);
        ConcludeTwin(x, y, c, d, ExecuteSingle(a, c.child, c.world), ExecuteSingle(a, d.child, d.world));
    }
  }

  // ---------------------------------------------------------------- whole runs

  lemma {:induction false} RunTwin(a: Actions, c: Config, d: Config, cmds: seq<Command>)
    requires RootOk(c.root) && WellFormed(d.root) && Twin(c.root, d.root) && c.world == d.world
    ensures var r, s := Run(a, c, cmds), Run(a, d, cmds); Twin(r.root, s.root) && r.world == s.world
    decreases |cmds|
  {
    if cmds != [] {
      match cmds[0] {
        case Tick =>
          if c.root.halted {
            HaltedTickTwin(a, c.root, d.root, c.world);
          } else {
            TickTwin(a, c.root, d.root, c.world);
          }
        case ResetTree => ResetTwin(c.root, d.root);
        case HaltTree => HaltTwin(c.root, d.root);
        case Write(_, _) =>
      }
      ApplyWellFormed(a, c, cmds[0]);
      ApplyWellFormed(a, d, cmds[0]);
      ApplyKeepsRootOk(a, c, cmds[0]);
      RunTwin(a, Apply(a, c, cmds[0]), Apply(a, d, cmds[0]), cmds[1..]);
    }
  }

  lemma {:induction false} FreshTwin(p: Prog, chosen: set<nat>)
    requires ProgOk(p)
    ensures ProgOk(Dualize(p, chosen)) && Twin(Fresh(p), Fresh(Dualize(p, chosen)))
    decreases p
  {
    var q := Dualize(p, chosen);
    forall i | 0 <= i < |p.kids|
      ensures ProgOk(Dualize(p.kids[i], chosen)) && Twin(Fresh(p.kids[i]), Fresh(Dualize(p.kids[i], chosen)))
    {
      FreshTwin(p.kids[i], chosen);
    }
    if IsPlain(p.op) && p.id in chosen {
      FreshDual(p, chosen, q.kids[0]);
      assert Fresh(q).kids == [Fresh(q.kids[0])];
    }
  }

  lemma {:induction false} FreshDual(p: Prog, chosen: set<nat>, f: Prog)
    requires ProgOk(p) && IsPlain(p.op)
    requires f.op == Dual(p.op) && |f.kids| == |p.kids|
    requires forall i :: 0 <= i < |p.kids| ==> f.kids[i] == Prog(p.kids[i].id, Inverter, [Dualize(p.kids[i], chosen)])
    requires forall i :: 0 <= i < |p.kids| ==> ProgOk(Dualize(p.kids[i], chosen))
    ensures ProgOk(f) && IsDual(Fresh(p), Fresh(f))
    ensures forall i :: 0 <= i < |p.kids| ==> Fresh(f).kids[i].kids == [Fresh(Dualize(p.kids[i], chosen))]
  {
    forall i | 0 <= i < |p.kids|
      ensures ProgOk(f.kids[i]) && Fresh(f).kids[i] == Fresh(f.kids[i])
      ensures Fresh(f.kids[i]).kids == [Fresh(Dualize(p.kids[i], chosen))]
      ensures Fresh(p).kids[i].status == NotStarted && !Fresh(p).kids[i].halted
    {
    }
  }

  /** De Morgan's law for behaviour trees: rewriting any set of Sequences and Fallbacks, anywhere
      in any procedure, changes neither the status of the root nor the workspace nor the order in
      which actions are executed, at any point of any run, whatever the actions report. */
  lemma {:induction false} DeMorganHolds(a: Actions, p: Prog, chosen: set<nat>, w: World, cmds: seq<Command>)
    requires ProgOk(p)
    ensures ProgOk(Dualize(p, chosen))
    ensures var r, s := RunFrom(a, p, w, cmds), RunFrom(a, Dualize(p, chosen), w, cmds);
            r.root.status == s.root.status && r.root.halted == s.root.halted && r.world == s.world
  {
    FreshTwin(p, chosen);
    FreshStart(p);
    FreshIsShaped(Fresh(p));
    FreshStart(Dualize(p, chosen));
    RunTwin(a, Started(p, w), Started(Dualize(p, chosen), w), cmds);
  }
}
