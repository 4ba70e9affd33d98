/** A reset tree behaves as a freshly set-up one. */
module ResetFresh {
  import opened ExecutionStatus
  import opened Workspaces
  import opened Engine
  import opened Runs

  /** The private fields an instruction of this kind reads after its initialisation. */
  predicate SameFields(op: Op, x: Local, y: Local) {
    match op
    case Action(_) => x.mem == y.mem
    case Repeat(_) => x.count == y.count && x.max == y.max
    case For(_, _) => x.count == y.count && x.arr == y.arr
    case _ => true
  }

  /** Two trees no observer can tell apart: all they may differ in are fields left over from an
      earlier run of a node that has not started again, or that nothing reads any more. */
  predicate Alike(x: Node, y: Node) {
    && x.id == y.id && x.op == y.op && x.status == y.status && x.halted == y.halted
    && (x.status == NotFinished || x.status == Running ==> SameFields(x.op, x.loc, y.loc))
    && (x.op.Choice? ==> x.loc.picked == y.loc.picked && x.loc.pickedInit == y.loc.pickedInit)
    && |x.kids| == |y.kids|
    && forall i :: 0 <= i < |x.kids| ==> Alike(x.kids[i], y.kids[i])
  }

  predicate AlikeAll(xs: seq<Node>, ys: seq<Node>) {
    |xs| == |ys| && forall i :: 0 <= i < |xs| ==> Alike(xs[i], ys[i])
  }

  lemma {:induction false} SameStatuses(xs: seq<Node>, ys: seq<Node>)
    requires AlikeAll(xs, ys)
    ensures Statuses(xs) == Statuses(ys)
  {
  }

  lemma {:induction false} ResetAlike(x: Node, y: Node)
    requires Alike(x, y)
    ensures Alike(Reset(x), Reset(y)) && ResetLog(x) == ResetLog(y)
    decreases x, 0
  {
    ResetAllAlike(x.kids, y.kids);
  }

  lemma {:induction false} ResetAllAlike(xs: seq<Node>, ys: seq<Node>)
    requires AlikeAll(xs, ys)
    ensures AlikeAll(ResetAll(xs), ResetAll(ys)) && ResetLogAll(xs) == ResetLogAll(ys)
    decreases xs, 0
  {
    forall i | 0 <= i < |xs| ensures Alike(ResetAll(xs)[i], ResetAll(ys)[i]) {
      ResetAlike(xs[i], ys[i]);
    }
    if xs != [] {
      ResetAlike(xs[0], ys[0]);
      ResetAllAlike(xs[1..], ys[1..]);
    }
  }

  lemma {:induction false} HaltAlike(x: Node, y: Node)
    requires Alike(x, y)
    ensures Alike(Halt(x), Halt(y))
    decreases x
  {
    forall i | 0 <= i < |x.kids| ensures Alike(Halt(x).kids[i], Halt(y).kids[i]) {
      HaltAlike(x.kids[i], y.kids[i]);
    }
  }

  /** Initialisation overwrites every left-over field that a later tick reads. */
  lemma {:induction false} PreambleAlike(a: Actions, x: Node, y: Node, w: World)
    requires WellFormed(x) && WellFormed(y) && Alike(x, y)
    ensures var p, q := Preamble(a, x, w), Preamble(a, y, w);
            Alike(p.node, q.node) && p.world == q.world && p.log == q.log
  {
  }

  lemma {:induction false} ChosenAlike(xs: seq<Node>, ys: seq<Node>, picked: seq<nat>)
    requires AlikeAll(xs, ys) && forall j :: 0 <= j < |picked| ==> picked[j] < |xs|
    ensures Statuses(Chosen(xs, picked)) == Statuses(Chosen(ys, picked))
  {
  }

  lemma {:induction false} AgainAlike(x: Node, y: Node, w: World)
    requires WellFormed(x) && WellFormed(y) && |x.kids| == 1 && |y.kids| == 1 && Alike(x.kids[0], y.kids[0])
    ensures Alike(CallAgain(x, w).child, CallAgain(y, w).child) && CallAgain(x, w).log == CallAgain(y, w).log
  {
    ResetAlike(x.kids[0], y.kids[0]);
  }

  predicate AlikeCalls(x: Node, y: Node, w: World)
    requires WellFormed(x) && WellFormed(y)
  {
    match (NextCall(x, w), NextCall(y, w))
    case (None, None) => true
    case (Some(c), Some(d)) => c.k == d.k && c.world == d.world && c.log == d.log && Alike(c.child, d.child)
    case _ => false
  }

  lemma {:induction false} DecoratorCallAlike(x: Node, y: Node, w: World)
    requires WellFormed(x) && WellFormed(y) && Alike(x, y) && x.status != NotStarted && NeedsExecute(x.status)
    requires IsDecorator(x.op)
    ensures AlikeCalls(x, y, w)
  {
    assert Alike(x.kids[0], y.kids[0]);
    if x.op.Repeat? {
      AgainAlike(x, y, w);
    } else if x.op.For? && CanIterate(x.op.elementVar, x.loc, w) {
      AgainAlike(x, y, w.(vars := w.vars[x.op.elementVar := x.loc.arr.elems[x.loc.count]]));
    }
  }

  lemma {:induction false} ChoiceCallAlike(x: Node, y: Node, w: World)
    requires WellFormed(x) && WellFormed(y) && Alike(x, y) && x.status != NotStarted && NeedsExecute(x.status)
    requires x.op.Choice?
    ensures AlikeCalls(x, y, w)
  {
    ChosenAlike(x.kids, y.kids, x.loc.picked);
  }

  lemma {:induction false} NextCallAlike(x: Node, y: Node, w: World)
    requires WellFormed(x) && WellFormed(y) && Alike(x, y) && x.status != NotStarted && NeedsExecute(x.status)
    ensures AlikeCalls(x, y, w)
  {
    if x.op.Choice? {
      ChoiceCallAlike(x, y, w);
    } else if IsDecorator(x.op) {
      DecoratorCallAlike(x, y, w);
    } else {
      SameStatuses(x.kids, y.kids);
    }
  }

  predicate AlikeBody(op: Op, b: Body, d: Body) {
    && b.status == d.status && b.world == d.world && b.log == d.log && AlikeAll(b.kids, d.kids)
    && (NeedsExecute(b.status) ==> SameFields(op, b.loc, d.loc))
    && (op.Choice? ==> b.loc.picked == d.loc.picked && b.loc.pickedInit == d.loc.pickedInit)
  }

  lemma {:induction false} AloneAlike(a: Actions, x: Node, y: Node, w: World)
    requires WellFormed(x) && WellFormed(y) && Alike(x, y) && x.status != NotStarted && NeedsExecute(x.status)
    requires NextCall(x, w).None? && NextCall(y, w).None?
    ensures AlikeBody(x.op, Alone(a, x, w), Alone(a, y, w))
  {
    SameStatuses(x.kids, y.kids);
    if x.op.Choice? {
      ChosenAlike(x.kids, y.kids, x.loc.picked);
    }
  }

  lemma {:induction false} ReactiveAlike(pass: Status, x: Node, y: Node, xs: seq<Node>, ys: seq<Node>, k: nat,
      w: World, log: seq<Event>)
    requires AlikeAll(xs, ys) && k < |xs|
    ensures var b, d := ConcludeReactive(pass, x.loc, xs, k, w, log), ConcludeReactive(pass, y.loc, ys, k, w, log);
            b.status == d.status && b.world == d.world && b.log == d.log && AlikeAll(b.kids, d.kids)
  {
    SameStatuses(xs, ys);
    ResetAllAlike(xs, ys);
    ResetAllAlike(xs[..k], ys[..k]);
    ResetAllAlike(xs[k + 1..], ys[k + 1..]);
  }

  lemma {:induction false} ConcludeAlike(x: Node, y: Node, c: Call, d: Call, s: Step, t: Step)
    requires WellFormed(x) && WellFormed(y) && Alike(x, y) && x.status != NotStarted && NeedsExecute(x.status)
    requires c.k == d.k && c.k < |x.kids| && c.log == d.log && !x.op.Action?
    requires Alike(s.node, t.node) && s.world == t.world && s.log == t.log
    ensures AlikeBody(x.op, Conclude(x, c, s), Conclude(y, d, t))
  {
    var xs, ys := x.kids[c.k := s.node], y.kids[c.k := t.node];
    assert AlikeAll(xs, ys);
    if x.op.ReactiveSequence? || x.op.ReactiveFallback? {
      ReactiveAlike(if x.op.ReactiveSequence? then Success else Failure, x, y, xs, ys, c.k, s.world, c.log + s.log);
    } else if x.op.Choice? {
      ChosenAlike(xs, ys, x.loc.picked);
    } else {
      SameStatuses(xs, ys);
    }
  }

  /** One tick of two alike trees does the same, step by step. */
  lemma {:induction false} TickAlike(a: Actions, x: Node, y: Node, w: World)
    requires WellFormed(x) && WellFormed(y) && Alike(x, y)
    ensures var s, t := ExecuteSingle(a, x, w), ExecuteSingle(a, y, w);
            Alike(s.node, t.node) && s.world == t.world && s.log == t.log
    decreases Size(x)
  {
    PreambleAlike(a, x, y, w);
    var p, q := Preamble(a, x, w), Preamble(a, y, w);
    if NeedsExecute(p.node.status) && !x.halted {
      BodyAlike(a, p.node, q.node, p.world);
    }
  }

  lemma {:induction false} BodyAlike(a: Actions, x: Node, y: Node, w: World)
    requires WellFormed(x) && WellFormed(y) && Alike(x, y) && x.status != NotStarted && NeedsExecute(x.status)
    ensures AlikeBody(x.op, ExecuteImpl(a, x, w), ExecuteImpl(a, y, w))
    decreases Size(x), 0
  {
    NextCallAlike(x, y, w);
    match (NextCall(x, w), NextCall(y, w)) {
      case (None, None) => AloneAlike(a, x, y, w);
      case (Some(c), Some(d)) =>
        TickAlike(a, c.child, d.child, c.world);
        ConcludeAlike(x, y, c, d, ExecuteSingle(a, c.child, c.world), ExecuteSingle(a, d.child, d.world));
    }
  }

  lemma {:induction false} RunAlike(a: Actions, c: Config, d: Config, cmds: seq<Command>)
    requires WellFormed(c.root) && WellFormed(d.root)
    requires Alike(c.root, d.root) && c.world == d.world && c.log == d.log
    ensures var r, s := Run(a, c, cmds), Run(a, d, cmds);
            Alike(r.root, s.root) && r.world == s.world && r.log == s.log
    decreases |cmds|
  {
    if cmds != [] {
      match cmds[0] {
        case Tick => TickAlike(a, c.root, d.root, c.world);
        case ResetTree => ResetAlike(c.root, d.root);
        case HaltTree => HaltAlike(c.root, d.root);
        case Write(_, _) =>
      }
      ApplyWellFormed(a, c, cmds[0]);
      ApplyWellFormed(a, d, cmds[0]);
      RunAlike(a, Apply(a, c, cmds[0]), Apply(a, d, cmds[0]), cmds[1..]);
    }
  }

  lemma {:induction false} ResetLooksFresh(n: Node)
    ensures Alike(Reset(n), Fresh(Skel(n)))
    decreases n
  {
    forall i | 0 <= i < |n.kids| ensures Alike(Reset(n).kids[i], Fresh(Skel(n)).kids[i]) {
      ResetLooksFresh(n.kids[i]);
      assert Skel(n).kids[i] == Skel(n.kids[i]);
      assert ResetAll(n.kids)[i] == Reset(n.kids[i]);
    }
  }

  lemma {:induction false} WellFormedProg(n: Node)
    requires WellFormed(n)
    ensures ProgOk(Skel(n))
    decreases n
  {
    forall i | 0 <= i < |n.kids| ensures ProgOk(Skel(n).kids[i]) {
      WellFormedProg(n.kids[i]);
    }
  }

  /** Reset equals fresh: from any state of any tree, whatever happens after a reset is reported,
      written and left behind exactly as by a freshly set-up tree on the same workspace. */
  lemma {:induction false} ResetEqualsFresh(a: Actions, n: Node, w: World, cmds: seq<Command>)
    requires WellFormed(n)
    ensures WellFormed(Reset(n)) && ProgOk(Skel(n))
    ensures var r := Run(a, Config(Reset(n), w, []), cmds);
            var s := RunFrom(a, Skel(n), w, cmds);
            Alike(r.root, s.root) && r.world == s.world && r.log == s.log
  {
    ResetWellFormed(n);
    WellFormedProg(n);
    FreshStart(Skel(n));
    ResetLooksFresh(n);
    RunAlike(a, Config(Reset(n), w, []), Started(Skel(n), w), cmds);
  }
}
