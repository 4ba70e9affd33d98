/** GetNextInstructions predicts the next tick. */
module Prediction {
  import opened ExecutionStatus
  import opened Workspaces
  import opened Engine
  import opened Shape
  import opened Runs
  import opened Trees

  // ---------------------------------------------------------------- NextInstructions

  /** The first child that has not reported `pass`, when it can be executed by a tick. */
  function NextOf(pass: Status, kids: seq<Node>): (r: seq<Node>)
    ensures forall i :: 0 <= i < |r| ==> r[i] in kids
  {
    if kids == [] then []
    else if kids[0].status == pass then NextOf(pass, kids[1..])
    else if ReadyForExecute(kids[0].status) then [kids[0]]
    else []
  }

  function NextInstructions(n: Node): (r: seq<Node>)
    requires WellFormed(n)
    ensures forall i :: 0 <= i < |r| ==> r[i] in n.kids
  {
    match n.op
    case Action(_) => []
    case Sequence => NextOf(Success, n.kids)
    case Fallback => NextOf(Failure, n.kids)
    case ReactiveSequence => NextOf(Success, n.kids)
    case ReactiveFallback => NextOf(Failure, n.kids)
    case Choice(_) => NextOf(Success, Chosen(n.kids, n.loc.picked))
    case _ => n.kids
  }

  /** CreateNextInstructionTree: the unfolding of NextInstructions. */
  function NextTree(n: Node): Tree
    requires WellFormed(n)
    decreases n
  {
    var next := NextInstructions(n);
    Tree(n.id, seq(|next|, i requires 0 <= i < |next| => NextTree(next[i])))
  }

  /** GetNextInstructions of a procedure with root n. */
  function GetNextInstructions(n: Node): seq<nat>
    requires WellFormed(n)
  {
    if ReadyForExecute(n.status) then Ids(Breadth([NextTree(n)])) else []
  }

  /** GetNextLeaves of a procedure with root n. */
  function GetNextLeaves(n: Node): seq<nat>
    requires WellFormed(n)
  {
    if ReadyForExecute(n.status) then Childless(Breadth([NextTree(n)])) else []
  }

  // ---------------------------------------------------------------- what a tick really executes

  /** The nodes whose ExecuteSingle was called, in order. */
  function ExecutedIds(log: seq<Event>): seq<nat> {
    if log == [] then []
    else (if log[0].Ticked? then [log[0].id] else []) + ExecutedIds(log[1..])
  }

  lemma {:induction false} ExecutedAppend(l: seq<Event>, m: seq<Event>)
    ensures ExecutedIds(l + m) == ExecutedIds(l) + ExecutedIds(m)
  {
    if l == [] {
      assert l + m == m;
    } else {
      assert (l + m)[1..] == l[1..] + m;
      ExecutedAppend(l[1..], m);
      var first := if l[0].Ticked? then [l[0].id] else [];
      assert first + (ExecutedIds(l[1..]) + ExecutedIds(m)) == first + ExecutedIds(l[1..]) + ExecutedIds(m);
    }
  }

  lemma {:induction false} ResetExecutesNothing(n: Node)
    ensures ExecutedIds(ResetLog(n)) == []
    decreases n, 0
  {
    ResetsExecuteNothing(n.kids);
    ExecutedAppend(ResetLogAll(n.kids), if n.status != NotStarted then [Notified(n.id, NotStarted)] else []);
  }

  lemma {:induction false} ResetsExecuteNothing(kids: seq<Node>)
    ensures ExecutedIds(ResetLogAll(kids)) == []
    decreases kids
  {
    if kids != [] {
      ResetExecutesNothing(kids[0]);
      ResetsExecuteNothing(kids[1..]);
      ExecutedAppend(ResetLog(kids[0]), ResetLogAll(kids[1..]));
    }
  }

  /** Trees without counting decorators. */
  predicate Uncounted(n: Node) {
    !n.op.Repeat? && !n.op.For? && forall i :: 0 <= i < |n.kids| ==> Uncounted(n.kids[i])
  }

  /** The nodes a tick of n will execute: n, then what its child in turn will execute. */
  function Path(n: Node): seq<nat>
    requires WellFormed(n)
    decreases n
  {
    var next := NextInstructions(n);
    [n.id] + if next == [] then [] else Path(next[0])
  }

  lemma {:induction false} NextOfAt(pass: Status, kids: seq<Node>, k: nat)
    requires k < |kids| && kids[k].status != pass && forall i :: 0 <= i < k ==> kids[i].status == pass
    ensures NextOf(pass, kids) == if ReadyForExecute(kids[k].status) then [kids[k]] else []
  {
    if k > 0 {
      NextOfAt(pass, kids[1..], k - 1);
    }
  }

  /** In a state a tree can be in, NextInstructions names exactly the child the tick calls. */
  lemma {:induction false} NextIsCalled(a: Actions, n: Node, w: World)
    requires WellFormed(n) && Shaped(n) && ReadyForExecute(n.status) && !n.op.Repeat? && !n.op.For?
    ensures var p := Preamble(a, n, w);
            !n.op.Action? ==>
              && NeedsExecute(p.node.status)
              && (match NextCall(p.node, p.world)
                  case None => NextInstructions(n) == []
                  case Some(c) =>
                    NextInstructions(n) == [c.child] && ReadyForExecute(c.child.status) && c.child == n.kids[c.k])
  {
    var p := Preamble(a, n, w).node;
    PreambleEnters(a, n, w);
    assert n.status == NotStarted ==> AllFresh(n);
    if n.status == NotStarted {
      FreshKids(n);
    }
    match n.op {
      case Sequence => CompoundNext(n, p, Success);
      case Fallback => CompoundNext(n, p, Failure);
      case ReactiveSequence => CompoundNext(n, p, Success);
      case ReactiveFallback => CompoundNext(n, p, Failure);
      case Choice(_) => ChoiceNext(n, p);
      case _ =>
    }
  }

  lemma {:induction false} CompoundNext(n: Node, p: Node, pass: Status)
    requires IsFinished(pass) && p.kids == n.kids && ReadyForExecute(n.status)
    requires ReactiveProgress(pass, Statuses(n.kids)) || Progress(pass, Statuses(n.kids))
    requires n.status == Verdict(pass, Statuses(n.kids))
      || forall i :: 0 <= i < |n.kids| ==> n.kids[i].status == NotStarted
    ensures var k := Pick(Statuses(n.kids));
            k < |n.kids| && NextOf(pass, n.kids) == [n.kids[k]] && ReadyForExecute(n.kids[k].status)
  {
    var ss := Statuses(n.kids);
    var k := Pick(ss);
    VerdictAt(pass, ss, k);
    NextOfAt(pass, n.kids, k);
  }

  lemma {:induction false} ChoiceNext(n: Node, p: Node)
    requires WellFormed(n) && Shaped(n) && n.op.Choice? && ReadyForExecute(n.status)
    requires p.kids == n.kids && p.loc == n.loc && ChoiceProgress(n.kids, n.loc.picked)
    requires n.status == NotStarted ==> ListMissing(n.loc)
    ensures var k := Pick(Statuses(Chosen(n.kids, n.loc.picked)));
            if ListMissing(n.loc) || k == |n.loc.picked| then NextInstructions(n) == []
            else NextInstructions(n) == [n.kids[n.loc.picked[k]]] && ReadyForExecute(n.kids[n.loc.picked[k]].status)
  {
    var cs := Chosen(n.kids, n.loc.picked);
    var k := Pick(Statuses(cs));
    if n.loc.picked != [] {
      VerdictAt(Success, Statuses(cs), k);
      NextOfAt(Success, cs, k);
    }
  }

  /** Each tick executes exactly the predicted path. */
  lemma {:induction false} TickFollowsPath(a: Actions, n: Node, w: World)
    requires WellFormed(n) && Shaped(n) && Live(n) && Uncounted(n) && ReadyForExecute(n.status)
    ensures ExecutedIds(ExecuteSingle(a, n, w).log) == Path(n)
    decreases n
  {
    var p := Preamble(a, n, w);
    NextIsCalled(a, n, w);
    if n.op.Action? {
      ActionExecutesItself(a, n, w);
    } else {
      match NextCall(p.node, p.world) {
        case None => AloneExecutesItself(a, n, w);
        case Some(c) =>
          TickFollowsPath(a, c.child, c.world);
          CallExecutesChild(a, n, w, c);
      }
    }
  }

  lemma {:induction false} Surround(id: nat, pre: seq<Event>, mid: seq<Event>, post: seq<Event>)
    requires ExecutedIds(pre) == [] && ExecutedIds(post) == []
    ensures ExecutedIds([Ticked(id)] + pre + mid + post) == [id] + ExecutedIds(mid)
  {
    ExecutedAppend([Ticked(id)] + pre + mid, post);
    ExecutedAppend([Ticked(id)] + pre, mid);
    ExecutedAppend([Ticked(id)], pre);
    assert ExecutedIds([Ticked(id)]) == [id] + ExecutedIds([]);
  }

  lemma {:induction false} NotesExecuteNothing(a: Actions, n: Node, w: World, changed: bool, s: Status)
    ensures ExecutedIds(Preamble(a, n, w).log) == [] && ExecutedIds(NoteIf(changed, n.id, s)) == []
  {
  }

  lemma {:induction false} ActionExecutesItself(a: Actions, n: Node, w: World)
    requires WellFormed(n) && n.op.Action?
    ensures ExecutedIds(ExecuteSingle(a, n, w).log) == [n.id]
  {
    var p := Preamble(a, n, w);
    if NeedsExecute(p.node.status) && !n.halted {
      var b := ExecuteImpl(a, p.node, p.world);
      NotesExecuteNothing(a, n, w, b.status != p.node.status, b.status);
      Surround(n.id, p.log, b.log, NoteIf(b.status != p.node.status, n.id, b.status));
    } else {
      NotesExecuteNothing(a, n, w, false, NotStarted);
      Surround(n.id, p.log, [], []);
      assert [Ticked(n.id)] + p.log + [] + [] == [Ticked(n.id)] + p.log;
    }
  }

  lemma {:induction false} AloneExecutesItself(a: Actions, n: Node, w: World)
    requires WellFormed(n) && !n.halted && NeedsExecute(Preamble(a, n, w).node.status)
    requires NextCall(Preamble(a, n, w).node, Preamble(a, n, w).world).None?
    ensures ExecutedIds(ExecuteSingle(a, n, w).log) == [n.id]
  {
    var p := Preamble(a, n, w);
    var b := ExecuteImpl(a, p.node, p.world);
    assert b.log == [];
    NotesExecuteNothing(a, n, w, b.status != p.node.status, b.status);
    Surround(n.id, p.log, b.log, NoteIf(b.status != p.node.status, n.id, b.status));
  }

  lemma {:induction false} CallExecutesChild(a: Actions, n: Node, w: World, c: Call)
    requires WellFormed(n) && !n.halted && NeedsExecute(Preamble(a, n, w).node.status)
    requires NextCall(Preamble(a, n, w).node, Preamble(a, n, w).world) == Some(c)
    ensures ExecutedIds(ExecuteSingle(a, n, w).log) == [n.id] + ExecutedIds(ExecuteSingle(a, c.child, c.world).log)
  {
    var p := Preamble(a, n, w);
    var s := ExecuteSingle(a, c.child, c.world);
    var b := ExecuteImpl(a, p.node, p.world);
    BodyExecutesChild(p.node, p.world, c, s);
    NotesExecuteNothing(a, n, w, b.status != p.node.status, b.status);
    Surround(n.id, p.log, b.log, NoteIf(b.status != p.node.status, n.id, b.status));
  }

  lemma {:induction false} BodyExecutesChild(n: Node, w: World, c: Call, s: Step)
    requires WellFormed(n) && NextCall(n, w) == Some(c)
    ensures ExecutedIds(Conclude(n, c, s).log) == ExecutedIds(s.log)
  {
    var kids := n.kids[c.k := s.node];
    CallLog(n, w);
    ConcludeLog(n, c, s);
    ResetExecutesNothing(n.kids[c.k]);
    ResetsExecuteNothing(kids[..c.k]);
    ResetsExecuteNothing(kids[c.k + 1..]);
    ExecutedAppend(c.log, s.log);
    ExecutedAppend(c.log + s.log, ResetLogAll(kids[..c.k]));
    ExecutedAppend(c.log + s.log + ResetLogAll(kids[..c.k]), ResetLogAll(kids[c.k + 1..]));
  }

  // ---------------------------------------------------------------- the tree is that path

  /** Ids in a line, each the only child of the one before. */
  function Line(ids: seq<nat>): Tree
    requires ids != []
  {
    Tree(ids[0], if |ids| == 1 then [] else [Line(ids[1..])])
  }

  lemma {:induction false} LineBreadth(ids: seq<nat>)
    requires ids != []
    ensures Ids(Breadth([Line(ids)])) == ids
    ensures Childless(Breadth([Line(ids)])) == [ids[|ids| - 1]]
    decreases |ids|
  {
    var t := Line(ids);
    assert Below([t]) == t.kids + Below([]) == t.kids;
    assert Breadth([t]) == [t] + Breadth(t.kids);
    ChildlessAppend([t], Breadth(t.kids));
    if |ids| > 1 {
      LineBreadth(ids[1..]);
      assert Childless([t]) == [] + Childless([]);
    } else {
      assert Breadth([]) == [];
      assert Childless([t]) == [t.id] + Childless([]);
    }
  }

  lemma {:induction false} NextTreeIsLine(n: Node)
    requires WellFormed(n)
    ensures NextTree(n) == Line(Path(n))
    decreases n
  {
    var next := NextInstructions(n);
    AtMostOneNext(n);
    if next == [] {
      assert NextTree(n).kids == [];
    } else {
      NextTreeIsLine(next[0]);
      assert NextTree(n).kids == [NextTree(next[0])];
      assert Path(n)[1..] == Path(next[0]);
    }
  }

  lemma {:induction false} AtMostOneNext(n: Node)
    requires WellFormed(n)
    ensures |NextInstructions(n)| <= 1
  {
    AtMostOne(Success, n.kids);
    AtMostOne(Failure, n.kids);
    AtMostOne(Success, Chosen(n.kids, n.loc.picked));
  }

  lemma {:induction false} AtMostOne(pass: Status, kids: seq<Node>)
    ensures |NextOf(pass, kids)| <= 1
  {
    if kids != [] {
      AtMostOne(pass, kids[1..]);
    }
  }

  predicate UncountedProg(p: Prog) {
    !p.op.Repeat? && !p.op.For? && forall i :: 0 <= i < |p.kids| ==> UncountedProg(p.kids[i])
  }

  lemma {:induction false} UncountedSkel(n: Node)
    ensures Uncounted(n) == UncountedProg(Skel(n))
    decreases n
  {
    forall i | 0 <= i < |n.kids| ensures Uncounted(n.kids[i]) == UncountedProg(Skel(n).kids[i]) {
      UncountedSkel(n.kids[i]);
    }
  }

  /** The prediction theorem: in every reachable state that is not halted and whose root can be
      executed, GetNextInstructions lists exactly the instructions the next tick executes, in the
      order in which it executes them, and GetNextLeaves is the last of them. */
  lemma {:induction false} PredictionIsExecution(a: Actions, p: Prog, w: World, cmds: seq<Command>)
    requires ProgOk(p) && UncountedProg(p)
    requires var r := RunFrom(a, p, w, cmds).root; !r.halted && ReadyForExecute(r.status)
    ensures var c := RunFrom(a, p, w, cmds);
            var executed := ExecutedIds(ExecuteSingle(a, c.root, c.world).log);
            && WellFormed(c.root) && executed != []
            && GetNextInstructions(c.root) == executed
            && GetNextLeaves(c.root) == [executed[|executed| - 1]]
  {
    var c := RunFrom(a, p, w, cmds);
    ReachableRootOk(a, p, w, cmds);
    ReachableSkel(a, p, w, cmds);
    UncountedSkel(c.root);
    TickFollowsPath(a, c.root, c.world);
    NextTreeIsLine(c.root);
    LineBreadth(Path(c.root));
  }
}
