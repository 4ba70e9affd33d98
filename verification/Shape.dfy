/** What holds of every tree between ticks: the states an instruction tree can be in. */
module Shape {
  import opened ExecutionStatus
  import opened Workspaces
  import opened Engine

  // ---------------------------------------------------------------- identity of the tree

  /** r is n after some execution: same program, same halt request. */
  ghost predicate SameTree(n: Node, r: Node) {
    && r.id == n.id && r.op == n.op && r.halted == n.halted
    && |r.kids| == |n.kids| && Skel(r) == Skel(n)
  }

  lemma {:induction false} SkelKids(n: Node, r: Node)
    requires r.id == n.id && r.op == n.op && |r.kids| == |n.kids|
    requires forall i :: 0 <= i < |n.kids| ==> Skel(r.kids[i]) == Skel(n.kids[i])
    ensures Skel(r) == Skel(n)
  {
  }

  lemma {:induction false} ResetSkel(n: Node)
    ensures Skel(Reset(n)) == Skel(n)
    decreases n
  {
    forall i | 0 <= i < |n.kids| ensures Skel(ResetAll(n.kids)[i]) == Skel(n.kids[i]) {
      ResetSkel(n.kids[i]);
    }
    SkelKids(n, Reset(n));
  }

  /** Children after some execution: same programs, still well formed. */
  ghost predicate SameKids(kids: seq<Node>, after: seq<Node>) {
    && |after| == |kids|
    && forall i :: 0 <= i < |kids| ==> Skel(after[i]) == Skel(kids[i]) && WellFormed(after[i])
  }

  lemma {:induction false} ResetKeepsKids(kids: seq<Node>)
    requires forall i :: 0 <= i < |kids| ==> WellFormed(kids[i])
    ensures SameKids(kids, ResetAll(kids))
  {
    forall i | 0 <= i < |kids|
      ensures Skel(ResetAll(kids)[i]) == Skel(kids[i]) && WellFormed(ResetAll(kids)[i])
    {
      ResetSkel(kids[i]);
      ResetWellFormed(kids[i]);
    }
  }

  lemma {:induction false} UpdateKeepsKids(kids: seq<Node>, k: nat, x: Node)
    requires forall i :: 0 <= i < |kids| ==> WellFormed(kids[i])
    requires k < |kids| && Skel(x) == Skel(kids[k]) && WellFormed(x)
    ensures SameKids(kids, kids[k := x]) && SameKids(kids, ResetAll(kids[k := x])[k := x])
  {
    ResetKeepsKids(kids[k := x]);
  }

  lemma {:induction false} AloneFacts(a: Actions, n: Node, w: World)
    requires WellFormed(n) && NextCall(n, w).None?
    ensures var b := Alone(a, n, w);
            && b.kids == n.kids && b.status != NotStarted
            && (forall j :: 0 <= j < |b.loc.picked| ==> b.loc.picked[j] < |n.kids|)
  {
  }

  lemma {:induction false} ConcludeFacts(n: Node, c: Call, s: Step)
    requires WellFormed(n) && c.k < |n.kids| && !n.op.Action? && s.node.status != NotStarted
    ensures var b := Conclude(n, c, s);
            var kids := n.kids[c.k := s.node];
            && b.loc.picked == n.loc.picked && b.status != NotStarted
            && (b.kids == kids || b.kids == ResetAll(kids)[c.k := s.node])
  {
  }

  lemma {:induction false} CallLog(n: Node, w: World)
    requires WellFormed(n) && NextCall(n, w).Some?
    ensures var c := NextCall(n, w).value; c.log == [] || c.log == ResetLog(n.kids[c.k])
  {
  }

  lemma {:induction false} ConcludeLog(n: Node, c: Call, s: Step)
    requires WellFormed(n) && c.k < |n.kids| && !n.op.Action?
    ensures var kids := n.kids[c.k := s.node];
            var log := Conclude(n, c, s).log;
            var b := Conclude(n, c, s);
            || (log == c.log + s.log && b.kids == kids)
            || (log == c.log + s.log + ResetLogAll(kids[..c.k]) + ResetLogAll(kids[c.k + 1..])
                && b.kids == ResetAll(kids)[c.k := s.node])
  {
  }

  /** A tick never changes the program, leaves the node started, and keeps it well formed. */
  lemma {:induction false} TickKeepsTree(a: Actions, n: Node, w: World)
    requires WellFormed(n)
    ensures var r := ExecuteSingle(a, n, w).node;
            SameTree(n, r) && WellFormed(r) && r.status != NotStarted
    decreases Size(n)
  {
    var r := ExecuteSingle(a, n, w).node;
    var p := Preamble(a, n, w).node;
    if NeedsExecute(p.status) && !n.halted {
      var pw := Preamble(a, n, w).world;
      match NextCall(p, pw)
      case None =>
        AloneFacts(a, p, pw);
        assert ExecuteImpl(a, p, pw) == Alone(a, p, pw);
        assert r.kids == n.kids;
      case Some(c) =>
        TickKeepsTree(a, c.child, c.world);
        ResetSkel(p.kids[c.k]);
        ConcludeFacts(p, c, ExecuteSingle(a, c.child, c.world));
        UpdateKeepsKids(p.kids, c.k, ExecuteSingle(a, c.child, c.world).node);
    }
    SkelKids(n, r);
  }

  // ---------------------------------------------------------------- reachable states

  predicate AllFresh(n: Node) {
    && n.status == NotStarted
    && (n.op.Choice? ==> ListMissing(n.loc))
    && forall i :: 0 <= i < |n.kids| ==> AllFresh(n.kids[i])
  }

  predicate Live(n: Node) {
    !n.halted && forall i :: 0 <= i < |n.kids| ==> Live(n.kids[i])
  }

  /** passed*, one child that needs execution, then only children that never started. */
  predicate Progress(pass: Status, ss: seq<Status>) {
    var k := Pick(ss);
    && k < |ss|
    && (forall i :: 0 <= i < k ==> ss[i] == pass)
    && (forall i :: k < i < |ss| ==> ss[i] == NotStarted)
  }

  /** The same for reactive nodes: one later child may be Running, and no other child is. */
  predicate ReactiveProgress(pass: Status, ss: seq<Status>) {
    var k := Pick(ss);
    && k < |ss|
    && (forall i :: 0 <= i < k ==> ss[i] == pass)
    && (forall i :: k < i < |ss| ==> ss[i] == NotStarted || ss[i] == Running)
    && (forall i, j :: 0 <= i < j < |ss| ==> ss[i] != Running || ss[j] != Running)
  }

  /** Exactly one child is Running and all its siblings are back to NotStarted. */
  predicate OneRunning(ss: seq<Status>) {
    exists k :: 0 <= k < |ss| && ss[k] == Running && forall i :: 0 <= i < |ss| && i != k ==> ss[i] == NotStarted
  }

  /** The children a Choice has reached so far are the only ones that ever started. */
  predicate ChoiceProgress(kids: seq<Node>, picked: seq<nat>)
    requires forall j :: 0 <= j < |picked| ==> picked[j] < |kids|
  {
    var ss := Statuses(Chosen(kids, picked));
    var k := Pick(ss);
    && (picked == [] ==> forall i :: 0 <= i < |kids| ==> kids[i].status == NotStarted)
    && (picked != [] ==>
          && k < |picked|
          && (forall i :: 0 <= i < k ==> ss[i] == Success)
          && (forall i :: 0 <= i < |kids| && i !in picked[..k + 1] ==> kids[i].status == NotStarted))
  }

  /** What the children and counters look like when a started node is about to execute. */
  predicate Enterable(n: Node)
    requires WellFormed(n)
  {
    match n.op
    case Action(_) => true
    case Sequence => Progress(Success, Statuses(n.kids))
    case Fallback => Progress(Failure, Statuses(n.kids))
    case ReactiveSequence => ReactiveProgress(Success, Statuses(n.kids))
    case ReactiveFallback => ReactiveProgress(Failure, Statuses(n.kids))
    case Inverter => NeedsExecute(n.kids[0].status)
    case ForceSuccess => NeedsExecute(n.kids[0].status)
    case Repeat(_) =>
      && n.kids[0].status != Failure && -1 <= n.loc.max <= INT32_MAX
      && (n.op.limit.Absent? ==> n.loc.max == 0)
      && (n.op.limit.Literal? ==> n.loc.max == if n.op.limit.n < 0 then -1 else n.op.limit.n)
      && (if n.loc.max > 0 then 0 <= n.loc.count < n.loc.max else n.loc.count == 0)
      && (n.loc.max == 0 ==> n.kids[0].status == NotStarted)
    case For(_, _) =>
      if n.loc.arr.Array? && n.loc.arr.elems != []
      then n.kids[0].status != Failure && 0 <= n.loc.count < |n.loc.arr.elems|
      else n.kids[0].status == NotStarted
    case Choice(_) => ChoiceProgress(n.kids, n.loc.picked) && (n.loc.picked != [] ==> n.loc.pickedInit)
  }

  /** How the status of an unfinished node follows from its children. */
  predicate Reported(n: Node)
    requires WellFormed(n)
  {
    match n.op
    case Action(_) => true
    case Sequence => n.status == Verdict(Success, Statuses(n.kids))
    case Fallback => n.status == Verdict(Failure, Statuses(n.kids))
    case ReactiveSequence =>
      n.status == Verdict(Success, Statuses(n.kids)) || (n.status == Running && OneRunning(Statuses(n.kids)))
    case ReactiveFallback =>
      n.status == Verdict(Failure, Statuses(n.kids)) || (n.status == Running && OneRunning(Statuses(n.kids)))
    case Inverter => n.status == n.kids[0].status
    case ForceSuccess => n.status == n.kids[0].status
    case Repeat(_) => n.loc.max != 0 && n.status == Counted(n.kids[0].status, n.loc.count, n.loc.max)
    case For(_, _) =>
      && n.loc.arr.Array? && n.loc.arr.elems != []
      && n.status == Counted(n.kids[0].status, n.loc.count, |n.loc.arr.elems|)
    case Choice(_) =>
      && n.loc.pickedInit
      && (n.loc.picked == [] ==> n.status == NotFinished)
      && (n.loc.picked != [] ==> n.status == Verdict(Success, Statuses(Chosen(n.kids, n.loc.picked))))
  }

  /** The invariant of every tree that is not halted, between ticks. */
  predicate Shaped(n: Node)
    requires WellFormed(n)
  {
    && (forall i :: 0 <= i < |n.kids| ==> Shaped(n.kids[i]))
    && (n.status == NotStarted ==> AllFresh(n))
    && (n.status == NotFinished || n.status == Running ==> Enterable(n) && Reported(n))
  }

  // ---------------------------------------------------------------- sequences of statuses

  lemma {:induction false} PickIs(ss: seq<Status>, k: nat)
    requires k < |ss| && NeedsExecute(ss[k]) && forall i :: 0 <= i < k ==> IsFinished(ss[i])
    ensures Pick(ss) == k
  {
    assert Pick(ss) <= k;
  }

  /** CalculateCompoundStatus once the first k children passed. */
  lemma {:induction false} VerdictAt(pass: Status, ss: seq<Status>, k: nat)
    requires k <= |ss| && forall i :: 0 <= i < k ==> ss[i] == pass
    ensures k == |ss| ==> Verdict(pass, ss) == pass
    ensures k < |ss| && ss[k] != pass ==> Verdict(pass, ss) == if ReadyForExecute(ss[k]) then NotFinished else ss[k]
  {
    if k > 0 {
      VerdictAt(pass, ss[1..], k - 1);
    }
  }

  /** Executing the child in turn keeps the shape of a compound, or decides it. */
  lemma {:induction false} ProgressStep(pass: Status, ss: seq<Status>, s: Executed)
    requires IsFinished(pass) && Progress(pass, ss)
    ensures var after := ss[Pick(ss) := s];
            IsFinished(Verdict(pass, after)) || Progress(pass, after)
  {
    var k := Pick(ss);
    var after := ss[k := s];
    if s == pass {
      if k + 1 < |ss| {
        PickIs(after, k + 1);
      } else {
        VerdictAt(pass, after, k + 1);
      }
    } else if NeedsExecute(s) {
      PickIs(after, k);
    } else {
      VerdictAt(pass, after, k);
    }
  }

  lemma {:induction false} ReactiveStep(pass: Status, ss: seq<Status>, s: Executed)
    requires IsFinished(pass) && ReactiveProgress(pass, ss) && s != Running
    ensures var after := ss[Pick(ss) := s];
            IsFinished(Verdict(pass, after)) || ReactiveProgress(pass, after)
  {
    var k := Pick(ss);
    var after := ss[k := s];
    if s == pass {
      if k + 1 < |ss| {
        PickIs(after, k + 1);
      } else {
        VerdictAt(pass, after, k + 1);
      }
    } else if NeedsExecute(s) {
      PickIs(after, k);
    } else {
      VerdictAt(pass, after, k);
    }
  }

  lemma {:induction false} FreshProgress(pass: Status, ss: seq<Status>)
    requires ss != [] && forall i :: 0 <= i < |ss| ==> ss[i] == NotStarted
    ensures Progress(pass, ss) && ReactiveProgress(pass, ss)
  {
    PickIs(ss, 0);
  }

  // ---------------------------------------------------------------- a tick keeps the invariant

  lemma {:induction false} FreshIsShaped(n: Node)
    requires WellFormed(n) && AllFresh(n)
    ensures Shaped(n)
    decreases n
  {
    forall i | 0 <= i < |n.kids| ensures Shaped(n.kids[i]) {
      FreshIsShaped(n.kids[i]);
    }
  }

  /** A reset brings the whole tree back to its start: nothing started, nothing halted. */
  lemma {:induction false} ResetIsFresh(n: Node)
    requires WellFormed(n)
    ensures AllFresh(Reset(n)) && Live(Reset(n))
    decreases n
  {
    forall i | 0 <= i < |n.kids| ensures AllFresh(ResetAll(n.kids)[i]) && Live(ResetAll(n.kids)[i]) {
      ResetIsFresh(n.kids[i]);
    }
  }

  lemma {:induction false} ResetStatuses(kids: seq<Node>)
    ensures forall i :: 0 <= i < |kids| ==> ResetAll(kids)[i].status == NotStarted
  {
  }

  lemma {:induction false} FreshKids(n: Node)
    requires AllFresh(n)
    ensures forall i :: 0 <= i < |n.kids| ==> n.kids[i].status == NotStarted && AllFresh(n.kids[i])
  {
    forall i | 0 <= i < |n.kids| ensures n.kids[i].status == NotStarted {
      assert AllFresh(n.kids[i]);
    }
  }

  /** Whatever state a node is in, initialisation leaves it ready to execute its children. */
  lemma {:induction false} PreambleEnters(a: Actions, n: Node, w: World)
    requires WellFormed(n) && Shaped(n)
    ensures var p := Preamble(a, n, w).node;
            WellFormed(p) && (NeedsExecute(p.status) ==> Enterable(p))
    ensures n.op.Choice? && n.status == NotStarted ==> ListMissing(Preamble(a, n, w).node.loc)
  {
    if n.status == NotStarted {
      FreshKids(n);
      match n.op {
        case Sequence => FreshProgress(Success, Statuses(n.kids));
        case Fallback => FreshProgress(Failure, Statuses(n.kids));
        case ReactiveSequence => FreshProgress(Success, Statuses(n.kids));
        case ReactiveFallback => FreshProgress(Failure, Statuses(n.kids));
        case _ =>
      }
    }
  }

  /** The node a tick leaves when its body is b. */
  function After(n: Node, b: Body): Node {
    n.(status := b.status, loc := b.loc, kids := b.kids)
  }

  /** An executed node is finished, or in progress with a status that follows from its children. */
  predicate Settled(n: Node)
    requires WellFormed(n)
  {
    IsFinished(n.status) || (n.status != NotStarted && Enterable(n) && Reported(n))
  }

  lemma {:induction false} AloneSettles(a: Actions, n: Node, w: World)
    requires WellFormed(n) && Enterable(n) && NextCall(n, w).None?
    ensures var r := After(n, Alone(a, n, w)); WellFormed(r) && Settled(r)
  {
    AloneFacts(a, n, w);
    if n.op.Choice? {
      ChoiceAloneSettles(a, n, w);
    }
  }

  lemma {:induction false} ChoiceAloneSettles(a: Actions, n: Node, w: World)
    requires WellFormed(n) && Enterable(n) && NextCall(n, w).None? && n.op.Choice?
    ensures var r := After(n, Alone(a, n, w)); WellFormed(r) && Settled(r)
  {
    AloneFacts(a, n, w);
    var r := After(n, Alone(a, n, w));
    if ListMissing(n.loc) && r.loc.picked != [] {
      var ss := Statuses(Chosen(r.kids, r.loc.picked));
      FreshProgress(Success, ss);
      VerdictAt(Success, ss, 0);
    }
  }

  lemma {:induction false} CompoundSettles(pass: Status, kids: seq<Node>, s: Node)
    requires IsFinished(pass) && s.status != NotStarted
    requires Progress(pass, Statuses(kids))
    ensures var after := Statuses(kids[Pick(Statuses(kids)) := s]);
            IsFinished(Verdict(pass, after)) || Progress(pass, after)
  {
    var k := Pick(Statuses(kids));
    assert Statuses(kids[k := s]) == Statuses(kids)[k := s.status];
    ProgressStep(pass, Statuses(kids), s.status);
  }

  lemma {:induction false} ReactiveSettles(pass: Status, kids: seq<Node>, s: Node)
    requires IsFinished(pass) && s.status != NotStarted
    requires ReactiveProgress(pass, Statuses(kids))
    ensures var k := Pick(Statuses(kids));
            var after := Statuses(kids[k := s]);
            s.status != Running ==> IsFinished(Verdict(pass, after)) || ReactiveProgress(pass, after)
    ensures var k := Pick(Statuses(kids));
            var cleared := Statuses(ResetAll(kids[k := s])[k := s]);
            s.status == Running ==> ReactiveProgress(pass, cleared) && OneRunning(cleared)
  {
    var k := Pick(Statuses(kids));
    if s.status == Running {
      var cleared := Statuses(ResetAll(kids[k := s])[k := s]);
      ResetStatuses(kids[k := s]);
      assert cleared[k] == Running;
      assert OneRunning(cleared);
      PickIs(cleared, if k == 0 then k else 0);
    } else {
      assert Statuses(kids[k := s]) == Statuses(kids)[k := s.status];
      ReactiveStep(pass, Statuses(kids), s.status);
    }
  }

  /** A Choice whose first k + 1 picks succeeded skips those it picked again. */
  lemma {:induction false} ChoiceMovesOn(kids: seq<Node>, picked: seq<nat>, k: nat)
    requires forall j :: 0 <= j < |picked| ==> picked[j] < |kids|
    requires k < |picked| && forall i :: 0 <= i <= k ==> kids[picked[i]].status == Success
    requires forall i :: 0 <= i < |kids| && i !in picked[..k + 1] ==> kids[i].status == NotStarted
    ensures IsFinished(Verdict(Success, Statuses(Chosen(kids, picked)))) || ChoiceProgress(kids, picked)
  {
    var ss := Statuses(Chosen(kids, picked));
    var m := Pick(ss);
    forall i | 0 <= i < m ensures ss[i] == Success {
      assert IsFinished(kids[picked[i]].status);
      assert picked[i] in picked[..k + 1];
    }
    VerdictAt(Success, ss, m);
    assert k < m;
  }

  lemma {:induction false} ChoiceSettles(kids: seq<Node>, picked: seq<nat>, s: Node)
    requires forall j :: 0 <= j < |picked| ==> picked[j] < |kids|
    requires s.status != NotStarted && picked != [] && ChoiceProgress(kids, picked)
    ensures var after := kids[picked[Pick(Statuses(Chosen(kids, picked)))] := s];
            IsFinished(Verdict(Success, Statuses(Chosen(after, picked)))) || ChoiceProgress(after, picked)
  {
    var ss := Statuses(Chosen(kids, picked));
    var k := Pick(ss);
    var after := kids[picked[k] := s];
    var sa := Statuses(Chosen(after, picked));
    assert sa[k] == s.status;
    forall i | 0 <= i < k ensures sa[i] == Success {
      assert ss[i] == Success && IsFinished(ss[i]) && NeedsExecute(ss[k]);
      assert picked[i] != picked[k];
    }
    if s.status == Success {
      ChoiceMovesOn(after, picked, k);
    } else if NeedsExecute(s.status) {
      PickIs(sa, k);
    } else {
      VerdictAt(Success, sa, k);
    }
  }

  lemma {:induction false} ConcludeSettles(n: Node, w: World, s: Step)
    requires WellFormed(n) && Enterable(n) && NextCall(n, w).Some?
    requires WellFormed(s.node) && s.node.status != NotStarted
    requires WellFormed(After(n, Conclude(n, NextCall(n, w).value, s)))
    ensures Settled(After(n, Conclude(n, NextCall(n, w).value, s)))
  {
    match n.op {
      case Sequence => CompoundSettles(Success, n.kids, s.node);
      case Fallback => CompoundSettles(Failure, n.kids, s.node);
      case ReactiveSequence => ReactiveSettles(Success, n.kids, s.node);
      case ReactiveFallback => ReactiveSettles(Failure, n.kids, s.node);
      case Choice(_) => ChoiceSettles(n.kids, n.loc.picked, s.node);
      case _ =>
    }
  }

  /** The children after a tick are shaped and live when the executed one is. */
  lemma {:induction false} ConcludeKids(n: Node, c: Call, s: Step)
    requires WellFormed(n) && c.k < |n.kids| && !n.op.Action?
    requires WellFormed(s.node) && s.node.status != NotStarted && Shaped(s.node) && Live(s.node)
    requires forall i :: 0 <= i < |n.kids| ==> Shaped(n.kids[i]) && Live(n.kids[i])
    ensures var b := Conclude(n, c, s);
            forall i :: 0 <= i < |b.kids| ==> WellFormed(b.kids[i]) && Shaped(b.kids[i]) && Live(b.kids[i])
  {
    ConcludeFacts(n, c, s);
    forall i | 0 <= i < |n.kids|
      ensures WellFormed(Reset(n.kids[i])) && Shaped(Reset(n.kids[i])) && Live(Reset(n.kids[i]))
    {
      ResetWellFormed(n.kids[i]);
      ResetIsFresh(n.kids[i]);
      FreshIsShaped(Reset(n.kids[i]));
    }
  }

  lemma {:induction false} CalledChild(n: Node, w: World)
    requires WellFormed(n) && NextCall(n, w).Some?
    requires forall i :: 0 <= i < |n.kids| ==> Shaped(n.kids[i]) && Live(n.kids[i])
    ensures Shaped(NextCall(n, w).value.child) && Live(NextCall(n, w).value.child)
  {
    var kid := n.kids[NextCall(n, w).value.k];
    ResetWellFormed(kid);
    ResetIsFresh(kid);
    FreshIsShaped(Reset(kid));
  }

  /** The invariant holds after every tick, whatever the actions do. */
  lemma {:induction false} TickKeepsShape(a: Actions, n: Node, w: World)
    requires WellFormed(n) && Shaped(n) && Live(n)
    ensures var r := ExecuteSingle(a, n, w).node;
            WellFormed(r) && Shaped(r) && Live(r)
    decreases Size(n)
  {
    TickKeepsTree(a, n, w);
    PreambleEnters(a, n, w);
    var p := Preamble(a, n, w).node;
    if NeedsExecute(p.status) {
      BodyKeepsShape(a, p, Preamble(a, n, w).world);
    }
  }

  lemma {:induction false} BodyKeepsShape(a: Actions, n: Node, w: World)
    requires WellFormed(n) && Enterable(n)
    requires forall i :: 0 <= i < |n.kids| ==> Shaped(n.kids[i]) && Live(n.kids[i])
    ensures var r := After(n, ExecuteImpl(a, n, w));
            && WellFormed(r) && Settled(r)
            && forall i :: 0 <= i < |r.kids| ==> Shaped(r.kids[i]) && Live(r.kids[i])
    decreases Size(n), 0
  {
    match NextCall(n, w)
    case None =>
      AloneSettles(a, n, w);
      AloneFacts(a, n, w);
    case Some(c) =>
      CalledChild(n, w);
      TickKeepsShape(a, c.child, c.world);
      TickKeepsTree(a, c.child, c.world);
      var s := ExecuteSingle(a, c.child, c.world);
      ConcludeKids(n, c, s);
      ConcludeFacts(n, c, s);
      ConcludeSettles(n, w, s);
  }
}
