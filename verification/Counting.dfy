/** Repeat and For count completed runs of their child, however many ticks a run takes. */
module Counting {
  import opened ExecutionStatus
  import opened Workspaces
  import opened Engine
  import opened Shape
  import opened Mirror

  /** How often instruction id reported that it finished. */
  function Completed(log: seq<Event>, id: nat): nat {
    if log == [] then 0
    else (if log[0].Notified? && log[0].id == id && IsFinished(log[0].status) then 1 else 0) + Completed(log[1..], id)
  }

  lemma {:induction false} CompletedAppend(l: seq<Event>, m: seq<Event>, id: nat)
    ensures Completed(l + m, id) == Completed(l, id) + Completed(m, id)
  {
    if l == [] {
      assert l + m == m;
    } else {
      assert (l + m)[1..] == l[1..] + m;
      CompletedAppend(l[1..], m, id);
    }
  }

  lemma {:induction false} CompletedOutside(log: seq<Event>, ids: set<nat>, id: nat)
    requires Within(log, ids) && id !in ids
    ensures Completed(log, id) == 0
  {
    if log != [] {
      CompletedOutside(log[1..], ids, id);
    }
  }

  lemma {:induction false} ResetCompletesNothing(n: Node, id: nat)
    ensures Completed(ResetLog(n), id) == 0
    decreases n, 0
  {
    var note := if n.status != NotStarted then [Notified(n.id, NotStarted)] else [];
    ResetsCompleteNothing(n.kids, id);
    CompletedAppend(ResetLogAll(n.kids), note, id);
  }

  lemma {:induction false} ResetsCompleteNothing(kids: seq<Node>, id: nat)
    ensures Completed(ResetLogAll(kids), id) == 0
    decreases kids
  {
    if kids != [] {
      ResetCompletesNothing(kids[0], id);
      ResetsCompleteNothing(kids[1..], id);
      CompletedAppend(ResetLog(kids[0]), ResetLogAll(kids[1..]), id);
    }
  }

  // ---------------------------------------------------------------- who is reported during a tick

  lemma {:induction false} KidIds(n: Node, k: nat)
    requires k < |n.kids|
    ensures Ids(n.kids[k]) <= IdsAll(n.kids) && Ids(n) == {n.id} + IdsAll(n.kids)
  {
  }

  lemma {:induction false} TickWithin(a: Actions, n: Node, w: World)
    requires WellFormed(n)
    ensures Within(ExecuteSingle(a, n, w).log, Ids(n))
    decreases Size(n), 1
  {
    TickParts(a, n, w);
    var p := Preamble(a, n, w);
    if NeedsExecute(p.node.status) && !n.halted {
      BodyWithin(a, p.node, p.world);
    }
  }

  lemma {:induction false} BodyWithin(a: Actions, n: Node, w: World)
    requires WellFormed(n)
    ensures Within(ExecuteImpl(a, n, w).log, IdsAll(n.kids))
    decreases Size(n), 0
  {
    match NextCall(n, w) {
      case None => assert Alone(a, n, w).log == [];
      case Some(c) =>
        var s := ExecuteSingle(a, c.child, c.world);
        TickWithin(a, c.child, c.world);
        TickKeepsTree(a, c.child, c.world);
        CallLog(n, w);
        ResetSkel(n.kids[c.k]);
        SkelIds(c.child, n.kids[c.k]);
        ResetWithin(n.kids[c.k]);
        KidIds(n, c.k);
        ConcludeWithin(n, c, s);
    }
  }

  lemma {:induction false} ConcludeWithin(n: Node, c: Call, s: Step)
    requires WellFormed(n) && c.k < |n.kids| && !n.op.Action? && Skel(s.node) == Skel(n.kids[c.k])
    requires Within(c.log, IdsAll(n.kids)) && Within(s.log, IdsAll(n.kids))
    ensures Within(Conclude(n, c, s).log, IdsAll(n.kids))
  {
    var kids := n.kids[c.k := s.node];
    SameIds(n.kids, kids);
    ConcludeLog(n, c, s);
    ResetAllWithin(kids[..c.k]);
    ResetAllWithin(kids[c.k + 1..]);
    PartIds(kids, 0, c.k);
    PartIds(kids, c.k + 1, |kids|);
    assert kids[0..c.k] == kids[..c.k] && kids[c.k + 1..|kids|] == kids[c.k + 1..];
  }

  /** An instruction reports exactly once that it finished: in the tick that finishes it. */
  lemma {:induction false} FinishIsReportedOnce(a: Actions, n: Node, w: World)
    requires WellFormed(n) && Distinct(n)
    ensures var s := ExecuteSingle(a, n, w);
            Completed(s.log, n.id) == if NeedsExecute(n.status) && IsFinished(s.node.status) then 1 else 0
  {
    var s := ExecuteSingle(a, n, w);
    var p := Preamble(a, n, w);
    TickParts(a, n, w);
    NotBelow(n);
    assert Completed([], n.id) == 0;
    if NeedsExecute(p.node.status) && !n.halted {
      var b := ExecuteImpl(a, p.node, p.world);
      var note := NoteIf(b.status != p.node.status, n.id, b.status);
      BodyWithin(a, p.node, p.world);
      CompletedOutside(b.log, IdsAll(n.kids), n.id);
      CompletedAppend(b.log, note, n.id);
      CompletedAppend([Ticked(n.id)] + p.log, b.log + note, n.id);
    }
    CompletedAppend([Ticked(n.id)], p.log, n.id);
    assert [Ticked(n.id)] + p.log + [] == [Ticked(n.id)] + p.log;
  }

  // ---------------------------------------------------------------- counting

  predicate IsCounting(op: Op) {
    op.Repeat? || op.For?
  }

  /** The number of child runs a started counting decorator asks for; negative: without end. */
  function Limit(n: Node): int
    requires IsCounting(n.op)
  {
    if n.op.Repeat? then n.loc.max else if n.loc.arr.Array? then |n.loc.arr.elems| else 0
  }

  /** What the counter says, given how many child runs were reported as completed. */
  predicate CountOk(n: Node, completed: nat)
    requires IsCounting(n.op)
  {
    && (n.status == NotStarted ==> completed == 0)
    && (n.status != NotStarted && Limit(n) > 0 ==> n.loc.count == completed)
    && (n.status == NotFinished || n.status == Running ==> Limit(n) > 0 ==> completed < Limit(n))
    && (n.status == Success ==> Limit(n) >= 0 && completed == Limit(n))
  }

  lemma {:induction false} StartedCountOk(a: Actions, n: Node, w: World, completed: nat)
    requires WellFormed(n) && IsCounting(n.op) && Shaped(n) && CountOk(n, completed)
    ensures var p := Preamble(a, n, w).node;
            && (Limit(p) > 0 && NeedsExecute(p.status) ==> p.loc.count == completed)
            && (Limit(p) == 0 && NeedsExecute(p.status) ==> completed == 0)
  {
  }

  /** A tick of a counting decorator adds one to the count exactly when it completes a child run. */
  lemma {:induction false} TickCounts(a: Actions, n: Node, w: World, completed: nat)
    requires WellFormed(n) && IsCounting(n.op) && Shaped(n) && Live(n) && Distinct(n) && CountOk(n, completed)
    ensures var s := ExecuteSingle(a, n, w);
            CountOk(s.node, completed + Completed(s.log, n.kids[0].id))
  {
    var p := Preamble(a, n, w).node;
    PreambleEnters(a, n, w);
    StartedCountOk(a, n, w, completed);
    TickParts(a, n, w);
    OuterCompletes(a, n, w, n.kids[0].id);
    if NeedsExecute(p.status) {
      BodyCounts(a, p, Preamble(a, n, w).world, completed);
    }
  }

  lemma {:induction false} BodyCounts(a: Actions, n: Node, w: World, completed: nat)
    requires n.status == NotFinished || n.status == Running
    requires WellFormed(n) && IsCounting(n.op) && Enterable(n) && Distinct(n)
    requires Shaped(n.kids[0]) && Live(n.kids[0])
    requires (Limit(n) > 0 ==> n.loc.count == completed) && (Limit(n) == 0 ==> completed == 0)
    ensures var b := ExecuteImpl(a, n, w);
            CountOk(Shape.After(n, b), completed + Completed(b.log, n.kids[0].id))
  {
    CountedBody(a, n, w);
    BodyStarts(a, n, w);
    var b := ExecuteImpl(a, n, w);
    CountFollows(n, b, NextCall(n, w).Some?, completed, Completed(b.log, n.kids[0].id));
  }

  lemma {:induction false} CountFollows(n: Node, b: Body, called: bool, completed: nat, done: nat)
    requires WellFormed(n) && IsCounting(n.op) && Enterable(n) && BodyCounted(n, b, called, done)
    requires (Limit(n) > 0 ==> n.loc.count == completed) && (Limit(n) == 0 ==> completed == 0)
    requires b.status != NotStarted && (called ==> Limit(n) != 0)
    ensures CountOk(Shape.After(n, b), completed + done)
  {
  }

  lemma {:induction false} BodyStarts(a: Actions, n: Node, w: World)
    requires WellFormed(n) && IsCounting(n.op) && Enterable(n) && Shaped(n.kids[0]) && Live(n.kids[0])
    ensures var b := ExecuteImpl(a, n, w);
            b.status != NotStarted && (NextCall(n, w).Some? ==> Limit(n) != 0)
  {
    match NextCall(n, w) {
      case None => AloneFacts(a, n, w);
      case Some(c) =>
        TickKeepsTree(a, c.child, c.world);
        ConcludeFacts(n, c, ExecuteSingle(a, c.child, c.world));
    }
  }

  /** Only the body of a tick can report the child. */
  lemma {:induction false} OuterCompletes(a: Actions, n: Node, w: World, id: nat)
    requires WellFormed(n) && id != n.id
    ensures var s := ExecuteSingle(a, n, w);
            var p := Preamble(a, n, w);
            Completed(s.log, id) ==
              if NeedsExecute(p.node.status) && !n.halted then Completed(ExecuteImpl(a, p.node, p.world).log, id) else 0
  {
    var p := Preamble(a, n, w);
    TickParts(a, n, w);
    assert Completed([], id) == 0;
    CompletedOutside(p.log, {n.id}, id);
    CompletedAppend([Ticked(n.id)], p.log, id);
    if NeedsExecute(p.node.status) && !n.halted {
      var b := ExecuteImpl(a, p.node, p.world);
      var note := NoteIf(b.status != p.node.status, n.id, b.status);
      CompletedOutside(note, {n.id}, id);
      CompletedAppend(b.log, note, id);
      CompletedAppend([Ticked(n.id)] + p.log, b.log + note, id);
    } else {
      assert [Ticked(n.id)] + p.log + [] == [Ticked(n.id)] + p.log;
    }
  }

  /** The body of a tick that did or did not call the child, with the child runs it completed. */
  predicate BodyCounted(n: Node, b: Body, called: bool, done: nat)
    requires IsCounting(n.op)
  {
    && done <= 1
    && b.loc.max == n.loc.max && b.loc.arr == n.loc.arr
    && (!called ==>
          && done == 0 && b.loc.count == n.loc.count
          && b.status == if Limit(n) == 0 && (n.op.Repeat? || n.loc.arr.Array?) then Success else Failure)
    && (called ==>
          && b.loc.count == (if Limit(n) > 0 then n.loc.count + done else n.loc.count)
          && |b.kids| == 1 && b.status == Counted(b.kids[0].status, b.loc.count, Limit(n))
          && (done == 1 <==> IsFinished(b.kids[0].status)))
  }

  lemma {:induction false} CountedBody(a: Actions, n: Node, w: World)
    requires WellFormed(n) && IsCounting(n.op) && Enterable(n) && Distinct(n) && NeedsExecute(n.status)
    requires Live(n.kids[0])
    ensures var b := ExecuteImpl(a, n, w); BodyCounted(n, b, NextCall(n, w).Some?, Completed(b.log, n.kids[0].id))
  {
    match NextCall(n, w) {
      case None =>
      case Some(c) => CallCompletes(a, n, w, c);
    }
  }

  /** What a counting decorator's child reports of its own end, when it was reset first or not. */
  lemma {:induction false} CallCompletes(a: Actions, n: Node, w: World, c: Call)
    requires WellFormed(n) && IsCounting(n.op) && Enterable(n) && Distinct(n) && NextCall(n, w) == Some(c)
    ensures var s := ExecuteSingle(a, c.child, c.world);
            c.k == 0 && Completed(c.log + s.log, n.kids[0].id) == if IsFinished(s.node.status) then 1 else 0
  {
    var s := ExecuteSingle(a, c.child, c.world);
    ResetSkel(n.kids[0]);
    SkelIds(n.kids[0], c.child);
    FinishIsReportedOnce(a, c.child, c.world);
    CallLog(n, w);
    ResetCompletesNothing(n.kids[0], n.kids[0].id);
    CompletedAppend(c.log, s.log, n.kids[0].id);
    assert Completed([], n.kids[0].id) == 0;
  }

  /** The snapshot For works on is the array it read when it started. */
  lemma {:induction false} ForKeepsSnapshot(a: Actions, n: Node, w: World)
    requires WellFormed(n) && n.op.For? && Shaped(n) && Live(n) && Distinct(n)
    ensures var r := ExecuteSingle(a, n, w).node;
            if n.status == NotStarted
            then (match Read(n.op.arrayVar, w)
                  case Some(v) => r.loc.arr == v
                  case None => r.status == Failure)
            else r.loc.arr == n.loc.arr
  {
    var p := Preamble(a, n, w);
    PreambleEnters(a, n, w);
    TickParts(a, n, w);
    if NeedsExecute(p.node.status) {
      assert Live(p.node.kids[0]);
      CountedBody(a, p.node, p.world);
    }
  }
}
