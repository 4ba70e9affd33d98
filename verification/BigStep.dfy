/** Ticking a tree to its end computes a recursive short-circuit evaluation; a tree has no end exactly
    when its evaluation has none. */
module BigStep {
  import opened ExecutionStatus
  import opened Workspaces
  import opened Engine
  import opened Shape

  /** How an evaluation ends, and how many ticks the tree needs to get there; an evaluation with an
      unfinished status does not end. */
  datatype Result = Result(status: Status, world: World, ticks: nat)

  predicate Ends(r: Result) {
    IsFinished(r.status)
  }

  /** The same result, as far as there is one. */
  predicate Agree(r: Result, q: Result) {
    if Ends(r) then r == q else !Ends(q)
  }

  function After(first: Result, rest: Result): Result {
    rest.(ticks := first.ticks + rest.ticks)
  }

  predicate WithoutFor(p: Prog) {
    ArityOk(p.op, |p.kids|) && !p.op.For? && forall i :: 0 <= i < |p.kids| ==> WithoutFor(p.kids[i])
  }

  predicate IsReactive(op: Op) {
    op.ReactiveSequence? || op.ReactiveFallback?
  }

  /** No action in p stays Running. */
  ghost predicate NeverRunning(a: Actions, p: Prog) {
    && (p.op.Action? ==> forall mem, w :: a.exec(p.op.act, mem, w).status != Running)
    && forall i :: 0 <= i < |p.kids| ==> NeverRunning(a, p.kids[i])
  }

  /** Actions may take any number of ticks, but inside reactive instructions none stays Running. */
  ghost predicate Steady(a: Actions, p: Prog) {
    && (IsReactive(p.op) ==> NeverRunning(a, p))
    && forall i :: 0 <= i < |p.kids| ==> Steady(a, p.kids[i])
  }

  // ---------------------------------------------------------------- actions

  /** k executions of an action, or fewer if it is finished before; each one starts from the private
      state the one before left. */
  function ActTimes(a: Actions, act: nat, mem: int, w: World, k: nat): Result
    requires k >= 1
    decreases k
  {
    var o := a.exec(act, mem, w);
    var first := Result(o.status, w.(vars := o.vars, calls := w.calls + [act]), 1);
    if IsFinished(o.status) || k == 1 then first else After(first, ActTimes(a, act, o.mem, first.world, k - 1))
  }

  ghost predicate ActsWithin(a: Actions, act: nat, mem: int, w: World, k: nat) {
    k >= 1 && Ends(ActTimes(a, act, mem, w, k))
  }

  ghost predicate ActEnds(a: Actions, act: nat, mem: int, w: World) {
    exists k: nat :: ActsWithin(a, act, mem, w, k)
  }

  /** Execute until finished. */
  ghost function EvalAction(a: Actions, act: nat, mem: int, w: World): Result {
    if ActEnds(a, act, mem, w) then
      var k: nat :| ActsWithin(a, act, mem, w, k);
      ActTimes(a, act, mem, w, k)
    else
      Result(NotFinished, w, 0)
  }

  lemma {:induction false} ActsAlike(a: Actions, act: nat, mem: int, w: World, k: nat, m: nat)
    requires ActsWithin(a, act, mem, w, k) && ActsWithin(a, act, mem, w, m)
    ensures ActTimes(a, act, mem, w, k) == ActTimes(a, act, mem, w, m)
    decreases k
  {
    var o := a.exec(act, mem, w);
    if !IsFinished(o.status) {
      ActsAlike(a, act, o.mem, w.(vars := o.vars, calls := w.calls + [act]), k - 1, m - 1);
    }
  }

  /** It is one execution, and the rest if that does not finish. */
  lemma {:induction false} ActionStep(a: Actions, act: nat, mem: int, w: World)
    ensures var o := a.exec(act, mem, w);
            var first := Result(o.status, w.(vars := o.vars, calls := w.calls + [act]), 1);
            Agree(EvalAction(a, act, mem, w),
                  if Ends(first) then first else After(first, EvalAction(a, act, o.mem, first.world)))
  {
    var o := a.exec(act, mem, w);
    var next := w.(vars := o.vars, calls := w.calls + [act]);
    if IsFinished(o.status) {
      assert ActsWithin(a, act, mem, w, 1);
    } else {
      if k: nat :| ActsWithin(a, act, mem, w, k) {
        assert ActsWithin(a, act, o.mem, next, k - 1);
      }
      if k: nat :| ActsWithin(a, act, o.mem, next, k) {
        assert ActsWithin(a, act, mem, w, k + 1);
      }
    }
    ActionIsAny(a, act, mem, w);
    ActionIsAny(a, act, o.mem, next);
  }

  lemma {:induction false} ActionIsAny(a: Actions, act: nat, mem: int, w: World)
    ensures forall k: nat :: ActsWithin(a, act, mem, w, k) ==> EvalAction(a, act, mem, w) == ActTimes(a, act, mem, w, k)
  {
    forall k: nat, m: nat | ActsWithin(a, act, mem, w, k) && ActsWithin(a, act, mem, w, m)
      ensures ActTimes(a, act, mem, w, k) == ActTimes(a, act, mem, w, m)
    {
      ActsAlike(a, act, mem, w, k, m);
    }
  }

  // ---------------------------------------------------------------- the evaluator

  ghost function Eval(a: Actions, p: Prog, w: World): Result
    requires WithoutFor(p)
    decreases p, 0, 0
  {
    match p.op
    case Action(act) =>
      var i := a.init(act, w);
      if i.ok then EvalAction(a, act, i.mem, w.(vars := i.vars)) else Result(Failure, w.(vars := i.vars), 1)
    case Sequence => EvalAll(a, Success, p.kids, w)
    case Fallback => EvalAll(a, Failure, p.kids, w)
    case ReactiveSequence => EvalAll(a, Success, p.kids, w)
    case ReactiveFallback => EvalAll(a, Failure, p.kids, w)
    case Inverter =>
      var r := Eval(a, p.kids[0], w);
      r.(status := Invert(r.status))
    case ForceSuccess =>
      var r := Eval(a, p.kids[0], w);
      r.(status := Forced(r.status))
    case Repeat(limit) =>
      (match Resolve(limit, 0, w)
       case None => Result(Failure, w, 1)
       case Some(n) =>
         if n == 0 then Result(Success, w, 1)
         else if n > 0 then EvalTimes(a, p.kids[0], n, w)
         else EvalForever(a, p.kids[0], w))
    case Choice(selector) =>
      match InstructionList(selector, |p.kids|, w)
      case None => Result(Failure, w, 1)
      case Some(list) =>
        After(Result(NotFinished, w, 1),
              if list == [] then Result(Success, w, 1) else EvalPicked(a, p.kids, list, {}, w))
  }

  function Forced(s: Status): Status {
    if s == Failure then Success else s
  }

  /** Evaluate in order; the first child that does not report `pass` decides. */
  ghost function EvalAll(a: Actions, pass: Status, kids: seq<Prog>, w: World): Result
    requires forall i :: 0 <= i < |kids| ==> WithoutFor(kids[i])
    decreases kids, 0, 0
  {
    if kids == [] then Result(pass, w, 0)
    else
      var r := Eval(a, kids[0], w);
      if r.status == pass then After(r, EvalAll(a, pass, kids[1..], r.world)) else r
  }

  /** Evaluate up to k times, as long as it succeeds. */
  ghost function EvalTimes(a: Actions, p: Prog, k: int, w: World): Result
    requires WithoutFor(p) && k >= 1
    decreases p, 1, k
  {
    var r := Eval(a, p, w);
    if r.status == Success && k > 1 then After(r, EvalTimes(a, p, k - 1, r.world)) else r
  }

  /** Evaluate until it fails. */
  ghost function EvalForever(a: Actions, p: Prog, w: World): Result
    requires WithoutFor(p)
    decreases p, 2, 0
  {
    if exists k: nat :: FailsWithin(a, p, k, w) then
      var k: nat :| FailsWithin(a, p, k, w);
      EvalTimes(a, p, k, w)
    else
      Result(NotFinished, w, 0)
  }

  /** One of the first k runs fails, all before it succeed. */
  ghost predicate FailsWithin(a: Actions, p: Prog, k: nat, w: World)
    requires WithoutFor(p)
    decreases p, 1, k + 1
  {
    k >= 1 && EvalTimes(a, p, k, w).status == Failure
  }

  /** Evaluate the listed children in order, leaving out those already seen. */
  ghost function EvalPicked(a: Actions, kids: seq<Prog>, list: seq<nat>, seen: set<nat>, w: World): Result
    requires forall i :: 0 <= i < |kids| ==> WithoutFor(kids[i])
    requires forall j :: 0 <= j < |list| ==> list[j] < |kids|
    decreases kids, 1, |list|
  {
    if list == [] then Result(Success, w, 0)
    else if list[0] in seen then EvalPicked(a, kids, list[1..], seen, w)
    else
      var r := Eval(a, kids[list[0]], w);
      if r.status == Success then After(r, EvalPicked(a, kids, list[1..], seen + {list[0]}, r.world)) else r
  }

  // ---------------------------------------------------------------- Choice is a Sequence

  /** A list without its later duplicates. */
  function Dedup(list: seq<nat>, seen: set<nat>): (r: seq<nat>)
    ensures forall j :: 0 <= j < |r| ==> r[j] in list
  {
    if list == [] then []
    else if list[0] in seen then Dedup(list[1..], seen)
    else [list[0]] + Dedup(list[1..], seen + {list[0]})
  }

  function Selected(kids: seq<Prog>, list: seq<nat>): (r: seq<Prog>)
    requires forall j :: 0 <= j < |list| ==> list[j] < |kids|
    ensures |r| == |list| && forall j :: 0 <= j < |list| ==> r[j] == kids[list[j]]
  {
    seq(|list|, j requires 0 <= j < |list| => kids[list[j]])
  }

  lemma {:induction false} PickedIsAll(a: Actions, kids: seq<Prog>, list: seq<nat>, seen: set<nat>, w: World)
    requires forall i :: 0 <= i < |kids| ==> WithoutFor(kids[i])
    requires forall j :: 0 <= j < |list| ==> list[j] < |kids|
    ensures EvalPicked(a, kids, list, seen, w) == EvalAll(a, Success, Selected(kids, Dedup(list, seen)), w)
    decreases |list|
  {
    if list != [] {
      if list[0] in seen {
        PickedIsAll(a, kids, list[1..], seen, w);
      } else {
        var r := Eval(a, kids[list[0]], w);
        PickedIsAll(a, kids, list[1..], seen + {list[0]}, r.world);
        var all := Selected(kids, Dedup(list, seen));
        assert all[0] == kids[list[0]];
        assert all[1..] == Selected(kids, Dedup(list[1..], seen + {list[0]}));
      }
    }
  }

  /** The selector variable names these of n children: one index, or an array of them. */
  predicate Selects(w: World, selector: string, n: nat, list: seq<nat>) {
    && selector in w.vars
    && (forall j :: 0 <= j < |list| ==> list[j] < n)
    && (match w.vars[selector]
        case Scalar(index) => index >= 0 && list == [index]
        case Array(_, elems) => |elems| == |list| && forall j :: 0 <= j < |list| ==> elems[j] == Scalar(list[j]))
  }

  lemma {:induction false} IndexListIs(elems: seq<Value>, list: seq<nat>)
    ensures IndexList(elems) == Some(list)
      <==> |elems| == |list| && forall j :: 0 <= j < |list| ==> elems[j] == Scalar(list[j])
    decreases |elems|
  {
    if elems != [] && list != [] {
      IndexListIs(elems[1..], list[1..]);
      assert list == [list[0]] + list[1..];
      if |elems| == |list| && forall j :: 0 <= j < |list| ==> elems[j] == Scalar(list[j]) {
        assert forall j :: 0 <= j < |list[1..]| ==> elems[1..][j] == elems[j + 1];
      }
      if IndexList(elems) == Some(list) {
        assert forall j :: 0 < j < |list| ==> elems[j] == elems[1..][j - 1] && list[j] == list[1..][j - 1];
      }
    }
  }

  /** A Choice works on exactly the list its selector variable names, if it names one. */
  lemma {:induction false} ListIsSelected(selector: string, n: nat, w: World, list: seq<nat>)
    ensures InstructionList(selector, n, w) == Some(list) <==> Selects(w, selector, n, list)
  {
    if selector in w.vars && w.vars[selector].Array? {
      IndexListIs(w.vars[selector].elems, list);
    }
  }

  /** Without a list a Choice fails in its first tick; with an empty one it succeeds in its second. */
  lemma {:induction false} ChoiceOfNothing(a: Actions, p: Prog, w: World)
    requires WithoutFor(p) && p.op.Choice?
    ensures (forall list :: !Selects(w, p.op.selector, |p.kids|, list)) ==> Eval(a, p, w) == Result(Failure, w, 1)
    ensures Selects(w, p.op.selector, |p.kids|, []) ==> Eval(a, p, w) == Result(Success, w, 2)
  {
    var list := InstructionList(p.op.selector, |p.kids|, w);
    if list.Some? {
      ListIsSelected(p.op.selector, |p.kids|, w, list.value);
    }
    ListIsSelected(p.op.selector, |p.kids|, w, []);
  }

  /** Choice evaluates as the Sequence of its selected children, later duplicates dropped, one
      tick later. */
  lemma {:induction false} ChoiceIsSequence(a: Actions, p: Prog, w: World, list: seq<nat>)
    requires WithoutFor(p) && p.op.Choice? && list != []
    requires Selects(w, p.op.selector, |p.kids|, list)
    ensures var children := Selected(p.kids, Dedup(list, {}));
            && WithoutFor(Prog(p.id, Sequence, children))
            && Eval(a, p, w) == After(Result(NotFinished, w, 1), Eval(a, Prog(p.id, Sequence, children), w))
  {
    ListIsSelected(p.op.selector, |p.kids|, w, list);
    PickedIsAll(a, p.kids, list, {}, w);
    assert Dedup(list, {})[0] == list[0];
  }

  // ---------------------------------------------------------------- Repeat is iteration

  /** The k-fold evaluation runs the child up to k times, each run in the world the previous one left,
      as long as the runs succeed; the last run decides. */
  lemma {:induction false} RepeatIsIteration(a: Actions, p: Prog, k: int, w: World) returns (worlds: seq<World>)
    requires WithoutFor(p) && k >= 1
    ensures 2 <= |worlds| <= k + 1 && worlds[0] == w
    ensures forall i :: 0 <= i < |worlds| - 1 ==> Eval(a, p, worlds[i]).world == worlds[i + 1]
    ensures forall i :: 0 <= i < |worlds| - 2 ==> Eval(a, p, worlds[i]).status == Success
    ensures var last := Eval(a, p, worlds[|worlds| - 2]);
            && EvalTimes(a, p, k, w).status == last.status && EvalTimes(a, p, k, w).world == last.world
            && (last.status == Success ==> |worlds| == k + 1)
    decreases k
  {
    var r := Eval(a, p, w);
    if r.status == Success && k > 1 {
      var rest := RepeatIsIteration(a, p, k - 1, r.world);
      worlds := [w] + rest;
    } else {
      worlds := [w, r.world];
    }
  }

  /** The number a limit stands for: none without the attribute, the literal, or the integer in the
      variable, as long as it fits 32 bits. */
  predicate Amounts(limit: Limit, w: World, k: int) {
    && -0x8000_0000 <= k <= 0x7FFF_FFFF
    && match limit
       case Absent => k == 0
       case Literal(n) => k == n
       case Variable(name) => name in w.vars && w.vars[name] == Scalar(k)
  }

  lemma {:induction false} ResolvedAmount(limit: Limit, w: World, k: int)
    ensures Resolve(limit, 0, w) == Some(k) <==> Amounts(limit, w, k)
  {
  }

  /** A Repeat whose limit is k when it starts evaluates its child up to k times, succeeds at once if k is
      0, and goes on without limit if k is negative; without such a number it fails. */
  lemma {:induction false} RepeatMeans(a: Actions, p: Prog, w: World, k: int)
    requires WithoutFor(p) && p.op.Repeat?
    ensures Amounts(p.op.limit, w, k) ==>
      Eval(a, p, w) ==
        if k == 0 then Result(Success, w, 1)
        else if k > 0 then EvalTimes(a, p.kids[0], k, w)
        else EvalForever(a, p.kids[0], w)
    ensures (forall j :: !Amounts(p.op.limit, w, j)) ==> Eval(a, p, w) == Result(Failure, w, 1)
  {
    ResolvedAmount(p.op.limit, w, k);
    var r := Resolve(p.op.limit, 0, w);
    if r.Some? {
      ResolvedAmount(p.op.limit, w, r.value);
    }
  }

  lemma {:induction false} FailsOnce(a: Actions, p: Prog, k: nat, m: nat, w: World)
    requires WithoutFor(p) && FailsWithin(a, p, k, w) && FailsWithin(a, p, m, w)
    ensures EvalTimes(a, p, k, w) == EvalTimes(a, p, m, w)
    decreases k
  {
    var r := Eval(a, p, w);
    if r.status == Success {
      FailsOnce(a, p, k - 1, m - 1, r.world);
    }
  }

  ghost predicate SomeRunFails(a: Actions, p: Prog, w: World)
    requires WithoutFor(p)
  {
    exists k: nat :: FailsWithin(a, p, k, w)
  }

  /** An evaluation without limit ends exactly if some run fails, and then as every limited evaluation
      that gets to that run; so it never succeeds. */
  lemma {:induction false} ForeverFails(a: Actions, p: Prog, w: World)
    requires WithoutFor(p)
    ensures EvalForever(a, p, w).status != Success
    ensures Ends(EvalForever(a, p, w)) <==> SomeRunFails(a, p, w)
    ensures forall k: nat :: FailsWithin(a, p, k, w) ==> EvalForever(a, p, w) == EvalTimes(a, p, k, w)
  {
    forall k: nat, m: nat | FailsWithin(a, p, k, w) && FailsWithin(a, p, m, w)
      ensures EvalTimes(a, p, k, w) == EvalTimes(a, p, m, w)
    {
      FailsOnce(a, p, k, m, w);
    }
    if k: nat :| FailsWithin(a, p, k, w) {
      assert SomeRunFails(a, p, w);
    }
  }

  /** It is a run followed by what the rest does. */
  lemma {:induction false} ForeverStep(a: Actions, p: Prog, w: World)
    requires WithoutFor(p)
    ensures var r := Eval(a, p, w);
            Agree(EvalForever(a, p, w), if r.status == Success then After(r, EvalForever(a, p, r.world)) else r)
  {
    var r := Eval(a, p, w);
    ForeverFails(a, p, w);
    ForeverFails(a, p, r.world);
    if r.status == Success {
      if Ends(EvalForever(a, p, w)) {
        var k: nat :| FailsWithin(a, p, k, w);
        assert FailsWithin(a, p, k - 1, r.world);
      }
      if Ends(EvalForever(a, p, r.world)) {
        var k: nat :| FailsWithin(a, p, k, r.world);
        assert FailsWithin(a, p, k + 1, w);
      }
    } else {
      assert forall k: nat :: k >= 1 ==> EvalTimes(a, p, k, w) == r;
      assert FailsWithin(a, p, 1, w) <==> r.status == Failure;
    }
  }

  // ---------------------------------------------------------------- evaluations that end

  /** Procedures whose counters are literal and not negative. */
  predicate Bounded(p: Prog) {
    && ArityOk(p.op, |p.kids|) && !p.op.For?
    && (p.op.Repeat? ==> p.op.limit.Absent? || (p.op.limit.Literal? && 0 <= p.op.limit.n))
    && forall i :: 0 <= i < |p.kids| ==> Bounded(p.kids[i])
  }

  lemma {:induction false} BoundedIsWithoutFor(p: Prog)
    requires Bounded(p)
    ensures WithoutFor(p)
    decreases p
  {
    forall i | 0 <= i < |p.kids| ensures WithoutFor(p.kids[i]) {
      BoundedIsWithoutFor(p.kids[i]);
    }
  }

  /** Every action in p is finished at some time. */
  ghost predicate ActionsEnd(a: Actions, p: Prog) {
    && (p.op.Action? ==> forall mem, w :: ActEnds(a, p.op.act, mem, w))
    && forall i :: 0 <= i < |p.kids| ==> ActionsEnd(a, p.kids[i])
  }

  /** With such actions they always end. */
  lemma {:induction false} BoundedEnds(a: Actions, p: Prog, w: World)
    requires Bounded(p) && WithoutFor(p) && ActionsEnd(a, p)
    ensures Ends(Eval(a, p, w))
    decreases p, 0, 0
  {
    match p.op {
      case Action(_) =>
      case Inverter => BoundedEnds(a, p.kids[0], w);
      case ForceSuccess => BoundedEnds(a, p.kids[0], w);
      case Repeat(limit) => if limit.Literal? && limit.n > 0 { TimesEnd(a, p.kids[0], limit.n, w); }
      case Choice(selector) =>
        var list := InstructionList(selector, |p.kids|, w);
        if list.Some? {
          PickedEnd(a, p.kids, list.value, {}, w);
        }
      case Sequence => AllEnd(a, Success, p.kids, w);
      case Fallback => AllEnd(a, Failure, p.kids, w);
      case ReactiveSequence => AllEnd(a, Success, p.kids, w);
      case ReactiveFallback => AllEnd(a, Failure, p.kids, w);
    }
  }

  lemma {:induction false} AllEnd(a: Actions, pass: Status, kids: seq<Prog>, w: World)
    requires IsFinished(pass)
    requires forall i :: 0 <= i < |kids| ==> Bounded(kids[i]) && WithoutFor(kids[i]) && ActionsEnd(a, kids[i])
    ensures Ends(EvalAll(a, pass, kids, w))
    decreases kids, 0, 0
  {
    if kids != [] {
      BoundedEnds(a, kids[0], w);
      AllEnd(a, pass, kids[1..], Eval(a, kids[0], w).world);
    }
  }

  lemma {:induction false} TimesEnd(a: Actions, p: Prog, k: int, w: World)
    requires Bounded(p) && WithoutFor(p) && ActionsEnd(a, p) && k >= 1
    ensures Ends(EvalTimes(a, p, k, w))
    decreases p, 1, k
  {
    BoundedEnds(a, p, w);
    if k > 1 {
      TimesEnd(a, p, k - 1, Eval(a, p, w).world);
    }
  }

  lemma {:induction false} PickedEnd(a: Actions, kids: seq<Prog>, list: seq<nat>, seen: set<nat>, w: World)
    requires forall i :: 0 <= i < |kids| ==> Bounded(kids[i]) && WithoutFor(kids[i]) && ActionsEnd(a, kids[i])
    requires forall j :: 0 <= j < |list| ==> list[j] < |kids|
    ensures Ends(EvalPicked(a, kids, list, seen, w))
    decreases kids, 1, |list|
  {
    if list != [] {
      if list[0] in seen {
        PickedEnd(a, kids, list[1..], seen, w);
      } else {
        BoundedEnds(a, kids[list[0]], w);
        PickedEnd(a, kids, list[1..], seen + {list[0]}, Eval(a, kids[list[0]], w).world);
      }
    }
  }

  // ---------------------------------------------------------------- trees in progress

  function Skels(kids: seq<Node>): (r: seq<Prog>)
    ensures |r| == |kids| && forall i :: 0 <= i < |kids| ==> r[i] == Skel(kids[i])
  {
    seq(|kids|, i requires 0 <= i < |kids| => Skel(kids[i]))
  }

  /** A run-time tree of such a procedure. */
  predicate Fit(n: Node) {
    WellFormed(n) && WithoutFor(Skel(n))
  }

  lemma {:induction false} FitKids(n: Node)
    requires Fit(n)
    ensures forall i :: 0 <= i < |n.kids| ==> Fit(n.kids[i])
    ensures Skel(n).kids == Skels(n.kids)
  {
    forall i | 0 <= i < |n.kids| ensures Fit(n.kids[i]) {
      assert Skel(n).kids[i] == Skel(n.kids[i]);
    }
  }

  /** What a tree will still compute from the state it is in. */
  ghost function Finish(a: Actions, n: Node, w: World): Result
    requires Fit(n)
    decreases n, 0
  {
    FitKids(n);
    if IsFinished(n.status) then Result(n.status, w, 0)
    else if n.status == NotStarted then Eval(a, Skel(n), w)
    else
      match n.op
      case Action(act) => EvalAction(a, act, n.loc.mem, w)
      case Sequence => FinishAll(a, Success, n.kids, w)
      case Fallback => FinishAll(a, Failure, n.kids, w)
      case ReactiveSequence => FinishAll(a, Success, n.kids, w)
      case ReactiveFallback => FinishAll(a, Failure, n.kids, w)
      case Inverter =>
        var r := Finish(a, n.kids[0], w);
        r.(status := Invert(r.status))
      case ForceSuccess =>
        var r := Finish(a, n.kids[0], w);
        r.(status := Forced(r.status))
      case Repeat(_) =>
        if n.loc.max < 0 then FinishForever(a, n.kids[0], w)
        else if n.loc.max <= n.loc.count then Result(Success, w, 1)
        else FinishTimes(a, n.kids[0], n.loc.max - n.loc.count, w)
      case Choice(_) =>
        if ListMissing(n.loc) then Eval(a, Skel(n), w)
        else if n.loc.picked == [] then Result(Success, w, 1)
        else FinishPicked(a, n.kids, n.loc.picked, {}, w)
  }

  ghost function FinishAll(a: Actions, pass: Status, kids: seq<Node>, w: World): Result
    requires forall i :: 0 <= i < |kids| ==> Fit(kids[i])
    decreases kids, 0
  {
    if kids == [] then Result(pass, w, 0)
    else
      var r := Finish(a, kids[0], w);
      if r.status == pass then After(r, FinishAll(a, pass, kids[1..], r.world)) else r
  }

  /** k runs to go, counting the one that may be under way. */
  ghost function FinishTimes(a: Actions, kid: Node, k: int, w: World): Result
    requires Fit(kid) && k >= 1
    decreases kid, 1
  {
    if kid.status == Success then EvalTimes(a, Skel(kid), k, w)
    else
      var r := Finish(a, kid, w);
      if r.status == Success && k > 1 then After(r, EvalTimes(a, Skel(kid), k - 1, r.world)) else r
  }

  /** Runs without limit, the first of which may be under way. */
  ghost function FinishForever(a: Actions, kid: Node, w: World): Result
    requires Fit(kid)
    decreases kid, 1
  {
    if kid.status == Success then EvalForever(a, Skel(kid), w)
    else
      var r := Finish(a, kid, w);
      if r.status == Success then After(r, EvalForever(a, Skel(kid), r.world)) else r
  }

  ghost function FinishPicked(a: Actions, kids: seq<Node>, list: seq<nat>, seen: set<nat>, w: World): Result
    requires forall i :: 0 <= i < |kids| ==> Fit(kids[i])
    requires forall j :: 0 <= j < |list| ==> list[j] < |kids|
    decreases kids, |list|
  {
    if list == [] then Result(Success, w, 0)
    else if list[0] in seen then FinishPicked(a, kids, list[1..], seen, w)
    else
      var r := Finish(a, kids[list[0]], w);
      if r.status == Success then After(r, FinishPicked(a, kids, list[1..], seen + {list[0]}, r.world)) else r
  }

  // ---------------------------------------------------------------- nothing started yet

  lemma {:induction false} FreshAll(a: Actions, pass: Status, kids: seq<Node>, w: World)
    requires forall i :: 0 <= i < |kids| ==> Fit(kids[i]) && kids[i].status == NotStarted
    ensures FinishAll(a, pass, kids, w) == EvalAll(a, pass, Skels(kids), w)
    decreases |kids|
  {
    if kids != [] {
      assert Skels(kids)[1..] == Skels(kids[1..]);
      FreshAll(a, pass, kids[1..], Finish(a, kids[0], w).world);
    }
  }

  lemma {:induction false} FreshPicked(a: Actions, kids: seq<Node>, list: seq<nat>, seen: set<nat>, w: World)
    requires forall i :: 0 <= i < |kids| ==> Fit(kids[i]) && kids[i].status == NotStarted
    requires forall j :: 0 <= j < |list| ==> list[j] < |kids|
    ensures FinishPicked(a, kids, list, seen, w) == EvalPicked(a, Skels(kids), list, seen, w)
    decreases |list|
  {
    if list != [] {
      if list[0] in seen {
        FreshPicked(a, kids, list[1..], seen, w);
      } else {
        FreshPicked(a, kids, list[1..], seen + {list[0]}, Finish(a, kids[list[0]], w).world);
      }
    }
  }

  // ---------------------------------------------------------------- what reactive instructions need

  /** No node is Running. */
  predicate Crisp(n: Node) {
    n.status != Running && forall i :: 0 <= i < |n.kids| ==> Crisp(n.kids[i])
  }

  /** No node inside a reactive instruction is Running. */
  predicate Calm(n: Node) {
    (IsReactive(n.op) ==> Crisp(n)) && forall i :: 0 <= i < |n.kids| ==> Calm(n.kids[i])
  }

  lemma {:induction false} FreshIsCrisp(n: Node)
    requires AllFresh(n)
    ensures Crisp(n) && Calm(n)
    decreases n
  {
    forall i | 0 <= i < |n.kids| ensures Crisp(n.kids[i]) && Calm(n.kids[i]) {
      FreshIsCrisp(n.kids[i]);
    }
  }

  lemma {:induction false} VerdictCrisp(pass: Status, ss: seq<Status>)
    requires pass != Running && forall i :: 0 <= i < |ss| ==> ss[i] != Running
    ensures Verdict(pass, ss) != Running
  {
    if ss != [] {
      VerdictCrisp(pass, ss[1..]);
    }
  }

  lemma {:induction false} AloneCrisp(a: Actions, n: Node, w: World)
    requires WellFormed(n) && NextCall(n, w).None? && NeverRunning(a, Skel(n))
    requires forall i :: 0 <= i < |n.kids| ==> n.kids[i].status != Running
    ensures Alone(a, n, w).status != Running
  {
    assert Skel(n).op == n.op;
    VerdictCrisp(Success, Statuses(n.kids));
    VerdictCrisp(Failure, Statuses(n.kids));
    VerdictCrisp(Success, Statuses(Chosen(n.kids, n.loc.picked)));
  }

  lemma {:induction false} ConcludeCrisp(n: Node, c: Call, s: Step)
    requires WellFormed(n) && c.k < |n.kids| && !n.op.Action? && s.node.status != Running
    requires forall i :: 0 <= i < |n.kids| ==> n.kids[i].status != Running
    ensures var b := Conclude(n, c, s);
            b.status != Running && b.kids == n.kids[c.k := s.node] && b.loc.picked == n.loc.picked
  {
    var kids := n.kids[c.k := s.node];
    VerdictCrisp(Success, Statuses(kids));
    VerdictCrisp(Failure, Statuses(kids));
    VerdictCrisp(Success, Statuses(Chosen(kids, n.loc.picked)));
  }

  lemma {:induction false} TickKeepsCrisp(a: Actions, n: Node, w: World)
    requires WellFormed(n) && Live(n) && Crisp(n) && NeverRunning(a, Skel(n))
    ensures Crisp(ExecuteSingle(a, n, w).node)
    decreases Size(n)
  {
    var p := Preamble(a, n, w).node;
    SkelKids(n, p);
    if NeedsExecute(p.status) {
      var pw := Preamble(a, n, w).world;
      match NextCall(p, pw)
      case None =>
        AloneCrisp(a, p, pw);
        AloneFacts(a, p, pw);
        assert ExecuteSingle(a, n, w).node.kids == n.kids;
      case Some(c) =>
        CalledIsQuiet(n, c);
        assert Skel(n).kids[c.k] == Skel(n.kids[c.k]);
        TickKeepsCrisp(a, c.child, c.world);
        ConcludeCrisp(p, c, ExecuteSingle(a, c.child, c.world));
    }
  }

  /** The called child, reset or not. */
  lemma {:induction false} CalledIsQuiet(n: Node, c: Call)
    requires c.k < |n.kids| && (c.child == n.kids[c.k] || c.child == Reset(n.kids[c.k])) && WellFormed(n)
    ensures Skel(c.child) == Skel(n.kids[c.k])
    ensures Live(n.kids[c.k]) ==> Live(c.child)
    ensures Crisp(n.kids[c.k]) ==> Crisp(c.child)
    ensures Calm(n.kids[c.k]) ==> Calm(c.child)
  {
    ResetSkel(n.kids[c.k]);
    ResetIsFresh(n.kids[c.k]);
    FreshIsCrisp(Reset(n.kids[c.k]));
  }

  lemma {:induction false} ResetsAreCalm(kids: seq<Node>)
    requires forall i :: 0 <= i < |kids| ==> WellFormed(kids[i])
    ensures forall i :: 0 <= i < |kids| ==> Calm(ResetAll(kids)[i])
  {
    forall i | 0 <= i < |kids| ensures Calm(ResetAll(kids)[i]) {
      ResetIsFresh(kids[i]);
      FreshIsCrisp(Reset(kids[i]));
    }
  }

  lemma {:induction false} TickKeepsCalm(a: Actions, n: Node, w: World)
    requires WellFormed(n) && Live(n) && Calm(n) && Steady(a, Skel(n))
    ensures Calm(ExecuteSingle(a, n, w).node)
    decreases Size(n)
  {
    var r := ExecuteSingle(a, n, w).node;
    var p := Preamble(a, n, w).node;
    TickKeepsTree(a, n, w);
    if IsReactive(n.op) {
      assert Skel(n).op == n.op;
      TickKeepsCrisp(a, n, w);
    }
    if NeedsExecute(p.status) {
      BodyKeepsCalm(a, n, p, Preamble(a, n, w).world);
    }
  }

  lemma {:induction false} BodyKeepsCalm(a: Actions, n: Node, p: Node, w: World)
    requires WellFormed(n) && Live(n) && Calm(n) && Steady(a, Skel(n))
    requires WellFormed(p) && p.kids == n.kids && p.op == n.op && Size(p) == Size(n)
    ensures forall i :: 0 <= i < |ExecuteImpl(a, p, w).kids| ==> Calm(ExecuteImpl(a, p, w).kids[i])
    decreases Size(n), 0
  {
    match NextCall(p, w)
    case None => AloneFacts(a, p, w);
    case Some(c) =>
      CalledIsQuiet(n, c);
      assert Skel(n).kids[c.k] == Skel(n.kids[c.k]);
      TickKeepsCalm(a, c.child, c.world);
      TickKeepsTree(a, c.child, c.world);
      var s := ExecuteSingle(a, c.child, c.world);
      ConcludeFacts(p, c, s);
      ResetsAreCalm(n.kids[c.k := s.node]);
  }

  // ---------------------------------------------------------------- one tick of progress

  /** The second state finishes as the first does, one tick earlier, or neither finishes. */
  predicate OneTickLess(before: Result, after: Result) {
    if Ends(before) then before == Result(after.status, after.world, after.ticks + 1) else !Ends(after)
  }

  lemma {:induction false} SkipPassed(a: Actions, pass: Status, kids: seq<Node>, k: nat, w: World)
    requires forall i :: 0 <= i < |kids| ==> Fit(kids[i])
    requires IsFinished(pass) && k <= |kids| && forall i :: 0 <= i < k ==> kids[i].status == pass
    ensures FinishAll(a, pass, kids, w) == FinishAll(a, pass, kids[k..], w)
    decreases k
  {
    if k > 0 {
      SkipPassed(a, pass, kids[1..], k - 1, w);
      assert kids[1..][k - 1..] == kids[k..];
    }
  }

  /** Once the first k children passed, the next one decides or the rest goes on. */
  lemma {:induction false} FinishAllAt(a: Actions, pass: Status, kids: seq<Node>, k: nat, w: World)
    requires forall i :: 0 <= i < |kids| ==> Fit(kids[i])
    requires IsFinished(pass) && k < |kids| && forall i :: 0 <= i < k ==> kids[i].status == pass
    ensures var r := Finish(a, kids[k], w);
            FinishAll(a, pass, kids, w) ==
              if r.status == pass then After(r, FinishAll(a, pass, kids[k + 1..], r.world)) else r
  {
    SkipPassed(a, pass, kids, k, w);
    assert kids[k..][1..] == kids[k + 1..];
  }

  /** Executing the child in turn of a compound. */
  lemma {:induction false} AllAdvances(a: Actions, pass: Status, kids: seq<Node>, w: World, s: Step)
    requires forall i :: 0 <= i < |kids| ==> Fit(kids[i])
    requires IsFinished(pass) && Progress(pass, Statuses(kids)) && Fit(s.node)
    requires s.node.status != NotStarted
    requires OneTickLess(Finish(a, kids[Pick(Statuses(kids))], w), Finish(a, s.node, s.world))
    ensures var after := kids[Pick(Statuses(kids)) := s.node];
            var v := Verdict(pass, Statuses(after));
            OneTickLess(FinishAll(a, pass, kids, w),
                        if IsFinished(v) then Result(v, s.world, 0) else FinishAll(a, pass, after, s.world))
  {
    var k := Pick(Statuses(kids));
    var after := kids[k := s.node];
    var ss := Statuses(after);
    FinishAllAt(a, pass, kids, k, w);
    FinishAllAt(a, pass, after, k, s.world);
    assert kids[k + 1..] == after[k + 1..];
    VerdictAt(pass, ss, k);
    if s.node.status == pass {
      VerdictAt(pass, ss, k + 1);
    }
  }

  lemma {:induction false} PickedAgrees(a: Actions, kids: seq<Node>, others: seq<Node>, list: seq<nat>,
      seen: set<nat>, w: World)
    requires |kids| == |others| && forall i :: 0 <= i < |kids| ==> Fit(kids[i]) && Fit(others[i])
    requires forall j :: 0 <= j < |list| ==> list[j] < |kids|
    requires forall i :: 0 <= i < |kids| && i !in seen ==> kids[i] == others[i]
    ensures FinishPicked(a, kids, list, seen, w) == FinishPicked(a, others, list, seen, w)
    decreases |list|
  {
    if list != [] {
      if list[0] in seen {
        PickedAgrees(a, kids, others, list[1..], seen, w);
      } else {
        PickedAgrees(a, kids, others, list[1..], seen + {list[0]}, Finish(a, kids[list[0]], w).world);
      }
    }
  }

  function Members(list: seq<nat>): set<nat> {
    set j | 0 <= j < |list| :: list[j]
  }

  lemma {:induction false} SkipPicked(a: Actions, kids: seq<Node>, list: seq<nat>, seen: set<nat>, k: nat, w: World)
    requires forall i :: 0 <= i < |kids| ==> Fit(kids[i])
    requires forall j :: 0 <= j < |list| ==> list[j] < |kids|
    requires k <= |list| && forall j :: 0 <= j < k ==> kids[list[j]].status == Success
    ensures FinishPicked(a, kids, list, seen, w) == FinishPicked(a, kids, list[k..], seen + Members(list[..k]), w)
    decreases k
  {
    if k > 0 {
      var now := if list[0] in seen then seen else seen + {list[0]};
      SkipPicked(a, kids, list[1..], now, k - 1, w);
      assert list[1..][k - 1..] == list[k..];
      assert list[..k] == [list[0]] + list[1..][..k - 1];
      MembersCons(list[0], list[1..][..k - 1]);
      assert now + Members(list[1..][..k - 1]) == seen + Members(list[..k]);
    } else {
      assert list[..0] == [] && seen + Members(list[..0]) == seen;
    }
  }

  lemma {:induction false} MembersCons(x: nat, list: seq<nat>)
    ensures Members([x] + list) == {x} + Members(list)
  {
    forall y | y in {x} + Members(list) ensures y in Members([x] + list) {
      if y != x {
        var j :| 0 <= j < |list| && list[j] == y;
        assert ([x] + list)[j + 1] == y;
      } else {
        assert ([x] + list)[0] == y;
      }
    }
  }

  /** Once every remaining pick has succeeded nothing is left to do. */
  lemma {:induction false} PickedDone(a: Actions, kids: seq<Node>, list: seq<nat>, seen: set<nat>, w: World)
    requires forall i :: 0 <= i < |kids| ==> Fit(kids[i])
    requires forall j :: 0 <= j < |list| ==> list[j] < |kids| && (kids[list[j]].status == Success || list[j] in seen)
    ensures FinishPicked(a, kids, list, seen, w) == Result(Success, w, 0)
    decreases |list|
  {
    if list != [] {
      PickedDone(a, kids, list[1..], if list[0] in seen then seen else seen + {list[0]}, w);
    }
  }

  /** After k successful picks, the next one, not picked before, is up. */
  lemma {:induction false} PickedAt(a: Actions, kids: seq<Node>, list: seq<nat>, k: nat, w: World)
    requires forall i :: 0 <= i < |kids| ==> Fit(kids[i])
    requires forall j :: 0 <= j < |list| ==> list[j] < |kids|
    requires k < |list| && list[k] !in list[..k]
    requires forall j :: 0 <= j < k ==> kids[list[j]].status == Success
    ensures var r := Finish(a, kids[list[k]], w);
            FinishPicked(a, kids, list, {}, w) ==
            if r.status == Success
            then After(r, FinishPicked(a, kids, list[k + 1..], Members(list[..k]) + {list[k]}, r.world))
            else r
  {
    SkipPicked(a, kids, list, {}, k, w);
    assert {} + Members(list[..k]) == Members(list[..k]);
    assert list[k..][0] == list[k] && list[k..][1..] == list[k + 1..];
  }

  lemma {:induction false} NextPickIsNew(kids: seq<Node>, list: seq<nat>)
    requires forall j :: 0 <= j < |list| ==> list[j] < |kids|
    requires list != [] && ChoiceProgress(kids, list)
    ensures var k := Pick(Statuses(Chosen(kids, list)));
            && list[k] !in list[..k] && (forall j :: 0 <= j < k ==> kids[list[j]].status == Success)
  {
    var ss := Statuses(Chosen(kids, list));
    var k := Pick(ss);
    forall j | 0 <= j < k ensures kids[list[j]].status == Success && list[j] != list[k] {
      assert ss[j] == Success && NeedsExecute(ss[k]);
    }
  }

  lemma {:induction false} PickedAdvances(a: Actions, kids: seq<Node>, list: seq<nat>, w: World, s: Step)
    requires forall i :: 0 <= i < |kids| ==> Fit(kids[i])
    requires forall j :: 0 <= j < |list| ==> list[j] < |kids|
    requires list != [] && ChoiceProgress(kids, list) && Fit(s.node)
    requires s.node.status != NotStarted
    requires OneTickLess(Finish(a, kids[list[Pick(Statuses(Chosen(kids, list)))]], w), Finish(a, s.node, s.world))
    ensures var after := kids[list[Pick(Statuses(Chosen(kids, list)))] := s.node];
            var v := Verdict(Success, Statuses(Chosen(after, list)));
            OneTickLess(FinishPicked(a, kids, list, {}, w),
                        if IsFinished(v) then Result(v, s.world, 0) else FinishPicked(a, after, list, {}, s.world))
  {
    var k := Pick(Statuses(Chosen(kids, list)));
    var x := list[k];
    var after := kids[x := s.node];
    NextPickIsNew(kids, list);
    PickedAt(a, kids, list, k, w);
    PickedAt(a, after, list, k, s.world);
    PickedAgrees(a, kids, after, list[k + 1..], Members(list[..k]) + {x}, Finish(a, kids[x], w).world);
    PickedVerdict(a, after, list, k, s.world);
  }

  /** The verdict once pick k was executed, against what the rest of the list computes. */
  lemma {:induction false} PickedVerdict(a: Actions, kids: seq<Node>, list: seq<nat>, k: nat, w: World)
    requires forall i :: 0 <= i < |kids| ==> Fit(kids[i])
    requires forall j :: 0 <= j < |list| ==> list[j] < |kids|
    requires k < |list| && forall i :: 0 <= i < k ==> kids[list[i]].status == Success
    requires forall i :: 0 <= i < |kids| && i !in list[..k + 1] ==> kids[i].status == NotStarted
    ensures var v := Verdict(Success, Statuses(Chosen(kids, list)));
            var s := kids[list[k]].status;
            && (IsFinished(v) && s == Success ==>
                  && v == Success
                  && FinishPicked(a, kids, list[k + 1..], Members(list[..k]) + {list[k]}, w) == Result(Success, w, 0))
            && (s != Success ==> v == if ReadyForExecute(s) then NotFinished else s)
  {
    var ss := Statuses(Chosen(kids, list));
    VerdictAt(Success, ss, k);
    if kids[list[k]].status == Success && IsFinished(Verdict(Success, ss)) {
      PickedVerdictDone(kids, list, k);
      PickedDone(a, kids, list[k + 1..], Members(list[..k]) + {list[k]}, w);
    }
  }

  /** When the first k + 1 picks succeeded and the rest only repeats them or never started, the
      verdict is final only if the rest repeats them. */
  lemma {:induction false} PickedVerdictDone(kids: seq<Node>, list: seq<nat>, k: nat)
    requires forall j :: 0 <= j < |list| ==> list[j] < |kids|
    requires k < |list| && forall i :: 0 <= i <= k ==> kids[list[i]].status == Success
    requires forall i :: 0 <= i < |kids| && i !in list[..k + 1] ==> kids[i].status == NotStarted
    requires IsFinished(Verdict(Success, Statuses(Chosen(kids, list))))
    ensures Verdict(Success, Statuses(Chosen(kids, list))) == Success
    ensures forall i :: k < i < |list| ==> kids[list[i]].status == Success
  {
    var ss := Statuses(Chosen(kids, list));
    var m := Pick(ss);
    forall i | 0 <= i < m ensures ss[i] == Success {
      assert IsFinished(kids[list[i]].status);
      assert list[i] in list[..k + 1];
    }
    VerdictAt(Success, ss, m);
  }

  /** Executing the child of a Repeat, reset first when it is between two runs. */
  lemma {:induction false} TimesAdvances(a: Actions, kid: Node, count: int, max: int, w: World, s: Step)
    requires Fit(kid) && Fit(s.node) && Skel(s.node) == Skel(kid) && 0 <= count < max && kid.status != Failure
    requires s.node.status != NotStarted
    requires var child := if kid.status == Success then Reset(kid) else kid;
             Fit(child) && Skel(child) == Skel(kid) && OneTickLess(Finish(a, child, w), Finish(a, s.node, s.world))
    ensures var after := if IsFinished(s.node.status) then count + 1 else count;
            var v := Counted(s.node.status, after, max);
            && (NeedsExecute(v) ==> after < max)
            && OneTickLess(FinishTimes(a, kid, max - count, w),
                           if IsFinished(v) then Result(v, s.world, 0)
                           else FinishTimes(a, s.node, max - after, s.world))
  {
  }

  /** The same without a limit. */
  lemma {:induction false} ForeverAdvances(a: Actions, kid: Node, w: World, s: Step)
    requires Fit(kid) && Fit(s.node) && Skel(s.node) == Skel(kid) && kid.status != Failure
    requires s.node.status != NotStarted
    requires var child := if kid.status == Success then Reset(kid) else kid;
             Fit(child) && Skel(child) == Skel(kid) && OneTickLess(Finish(a, child, w), Finish(a, s.node, s.world))
    ensures var v := Counted(s.node.status, 0, -1);
            OneTickLess(FinishForever(a, kid, w),
                        if IsFinished(v) then Result(v, s.world, 0) else FinishForever(a, s.node, s.world))
  {
    if kid.status == Success {
      ForeverStep(a, Skel(kid), w);
    }
  }

  lemma {:induction false} ResetFits(n: Node)
    requires Fit(n)
    ensures Fit(Reset(n)) && Skel(Reset(n)) == Skel(n)
  {
    ResetWellFormed(n);
    ResetSkel(n);
  }

  /** Initialisation, when it succeeds, does not change what a tree will compute. */
  lemma {:induction false} EnterKeepsFinish(a: Actions, n: Node, w: World)
    requires Fit(n) && Shaped(n) && NeedsExecute(n.status) && !n.op.Action?
    ensures var p := Preamble(a, n, w);
            && Fit(p.node) && p.world == w
            && (IsFinished(p.node.status) ==> n.status == NotStarted && Finish(a, n, w) == Result(p.node.status, w, 1))
            && (NeedsExecute(p.node.status) ==>
                  && Agree(Finish(a, n, w), Finish(a, p.node, w))
                  && (n.status == NotStarted ==> p.node.status == NotFinished))
  {
    var p := Preamble(a, n, w);
    SkelKids(n, p.node);
    if n.status == NotStarted && NeedsExecute(p.node.status) {
      PreambleEnters(a, n, w);
      StartedFinish(a, n, p.node, w);
    }
  }

  /** The limit a Repeat has just read. */
  predicate LimitRead(n: Node, w: World)
    requires n.op.Repeat?
  {
    && n.loc.count == 0
    && (match Resolve(n.op.limit, 0, w)
        case Some(k) => n.loc.max == if k < 0 then -1 else k
        case None => false)
  }

  lemma {:induction false} StartedFinish(a: Actions, n: Node, p: Node, w: World)
    requires Fit(n) && AllFresh(n) && !n.op.Action?
    requires Fit(p) && Skel(p) == Skel(n) && p.kids == n.kids && p.op == n.op && p.status == NotFinished && Enterable(p)
    requires (n.op.Choice? ==> p.loc == n.loc) && (n.op.Repeat? ==> LimitRead(p, w))
    ensures Agree(Eval(a, Skel(n), w), Finish(a, p, w))
  {
    FreshKids(n);
    FitKids(n);
    FreshAll(a, Success, n.kids, w);
    FreshAll(a, Failure, n.kids, w);
    assert Skel(n).op == n.op;
    match n.op {
      case Repeat(_) => StartedRepeat(a, n, p, w);
      case Choice(_) =>
      case _ =>
    }
  }

  lemma {:induction false} StartedRepeat(a: Actions, n: Node, p: Node, w: World)
    requires Fit(n) && n.op.Repeat? && n.kids[0].status == NotStarted && Skel(n).kids == Skels(n.kids)
    requires Fit(p) && p.kids == n.kids && p.op == n.op && p.status == NotFinished && LimitRead(p, w)
    ensures Agree(Eval(a, Skel(n), w), Finish(a, p, w))
  {
    FitKids(n);
    var kid := n.kids[0];
    assert Skel(n).kids[0] == Skel(kid);
    assert Finish(a, kid, w) == Eval(a, Skel(kid), w);
    ForeverStep(a, Skel(kid), w);
  }

  lemma {:induction false} ActionAdvances(a: Actions, n: Node, w: World)
    requires Fit(n) && n.op.Action? && NeedsExecute(n.status) && !n.halted
    ensures var s := ExecuteSingle(a, n, w); Fit(s.node) && OneTickLess(Finish(a, n, w), Finish(a, s.node, s.world))
  {
    var p := Preamble(a, n, w);
    TickKeepsTree(a, n, w);
    if NeedsExecute(p.node.status) {
      ActionStep(a, n.op.act, p.node.loc.mem, p.world);
    }
  }

  lemma {:induction false} AloneAdvances(a: Actions, n: Node, w: World)
    requires Fit(n) && Enterable(n) && !n.op.Action? && Begun(n) && NextCall(n, w).None?
    requires Fit(Shape.After(n, Alone(a, n, w)))
    ensures var b := Alone(a, n, w); OneTickLess(Finish(a, n, w), Finish(a, Shape.After(n, b), b.world))
  {
    if n.op.Choice? {
      ChoiceAloneAdvances(a, n, w);
    }
  }

  lemma {:induction false} ChoiceAloneAdvances(a: Actions, n: Node, w: World)
    requires Fit(n) && Enterable(n) && n.op.Choice? && Begun(n) && NextCall(n, w).None?
    requires Fit(Shape.After(n, Alone(a, n, w)))
    ensures var b := Alone(a, n, w); OneTickLess(Finish(a, n, w), Finish(a, Shape.After(n, b), b.world))
  {
    if ListMissing(n.loc) {
      FitKids(n);
      match InstructionList(n.op.selector, |n.kids|, w)
      case None =>
      case Some(list) => FreshPicked(a, n.kids, list, {}, w);
    }
  }

  predicate Begun(n: Node) {
    n.status == NotFinished || n.status == Running
  }

  /** The child of n that the tick executes took one step of its own evaluation to s. */
  ghost predicate ConcludeReady(a: Actions, n: Node, w: World, s: Step) {
    && Fit(n) && Enterable(n) && !n.op.Action? && Begun(n) && NextCall(n, w).Some?
    && (IsReactive(n.op) ==> s.node.status != Running && forall i :: 0 <= i < |n.kids| ==> n.kids[i].status != Running)
    && var c := NextCall(n, w).value;
    && Fit(c.child) && Fit(s.node) && Skel(c.child) == Skel(s.node) == Skel(n.kids[c.k])
    && c.world == w && OneTickLess(Finish(a, c.child, w), Finish(a, s.node, s.world))
    && s.node.status != NotStarted
    && Fit(Shape.After(n, Conclude(n, c, s)))
  }

  ghost predicate Concluded(a: Actions, n: Node, w: World, s: Step)
    requires ConcludeReady(a, n, w, s)
  {
    var b := Conclude(n, NextCall(n, w).value, s);
    b.world == s.world && OneTickLess(Finish(a, n, w), Finish(a, Shape.After(n, b), b.world))
  }

  lemma {:induction false} SequenceAdvances(a: Actions, n: Node, w: World, s: Step)
    requires ConcludeReady(a, n, w, s) && (n.op.Sequence? || n.op.ReactiveSequence?)
    ensures Concluded(a, n, w, s)
  {
    FitKids(n);
    AllAdvances(a, Success, n.kids, w, s);
  }

  lemma {:induction false} FallbackAdvances(a: Actions, n: Node, w: World, s: Step)
    requires ConcludeReady(a, n, w, s) && (n.op.Fallback? || n.op.ReactiveFallback?)
    ensures Concluded(a, n, w, s)
  {
    FitKids(n);
    AllAdvances(a, Failure, n.kids, w, s);
  }

  lemma {:induction false} DecoratorAdvances(a: Actions, n: Node, w: World, s: Step)
    requires ConcludeReady(a, n, w, s) && (n.op.Inverter? || n.op.ForceSuccess?)
    ensures Concluded(a, n, w, s)
  {
    FitKids(n);
  }

  lemma {:induction false} RepeatAdvances(a: Actions, n: Node, w: World, s: Step)
    requires ConcludeReady(a, n, w, s) && n.op.Repeat?
    ensures Concluded(a, n, w, s)
  {
    if n.loc.max < 0 {
      EndlessRepeatAdvances(a, n, w, s);
    } else {
      CountedRepeatAdvances(a, n, w, s);
    }
  }

  lemma {:induction false} EndlessRepeatAdvances(a: Actions, n: Node, w: World, s: Step)
    requires ConcludeReady(a, n, w, s) && n.op.Repeat? && n.loc.max < 0
    ensures Concluded(a, n, w, s)
  {
    FitKids(n);
    ForeverAdvances(a, n.kids[0], w, s);
  }

  lemma {:induction false} CountedRepeatAdvances(a: Actions, n: Node, w: World, s: Step)
    requires ConcludeReady(a, n, w, s) && n.op.Repeat? && n.loc.max >= 0
    ensures Concluded(a, n, w, s)
  {
    FitKids(n);
    TimesAdvances(a, n.kids[0], n.loc.count, n.loc.max, w, s);
  }

  lemma {:induction false} ChoiceAdvances(a: Actions, n: Node, w: World, s: Step)
    requires ConcludeReady(a, n, w, s) && (n.op.Choice?)
    ensures Concluded(a, n, w, s)
  {
    FitKids(n);
    PickedAdvances(a, n.kids, n.loc.picked, w, s);
  }

  lemma {:induction false} ConcludeAdvances(a: Actions, n: Node, w: World, s: Step)
    requires ConcludeReady(a, n, w, s)
    ensures Concluded(a, n, w, s)
  {
    if n.op.Sequence? || n.op.ReactiveSequence? {
      SequenceAdvances(a, n, w, s);
    } else if n.op.Fallback? || n.op.ReactiveFallback? {
      FallbackAdvances(a, n, w, s);
    } else if n.op.Repeat? {
      RepeatAdvances(a, n, w, s);
    } else if n.op.Choice? {
      ChoiceAdvances(a, n, w, s);
    } else {
      assert Skel(n).op == n.op;
      DecoratorAdvances(a, n, w, s);
    }
  }

  /** Every tick of such a tree is one step of the evaluation. */
  lemma {:induction false} TickAdvances(a: Actions, n: Node, w: World)
    requires Fit(n) && Shaped(n) && Live(n) && Calm(n) && Steady(a, Skel(n)) && NeedsExecute(n.status)
    ensures var s := ExecuteSingle(a, n, w); Fit(s.node) && OneTickLess(Finish(a, n, w), Finish(a, s.node, s.world))
    decreases Size(n)
  {
    if n.op.Action? {
      ActionAdvances(a, n, w);
    } else {
      TickKeepsTree(a, n, w);
      PreambleEnters(a, n, w);
      EnterKeepsFinish(a, n, w);
      var p := Preamble(a, n, w).node;
      if NeedsExecute(p.status) {
        match NextCall(p, w) {
          case None => AloneAdvances(a, p, w);
          case Some(c) => CallAdvances(a, p, w, c);
        }
      }
    }
  }

  lemma {:induction false} CalledIsFit(n: Node, w: World, c: Call)
    requires Fit(n) && Enterable(n) && NextCall(n, w) == Some(c)
    requires forall i :: 0 <= i < |n.kids| ==> Fit(n.kids[i])
    ensures Fit(c.child) && NeedsExecute(c.child.status) && c.world == w
  {
    assert Skel(n).op == n.op;
    ResetFits(n.kids[c.k]);
  }

  /** Inside a reactive instruction the called child does not stay Running. */
  lemma {:induction false} ReactiveCall(a: Actions, n: Node, c: Call)
    requires WellFormed(n) && Calm(n) && Steady(a, Skel(n)) && IsReactive(n.op) && c.k < |n.kids|
    requires WellFormed(c.child) && Live(c.child) && (c.child == n.kids[c.k] || c.child == Reset(n.kids[c.k]))
    ensures ExecuteSingle(a, c.child, c.world).node.status != Running
    ensures forall i :: 0 <= i < |n.kids| ==> n.kids[i].status != Running
  {
    assert Skel(n).op == n.op && Skel(n).kids[c.k] == Skel(n.kids[c.k]);
    assert Crisp(n.kids[c.k]);
    CalledIsQuiet(n, c);
    TickKeepsCrisp(a, c.child, c.world);
    forall i | 0 <= i < |n.kids| ensures n.kids[i].status != Running {
      assert Crisp(n.kids[i]);
    }
  }

  lemma {:induction false} CallAdvances(a: Actions, n: Node, w: World, c: Call)
    requires Fit(n) && Enterable(n) && Steady(a, Skel(n)) && NextCall(n, w) == Some(c) && Begun(n)
    requires Calm(n) && forall i :: 0 <= i < |n.kids| ==> Shaped(n.kids[i]) && Live(n.kids[i])
    requires Fit(Shape.After(n, Conclude(n, c, ExecuteSingle(a, c.child, c.world))))
    ensures var b := Conclude(n, c, ExecuteSingle(a, c.child, c.world));
            OneTickLess(Finish(a, n, w), Finish(a, Shape.After(n, b), b.world))
    decreases Size(n), 0
  {
    FitKids(n);
    CalledChild(n, w);
    CalledIsFit(n, w, c);
    CalledIsQuiet(n, c);
    assert Skel(n).kids[c.k] == Skel(n.kids[c.k]);
    TickAdvances(a, c.child, c.world);
    TickKeepsTree(a, c.child, c.world);
    if IsReactive(n.op) {
      ReactiveCall(a, n, c);
    }
    ConcludeAdvances(a, n, w, ExecuteSingle(a, c.child, c.world));
  }

  // ---------------------------------------------------------------- the whole run

  /** k ticks in a row. */
  function Ticks(a: Actions, n: Node, w: World, k: nat): (r: (Node, World))
    requires WellFormed(n)
    ensures WellFormed(r.0)
    decreases k
  {
    if k == 0 then (n, w)
    else
      TickKeepsTree(a, n, w);
      var s := ExecuteSingle(a, n, w);
      Ticks(a, s.node, s.world, k - 1)
  }

  lemma {:induction false} TickKeepsAll(a: Actions, n: Node, w: World)
    requires Fit(n) && Shaped(n) && Live(n) && Calm(n) && Steady(a, Skel(n))
    ensures var r := ExecuteSingle(a, n, w).node; Fit(r) && Shaped(r) && Live(r) && Calm(r) && Skel(r) == Skel(n)
  {
    TickKeepsTree(a, n, w);
    TickKeepsShape(a, n, w);
    TickKeepsCalm(a, n, w);
  }

  lemma {:induction false} TicksReachFinish(a: Actions, n: Node, w: World, k: nat)
    requires Fit(n) && Shaped(n) && Live(n) && Calm(n) && Steady(a, Skel(n))
    ensures var r := Finish(a, n, w);
            var t := Ticks(a, n, w, k);
            && (!Ends(r) || k < r.ticks ==> NeedsExecute(t.0.status))
            && (Ends(r) && k == r.ticks ==> t.0.status == r.status && t.1 == r.world)
    decreases k
  {
    if NeedsExecute(n.status) {
      TickAdvances(a, n, w);
      if k > 0 {
        TickKeepsAll(a, n, w);
        FirstOfTicks(a, n, w, k);
        var s := ExecuteSingle(a, n, w);
        TicksReachFinish(a, s.node, s.world, k - 1);
      }
    }
  }

  lemma {:induction false} FirstOfTicks(a: Actions, n: Node, w: World, k: nat)
    requires WellFormed(n) && WellFormed(ExecuteSingle(a, n, w).node) && k > 0
    ensures Ticks(a, n, w, k) == Ticks(a, ExecuteSingle(a, n, w).node, ExecuteSingle(a, n, w).world, k - 1)
  {
  }

  /** Small steps compute the big step. Consider a tree that has not started, freshly set up or reset.
      If its evaluation ends, ticking it takes exactly the evaluator's number of ticks, is unfinished
      until then, and ends with the evaluator's status and workspace; if it does not, because a Repeat
      with a negative limit succeeds forever or an action never finishes, the tree never finishes. */
  lemma {:induction false} SmallStepIsBigStep(a: Actions, n: Node, w: World)
    requires WellFormed(n) && WithoutFor(Skel(n)) && AllFresh(n) && Live(n) && Steady(a, Skel(n))
    ensures var r := Eval(a, Skel(n), w);
            && (forall k: nat :: !Ends(r) || k < r.ticks ==> NeedsExecute(Ticks(a, n, w, k).0.status))
            && (Ends(r) ==>
                  && r.ticks >= 1
                  && Ticks(a, n, w, r.ticks).0.status == r.status
                  && Ticks(a, n, w, r.ticks).1 == r.world)
  {
    FreshIsShaped(n);
    FreshIsCrisp(n);
    var r := Eval(a, Skel(n), w);
    TickAdvances(a, n, w);
    forall k: nat | !Ends(r) || k < r.ticks ensures NeedsExecute(Ticks(a, n, w, k).0.status) {
      TicksReachFinish(a, n, w, k);
    }
    TicksReachFinish(a, n, w, r.ticks);
  }

  /** A procedure whose limits are literal and not negative, and whose actions finish, always finishes. */
  lemma {:induction false} BoundedFinishes(a: Actions, n: Node, w: World) returns (k: nat)
    requires WellFormed(n) && Bounded(Skel(n)) && AllFresh(n) && Live(n) && Steady(a, Skel(n)) && ActionsEnd(a, Skel(n))
    ensures k >= 1 && IsFinished(Ticks(a, n, w, k).0.status)
  {
    BoundedIsWithoutFor(Skel(n));
    BoundedEnds(a, Skel(n), w);
    SmallStepIsBigStep(a, n, w);
    k := Eval(a, Skel(n), w).ticks;
  }
}
