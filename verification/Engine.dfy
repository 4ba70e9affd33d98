/** The tick engine: what one tick, a reset and a halt do to a tree of instructions. */
module Engine {
  import opened ExecutionStatus
  import opened Workspaces

  datatype Op =
    | Action(act: nat)
    | Sequence
    | Fallback
    | ReactiveSequence
    | ReactiveFallback
    | Inverter
    | ForceSuccess
    | Repeat(limit: Limit)
    | For(arrayVar: string, elementVar: string)
    | Choice(selector: string)

  /** A procedure as written: a tree of operations, each with an identity. */
  datatype Prog = Prog(id: nat, op: Op, kids: seq<Prog>)

  /** The private fields an instruction keeps between ticks. */
  datatype Local = Local(mem: int, count: int, max: int, arr: Value, picked: seq<nat>, pickedInit: bool)

  /** An instruction at run time. */
  datatype Node = Node(id: nat, op: Op, status: Status, halted: bool, loc: Local, kids: seq<Node>)

  /** What an observer sees: a call of ExecuteSingle, or a reported status. */
  datatype Event = Ticked(id: nat) | Notified(id: nat, status: Status)

  datatype Step = Step(node: Node, world: World, log: seq<Event>)

  /** What ExecuteSingleImpl leaves behind: the reported status, private fields and children. */
  datatype Body = Body(status: Status, loc: Local, kids: seq<Node>, world: World, log: seq<Event>)

  /** The one child execution inside a tick: which child, in which state and world it starts, and
      what resetting it first reported. */
  datatype Call = Call(k: nat, child: Node, world: World, log: seq<Event>)

  // ---------------------------------------------------------------- shape of a tree

  predicate IsDecorator(op: Op) {
    op.Inverter? || op.ForceSuccess? || op.Repeat? || op.For?
  }

  /** Setup refuses decorators without a child and compounds without children. */
  predicate ArityOk(op: Op, k: nat) {
    if op.Action? then k == 0 else if IsDecorator(op) then k == 1 else k >= 1
  }

  predicate WellFormed(n: Node) {
    && ArityOk(n.op, |n.kids|)
    && (forall j :: 0 <= j < |n.loc.picked| ==> n.loc.picked[j] < |n.kids|)
    && (forall i :: 0 <= i < |n.kids| ==> WellFormed(n.kids[i]))
  }

  ghost function Size(n: Node): (s: nat)
    ensures s >= 1
  {
    1 + SizeAll(n.kids)
  }

  ghost function SizeAll(kids: seq<Node>): nat {
    if kids == [] then 0 else Size(kids[0]) + SizeAll(kids[1..])
  }

  lemma {:induction false} KidSize(kids: seq<Node>, i: nat)
    requires i < |kids|
    ensures Size(kids[i]) <= SizeAll(kids)
  {
    if i > 0 {
      KidSize(kids[1..], i - 1);
    }
  }

  function Skel(n: Node): Prog {
    Prog(n.id, n.op, seq(|n.kids|, i requires 0 <= i < |n.kids| => Skel(n.kids[i])))
  }

  const IDLE: Local := Local(0, 0, 0, Scalar(0), [], false)

  /** The tree right after Setup. */
  function Fresh(p: Prog): Node {
    Node(p.id, p.op, NotStarted, false, IDLE, seq(|p.kids|, i requires 0 <= i < |p.kids| => Fresh(p.kids[i])))
  }

  // ---------------------------------------------------------------- reading children

  function Statuses(kids: seq<Node>): (ss: seq<Status>)
    ensures |ss| == |kids|
    ensures forall i :: 0 <= i < |ss| ==> ss[i] == kids[i].status
  {
    seq(|kids|, i requires 0 <= i < |kids| => kids[i].status)
  }

  /** The children a Choice works on, in list order: a child can be listed more than once. */
  function Chosen(kids: seq<Node>, picked: seq<nat>): (cs: seq<Node>)
    requires forall j :: 0 <= j < |picked| ==> picked[j] < |kids|
    ensures |cs| == |picked|
    ensures forall j :: 0 <= j < |cs| ==> cs[j] == kids[picked[j]]
  {
    seq(|picked|, j requires 0 <= j < |picked| => kids[picked[j]])
  }

  /** The first child that still needs execution; finished ones are passed over. */
  function Pick(ss: seq<Status>): (k: nat)
    ensures k <= |ss|
    ensures k < |ss| ==> NeedsExecute(ss[k])
    ensures forall i :: 0 <= i < k ==> IsFinished(ss[i])
  {
    if ss == [] || NeedsExecute(ss[0]) then 0 else 1 + Pick(ss[1..])
  }

  /** CalculateCompoundStatus: the first child that did not report `pass` decides. */
  function Verdict(pass: Status, ss: seq<Status>): (s: Status)
    ensures pass != NotStarted ==> s != NotStarted
  {
    if ss == [] then pass
    else if ss[0] == pass then Verdict(pass, ss[1..])
    else if ReadyForExecute(ss[0]) then NotFinished
    else ss[0]
  }

  // ---------------------------------------------------------------- reset and halt

  function Reset(n: Node): Node
    decreases n
  {
    n.(status := NotStarted,
       halted := false,
       loc := if n.op.Choice? then n.loc.(picked := [], pickedInit := false) else n.loc,
       kids := ResetAll(n.kids))
  }

  function ResetAll(kids: seq<Node>): (r: seq<Node>)
    ensures |r| == |kids|
    decreases kids
  {
    seq(|kids|, i requires 0 <= i < |kids| => Reset(kids[i]))
  }

  lemma {:induction false} SameSizes(kids: seq<Node>, others: seq<Node>)
    requires |kids| == |others| && forall i :: 0 <= i < |kids| ==> Size(kids[i]) == Size(others[i])
    ensures SizeAll(kids) == SizeAll(others)
  {
    if kids != [] {
      SameSizes(kids[1..], others[1..]);
    }
  }

  lemma {:induction false} ResetSize(n: Node)
    ensures Size(Reset(n)) == Size(n)
    decreases n
  {
    forall i | 0 <= i < |n.kids| ensures Size(ResetAll(n.kids)[i]) == Size(n.kids[i]) {
      ResetSize(n.kids[i]);
    }
    SameSizes(ResetAll(n.kids), n.kids);
  }

  lemma {:induction false} ResetWellFormed(n: Node)
    requires WellFormed(n)
    ensures WellFormed(Reset(n))
    decreases n
  {
    forall i | 0 <= i < |n.kids| ensures WellFormed(ResetAll(n.kids)[i]) {
      ResetWellFormed(n.kids[i]);
    }
  }

  /** A reset reports every status it changes, children first. */
  function ResetLog(n: Node): seq<Event>
    decreases n
  {
    ResetLogAll(n.kids) + (if n.status != NotStarted then [Notified(n.id, NotStarted)] else [])
  }

  function ResetLogAll(kids: seq<Node>): seq<Event>
    decreases kids
  {
    if kids == [] then [] else ResetLog(kids[0]) + ResetLogAll(kids[1..])
  }

  function Halt(n: Node): Node {
    n.(halted := true, kids := seq(|n.kids|, i requires 0 <= i < |n.kids| => Halt(n.kids[i])))
  }

  // ---------------------------------------------------------------- one tick

  function Preamble(a: Actions, n: Node, w: World): (r: Step)
    ensures r.node.kids == n.kids && r.node.id == n.id && r.node.op == n.op && r.node.halted == n.halted
    ensures r.node.status != NotStarted
    ensures WellFormed(n) ==> WellFormed(r.node)
  {
    if n.status != NotStarted then Step(n, w, [])
    else
      var i := InitHook(a, n.op, n.loc, w);
      var s := if i.0 then NotFinished else Failure;
      Step(n.(status := s, loc := i.1), w.(vars := i.2), [Notified(n.id, s)])
  }

  /** Whether initialisation succeeds, the private fields it leaves, and the variables. */
  function InitHook(a: Actions, op: Op, loc: Local, w: World): (r: (bool, Local, map<string, Value>))
    ensures r.1.picked == loc.picked
  {
    match op
    case Action(act) =>
      var i := a.init(act, w);
      (i.ok, loc.(mem := i.mem), i.vars)
    case Repeat(limit) =>
      (match Resolve(limit, 0, w)
       case Some(n) => (true, loc.(count := 0, max := if n < 0 then -1 else n), w.vars)
       case None => (false, loc.(count := 0, max := 0), w.vars))
    case For(arrayVar, _) =>
      (match Read(arrayVar, w)
       case Some(v) => (true, loc.(count := 0, arr := v), w.vars)
       case None => (false, loc.(count := 0), w.vars))
    case _ => (true, loc, w.vars)
  }

  function NoteIf(changed: bool, id: nat, s: Status): seq<Event> {
    if changed then [Notified(id, s)] else []
  }

  /** Instruction::ExecuteSingle: initialise when not started, then execute unless finished or
      halted, and report each status change. */
  function ExecuteSingle(a: Actions, n: Node, w: World): Step
    requires WellFormed(n)
    decreases Size(n), 1
  {
    var p := Preamble(a, n, w);
    var before := p.node.status;
    if NeedsExecute(before) && !n.halted then
      var b := ExecuteImpl(a, p.node, p.world);
      Step(p.node.(status := b.status, loc := b.loc, kids := b.kids), b.world,
           [Ticked(n.id)] + p.log + b.log + NoteIf(b.status != before, n.id, b.status))
    else
      Step(p.node, p.world, [Ticked(n.id)] + p.log)
  }

  /** ExecuteSingleImpl of every kind of instruction: at most one child is executed. */
  function ExecuteImpl(a: Actions, n: Node, w: World): Body
    requires WellFormed(n)
    decreases Size(n), 0
  {
    match NextCall(n, w)
    case None => Alone(a, n, w)
    case Some(c) => Conclude(n, c, ExecuteSingle(a, c.child, c.world))
  }

  /** The child execution a tick starts, if any. */
  function NextCall(n: Node, w: World): (r: Option<Call>)
    requires WellFormed(n)
    ensures r.Some? ==>
      var c := r.value;
      && c.k < |n.kids| && !n.op.Action?
      && WellFormed(c.child) && Size(c.child) < Size(n)
      && (c.child == n.kids[c.k]
          || ((n.op.Repeat? || n.op.For?) && n.kids[c.k].status == Success && c.child == Reset(n.kids[c.k])))
  {
    match n.op
    case Action(_) => None
    case Sequence => CallPicked(n, w)
    case Fallback => CallPicked(n, w)
    case ReactiveSequence => CallPicked(n, w)
    case ReactiveFallback => CallPicked(n, w)
    case Inverter => if NeedsExecute(n.kids[0].status) then Some(CallKid(n, 0, w)) else None
    case ForceSuccess => Some(CallKid(n, 0, w))
    case Repeat(_) => if n.loc.max == 0 then None else Some(CallAgain(n, w))
    case For(_, elementVar) =>
      if CanIterate(elementVar, n.loc, w)
      then Some(CallAgain(n, w.(vars := w.vars[elementVar := n.loc.arr.elems[n.loc.count]])))
      else None
    case Choice(_) =>
      var k := Pick(Statuses(Chosen(n.kids, n.loc.picked)));
      if ListMissing(n.loc) || k == |n.loc.picked| then None else Some(CallKid(n, n.loc.picked[k], w))
  }

  function CallKid(n: Node, k: nat, w: World): (c: Call)
    requires WellFormed(n) && k < |n.kids|
    ensures Size(c.child) < Size(n)
  {
    KidSize(n.kids, k);
    Call(k, n.kids[k], w, [])
  }

  /** The first child that needs execution. */
  function CallPicked(n: Node, w: World): (r: Option<Call>)
    requires WellFormed(n)
    ensures r.Some? ==> r.value.k < |n.kids| && Size(r.value.child) < Size(n) && r.value.child == n.kids[r.value.k]
  {
    var k := Pick(Statuses(n.kids));
    if k < |n.kids| then Some(CallKid(n, k, w)) else None
  }

  /** Repeat and For start the next run of a child that succeeded by resetting it. */
  function CallAgain(n: Node, w: World): (c: Call)
    requires WellFormed(n) && |n.kids| == 1
    ensures Size(c.child) < Size(n) && WellFormed(c.child)
  {
    KidSize(n.kids, 0);
    ResetSize(n.kids[0]);
    ResetWellFormed(n.kids[0]);
    if n.kids[0].status == Success
    then Call(0, Reset(n.kids[0]), w, ResetLog(n.kids[0]))
    else Call(0, n.kids[0], w, [])
  }

  /** All the checks For makes before it writes the element variable. */
  predicate CanIterate(elementVar: string, loc: Local, w: World) {
    && loc.arr.Array? && 0 <= loc.count < |loc.arr.elems|
    && CanWrite(elementVar, w) && TypeOf(w.vars[elementVar]) == loc.arr.elem
  }

  predicate ListMissing(loc: Local) {
    loc.picked == [] && !loc.pickedInit
  }

  /** The list of children a selector value stands for; none when an index is out of range. */
  function InstructionList(selector: string, n: nat, w: World): (r: Option<seq<nat>>)
    ensures r.Some? ==> forall j :: 0 <= j < |r.value| ==> r.value[j] < n
  {
    match Read(selector, w)
    case None => None
    case Some(v) =>
      match Indices(v)
      case None => None
      case Some(list) => if forall j :: 0 <= j < |list| ==> list[j] < n then Some(list) else None
  }

  /** A tick that executes no child. */
  function Alone(a: Actions, n: Node, w: World): Body
    requires WellFormed(n) && NextCall(n, w).None?
  {
    match n.op
    case Action(act) =>
      var o := a.exec(act, n.loc.mem, w);
      Body(o.status, n.loc.(mem := o.mem), n.kids, w.(vars := o.vars, calls := w.calls + [act]), [])
    case Sequence => Unchanged(n, Verdict(Success, Statuses(n.kids)), w)
    case Fallback => Unchanged(n, Verdict(Failure, Statuses(n.kids)), w)
    case ReactiveSequence => Unchanged(n, Verdict(Success, Statuses(n.kids)), w)
    case ReactiveFallback => Unchanged(n, Verdict(Failure, Statuses(n.kids)), w)
    case Inverter => Unchanged(n, Invert(n.kids[0].status), w)
    case Repeat(_) => Unchanged(n, Success, w)
    case For(_, _) =>
      Unchanged(n, if n.loc.arr.Array? && n.loc.arr.elems == [] then Success else Failure, w)
    case Choice(selector) =>
      if ListMissing(n.loc) then
        match InstructionList(selector, |n.kids|, w)
        case None => Unchanged(n, Failure, w).(loc := n.loc.(pickedInit := true))
        case Some(list) => Unchanged(n, NotFinished, w).(loc := n.loc.(picked := list, pickedInit := true))
      else
        Unchanged(n, Verdict(Success, Statuses(Chosen(n.kids, n.loc.picked))), w)
  }

  function Unchanged(n: Node, s: Status, w: World): Body {
    Body(s, n.loc, n.kids, w, [])
  }

  /** The rest of the tick once the child execution c ended in s. */
  function Conclude(n: Node, c: Call, s: Step): Body
    requires WellFormed(n) && c.k < |n.kids| && !n.op.Action?
  {
    var kids := n.kids[c.k := s.node];
    var child := s.node.status;
    var log := c.log + s.log;
    match n.op
    case Sequence => Body(Verdict(Success, Statuses(kids)), n.loc, kids, s.world, log)
    case Fallback => Body(Verdict(Failure, Statuses(kids)), n.loc, kids, s.world, log)
    case ReactiveSequence => ConcludeReactive(Success, n.loc, kids, c.k, s.world, log)
    case ReactiveFallback => ConcludeReactive(Failure, n.loc, kids, c.k, s.world, log)
    case Inverter => Body(Invert(child), n.loc, kids, s.world, log)
    case ForceSuccess => Body(if child == Failure then Success else child, n.loc, kids, s.world, log)
    case Repeat(_) =>
      var count := if n.loc.max > 0 && IsFinished(child) then n.loc.count + 1 else n.loc.count;
      Body(Counted(child, count, n.loc.max), n.loc.(count := count), kids, s.world, log)
    case For(_, _) =>
      var count := if IsFinished(child) then n.loc.count + 1 else n.loc.count;
      var max := if n.loc.arr.Array? then |n.loc.arr.elems| else 0;
      Body(Counted(child, count, max), n.loc.(count := count), kids, s.world, log)
    case Choice(_) =>
      Body(Verdict(Success, Statuses(Chosen(kids, n.loc.picked))), n.loc, kids, s.world, log)
  }

  /** A reactive node resets all the siblings of a child left Running. */
  function ConcludeReactive(pass: Status, loc: Local, kids: seq<Node>, k: nat, w: World, log: seq<Event>): Body
    requires k < |kids|
  {
    if kids[k].status == Running
    then Body(Running, loc, ResetAll(kids)[k := kids[k]], w, log + ResetLogAll(kids[..k]) + ResetLogAll(kids[k + 1..]))
    else Body(Verdict(pass, Statuses(kids)), loc, kids, w, log)
  }

  /** The status of a counting decorator, from its child's status. */
  function Counted(child: Status, count: int, max: int): Status {
    if child == Success then (if count == max then Success else NotFinished) else child
  }
}
