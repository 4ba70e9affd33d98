/** Instructions as the objects they are: each tick, reset and halt updates the tree in place, and
    does exactly what the functions of Engine say. */
module InstructionObject {
  import opened ExecutionStatus
  import opened Workspaces
  import opened Engine
  import opened Shape
  import Prediction

  /** The workspace and user interface every instruction is executed with. */
  class Environment {
    var world: World
    ghost var log: seq<Event>

    constructor (w: World)
      ensures world == w && log == []
    {
      world := w;
      log := [];
    }

    method UpdateInstructionStatus(id: nat, s: Status)
      modifies this`log
      ensures log == old(log) + [Notified(id, s)]
    {
      log := log + [Notified(id, s)];
    }
  }

  /** The objects of some subtrees. */
  ghost function Owned(children: seq<Instruction>): (r: set<object>)
    ensures forall i, x :: 0 <= i < |children| && x in children[i].Repr ==> x in r
    ensures forall x :: x in r ==> exists i :: 0 <= i < |children| && x in children[i].Repr
  {
    set i, x | 0 <= i < |children| && x in children[i].Repr :: x
  }

  class Instruction {
    const id: nat
    const op: Op
    const children: seq<Instruction>
    ghost const Repr: set<object>
    var status: Status
    var statusBefore: Status
    var haltRequested: bool

    // An action's own state; the counter, limit and array of Repeat and For; Choice's list.
    var mem: int
    var count: int
    var maxCount: int
    var array_: Value
    var instructionList: seq<nat>
    var listInitialized: bool

    /** The objects of the tree: every subtree owns its own. */
    ghost predicate Valid()
      decreases Repr
    {
      && this in Repr
      && (forall i :: 0 <= i < |children| ==>
            children[i].Repr < Repr && this !in children[i].Repr && children[i].Valid())
      && (forall i, j :: 0 <= i < j < |children| ==> children[i].Repr !! children[j].Repr)
    }

    ghost function Fields(): Local
      reads this
    {
      Local(mem, count, maxCount, array_, instructionList, listInitialized)
    }

    ghost function View(): Node
      requires Valid()
      reads Repr
      decreases Repr
    {
      Node(id, op, status, haltRequested, Fields(), Kids())
    }

    ghost function Kids(): (r: seq<Node>)
      requires Valid()
      reads Repr - {this}
      ensures |r| == |children|
      decreases Repr, 0
    {
      seq(|children|, i requires 0 <= i < |children| reads Repr - {this} => children[i].View())
    }

    constructor (id: nat, op: Op, children: seq<Instruction>)
      requires forall i :: 0 <= i < |children| ==> children[i].Valid()
      requires forall i, j :: 0 <= i < j < |children| ==> children[i].Repr !! children[j].Repr
      ensures Valid() && fresh(Repr - Owned(children))
      ensures this.id == id && this.op == op && this.children == children
      ensures status == NotStarted && !haltRequested && Fields() == IDLE
    {
      this.id := id;
      this.op := op;
      this.children := children;
      status, statusBefore, haltRequested := NotStarted, NotStarted, false;
      mem, count, maxCount, array_, instructionList, listInitialized := 0, 0, 0, Scalar(0), [], false;
      Repr := {this} + Owned(children);
    }

    // ---------------------------------------------------------------- reset and halt

    method Reset(env: Environment)
      requires Valid() && env !in Repr
      modifies Repr, env`log
      ensures View() == Engine.Reset(old(View()))
      ensures env.log == old(env.log) + ResetLog(old(View()))
      decreases Repr
    {
      if op.Choice? {
        instructionList := [];
        listInitialized := false;
      }
      Concatenated(env.log, ResetLogAll(Kids()), NoteIf(status != NotStarted, id, NotStarted));
      ResetChildren(env);
      statusBefore := status;
      status := NotStarted;
      if status != statusBefore {
        env.UpdateInstructionStatus(id, status);
      }
      haltRequested := false;
    }

    method ResetChildren(env: Environment)
      requires Valid() && env !in Repr
      modifies Repr - {this}, env`log
      ensures Kids() == ResetAll(old(Kids()))
      ensures env.log == old(env.log) + ResetLogAll(old(Kids()))
      decreases Repr, 1
    {
      ghost var before := Kids();
      assert ResetLogAll(before[..0]) == [];
      for i := 0 to |children|
        invariant forall j :: 0 <= j < |children| ==> Kids()[j] == if j < i then Engine.Reset(before[j]) else before[j]
        invariant env.log == old(env.log) + ResetLogAll(before[..i])
      {
        ResetLogNext(before, i);
        Concatenated(old(env.log), ResetLogAll(before[..i]), ResetLog(before[i]));
        ResetChild(env, i);
      }
      assert before[..|before|] == before;
    }

    method Halt()
      requires Valid()
      modifies Repr
      ensures View() == Engine.Halt(old(View()))
      decreases Repr
    {
      haltRequested := true;
      HaltChildren();
    }

    method HaltChildren()
      requires Valid()
      modifies Repr - {this}
      ensures Kids() == Engine.Halt(old(View())).kids
      decreases Repr, 0
    {
      ghost var before := Kids();
      assert Engine.Halt(View()).kids == seq(|before|, i requires 0 <= i < |before| => Engine.Halt(before[i]));
      for i := 0 to |children|
        invariant forall j :: 0 <= j < i ==> children[j].View() == Engine.Halt(before[j])
        invariant forall j :: i <= j < |children| ==> children[j].View() == before[j]
      {
        children[i].Halt();
      }
    }

    // ---------------------------------------------------------------- one tick

    method ExecuteSingle(env: Environment, a: Actions)
      requires Valid() && env !in Repr && WellFormed(View())
      modifies Repr, env
      ensures var s := Engine.ExecuteSingle(a, old(View()), old(env.world));
              View() == s.node && env.world == s.world && env.log == old(env.log) + s.log
      decreases Repr, 4
    {
      ghost var p := Engine.Preamble(a, View(), env.world);
      env.log := env.log + [Ticked(id)];
      Preamble(env, a);
      statusBefore := status;
      if NeedsExecute(statusBefore) && !haltRequested {
        ghost var b := ExecuteImpl(a, p.node, p.world);
        var s := ExecuteSingleImpl(env, a, p.node);
        status := s;
        Chained(old(env.log), [Ticked(id)], p.log, b.log, NoteIf(status != statusBefore, id, status));
      } else {
        Chained(old(env.log), [Ticked(id)], p.log, [], []);
      }
      Postamble(env);
    }

    method Postamble(env: Environment)
      modifies env`log
      ensures env.log == old(env.log) + NoteIf(status != statusBefore, id, status)
    {
      if status != statusBefore {
        env.UpdateInstructionStatus(id, status);
      }
    }

    method Preamble(env: Environment, a: Actions)
      requires Valid() && env !in Repr
      modifies this, env
      ensures var p := Engine.Preamble(a, old(View()), old(env.world));
              View() == p.node && env.world == p.world && env.log == old(env.log) + p.log
    {
      if status == NotStarted {
        var ok := InitHook(env, a);
        status := if ok then NotFinished else Failure;
        env.UpdateInstructionStatus(id, status);
      }
    }

    method InitHook(env: Environment, a: Actions) returns (ok: bool)
      modifies `mem, `count, `maxCount, `array_, env`world
      ensures var i := Engine.InitHook(a, op, old(Fields()), old(env.world));
              ok == i.0 && Fields() == i.1 && env.world == old(env.world).(vars := i.2)
    {
      ok := true;
      match op
      case Action(act) =>
        var i := a.init(act, env.world);
        mem, env.world := i.mem, env.world.(vars := i.vars);
        ok := i.ok;
      case Repeat(limit) =>
        count, maxCount := 0, 0;
        match Resolve(limit, 0, env.world) {
          case Some(n) => maxCount := if n < 0 then -1 else n;
          case None => ok := false;
        }
      case For(arrayVar, _) =>
        count := 0;
        match Read(arrayVar, env.world) {
          case Some(v) => array_ := v;
          case None => ok := false;
        }
      case _ =>
    }

    /** The execution of each kind of instruction does what the engine says. */
    method ExecuteSingleImpl(env: Environment, a: Actions, ghost n: Node) returns (r: Status)
      requires Valid() && env !in Repr && WellFormed(n) && Shows(n)
      modifies Repr, env
      ensures Did(ExecuteImpl(a, n, old(env.world)), r, old(env.log), env)
      ensures unchanged(`status, `statusBefore, `haltRequested)
      decreases Repr, 3
    {
      match op
      case Action(act) => r := ExecuteAction(env, a, n, act);
      case Sequence =>
        CompoundExecutes(a, n, env.world, Success);
        r := ExecuteCompound(env, a, n, Success);
      case Fallback =>
        CompoundExecutes(a, n, env.world, Failure);
        r := ExecuteCompound(env, a, n, Failure);
      case ReactiveSequence =>
        ReactiveExecutes(a, n, env.world, Success);
        r := ExecuteReactive(env, a, n, Success);
      case ReactiveFallback =>
        ReactiveExecutes(a, n, env.world, Failure);
        r := ExecuteReactive(env, a, n, Failure);
      case Inverter =>
        InverterExecutes(a, n, env.world);
        r := ExecuteInverter(env, a, n);
      case ForceSuccess =>
        ForceSuccessExecutes(a, n, env.world);
        r := ExecuteForceSuccess(env, a, n);
      case Repeat(_) =>
        RepeatExecutes(a, n, env.world);
        r := ExecuteRepeat(env, a, n);
      case For(_, elementVar) =>
        ForExecutes(a, n, env.world);
        r := ExecuteFor(env, a, n, elementVar);
      case Choice(selector) =>
        ChoiceExecutes(a, n, env.world);
        r := ExecuteChoice(env, a, n, selector);
    }

    /** n describes this instruction's kind, private fields and children. */
    ghost predicate Shows(n: Node)
      requires Valid()
      reads Repr
    {
      n.op == op && n.loc == Fields() && n.kids == Kids()
    }

    /** This instruction, the status r it returns and the environment are as b says. */
    ghost predicate Did(b: Body, r: Status, before: seq<Event>, env: Environment)
      requires Valid()
      reads Repr, env
    {
      r == b.status && Fields() == b.loc && Kids() == b.kids && env.world == b.world && env.log == before + b.log
    }

    function ChildStatus(k: nat): (s: Status)
      requires Valid() && k < |children|
      reads Repr - {this}
      ensures s == Kids()[k].status
    {
      assert children[k].Valid();
      children[k].status
    }

    method ExecuteChild(env: Environment, a: Actions, k: nat)
      requires Valid() && env !in Repr && k < |children| && WellFormed(Kids()[k])
      modifies Repr - {this}, env
      ensures var s := Engine.ExecuteSingle(a, old(Kids())[k], old(env.world));
              Kids() == old(Kids())[k := s.node] && env.world == s.world && env.log == old(env.log) + s.log
      decreases Repr, 0
    {
      children[k].ExecuteSingle(env, a);
    }

    method ResetChild(env: Environment, k: nat)
      requires Valid() && env !in Repr && k < |children|
      modifies Repr - {this}, env`log
      ensures Kids() == old(Kids())[k := Engine.Reset(old(Kids())[k])]
      ensures env.log == old(env.log) + ResetLog(old(Kids())[k])
      decreases Repr, 0
    {
      children[k].Reset(env);
    }

    method ExecuteAction(env: Environment, a: Actions, ghost n: Node, act: nat) returns (r: Status)
      requires Valid() && env !in Repr && WellFormed(n) && Shows(n) && op == Action(act)
      modifies `mem, env
      ensures Did(ExecuteImpl(a, n, old(env.world)), r, old(env.log), env)
    {
      var o := a.exec(act, mem, env.world);
      mem, env.world := o.mem, env.world.(vars := o.vars, calls := env.world.calls + [act]);
      r := o.status;
    }

    /** CalculateCompoundStatus of the compound instructions. */
    method CalculateCompoundStatus(pass: Status) returns (r: Status)
      requires Valid()
      ensures r == Verdict(pass, Statuses(Kids()))
    {
      ghost var ss := Statuses(Kids());
      for i := 0 to |children|
        invariant Verdict(pass, ss) == Verdict(pass, ss[i..])
      {
        var childStatus := ChildStatus(i);
        if childStatus == pass {
          continue;
        }
        if ReadyForExecute(childStatus) {
          return NotFinished;
        }
        return childStatus;
      }
      return pass;
    }

    /** The loop of the compound instructions: which child, if any, is executed. */
    method FindChild(pass: Status) returns (k: nat)
      requires Valid() && IsFinished(pass)
      ensures k == Pick(Statuses(Kids()))
    {
      for i := 0 to |children|
        invariant forall j :: 0 <= j < i ==> IsFinished(Kids()[j].status)
      {
        var childStatus := ChildStatus(i);
        if childStatus == pass {
          continue;
        }
        if NeedsExecute(childStatus) {
          PickIs(Statuses(Kids()), i);
          return i;
        }
      }
      NoPick(Statuses(Kids()));
      return |children|;
    }

    /** ExecuteSingleImpl of Sequence and Fallback. */
    method ExecuteCompound(env: Environment, a: Actions, ghost n: Node, pass: Status) returns (r: Status)
      requires Valid() && env !in Repr && WellFormed(n) && Shows(n)
      requires IsFinished(pass)
      modifies Repr - {this}, env
      ensures Did(CompoundBody(a, n, old(env.world), pass), r, old(env.log), env)
      decreases Repr, 2
    {
      var k := FindChild(pass);
      if k < |children| {
        ExecuteChild(env, a, k);
      }
      r := CalculateCompoundStatus(pass);
    }

    /** ExecuteSingleImpl of the reactive instructions. */
    method ExecuteReactive(env: Environment, a: Actions, ghost n: Node, pass: Status) returns (r: Status)
      requires Valid() && env !in Repr && WellFormed(n) && Shows(n)
      requires IsFinished(pass)
      modifies Repr - {this}, env
      ensures Did(ReactiveBody(a, n, old(env.world), pass), r, old(env.log), env)
      decreases Repr, 2
    {
      var k := FindChild(pass);
      if k < |children| {
        var running := ExecuteReactiveChild(env, a, k);
        if running {
          return Running;
        }
      }
      r := CalculateCompoundStatus(pass);
    }

    /** Executes child k and resets all its siblings when that leaves it Running. */
    method ExecuteReactiveChild(env: Environment, a: Actions, k: nat) returns (running: bool)
      requires Valid() && env !in Repr && k < |children| && WellFormed(Kids()[k])
      modifies Repr - {this}, env
      ensures var s := Engine.ExecuteSingle(a, old(Kids())[k], old(env.world));
              var b := ConcludeReactive(Success, Fields(), old(Kids())[k := s.node], k, s.world, s.log);
              && (running <==> s.node.status == Running)
              && Kids() == b.kids && env.world == b.world && env.log == old(env.log) + b.log
      decreases Repr, 1
    {
      ExecuteChild(env, a, k);
      var childStatus := ChildStatus(k);
      running := childStatus == Running;
      if running {
        ghost var kids := Kids();
        ghost var s := Engine.ExecuteSingle(a, old(Kids())[k], old(env.world));
        Chained(old(env.log), s.log, ResetLogAll(kids[..k]), ResetLogAll(kids[k + 1..]), []);
        ResetOtherChildren(env, k);
      }
    }

    method ResetOtherChildren(env: Environment, k: nat)
      requires Valid() && env !in Repr && k < |children|
      modifies Repr - {this}, env`log
      ensures Kids() == ResetAll(old(Kids()))[k := old(Kids())[k]]
      ensures env.log == old(env.log) + ResetLogAll(old(Kids())[..k]) + ResetLogAll(old(Kids())[k + 1..])
      decreases Repr, 0, 0
    {
      ghost var before := Kids();
      for i := 0 to |children|
        invariant forall j :: 0 <= j < |children| ==> Kids()[j] == if j < i && j != k then Engine.Reset(before[j])
          else before[j]
        invariant env.log == old(env.log) + OthersLog(before, k, i)
      {
        OthersLogNext(old(env.log), before, k, i);
        ChildrenDiffer(i, k);
        if children[i] != children[k] {
          ResetChild(env, i);
        }
      }
      OthersLogAll(before, k);
      Concatenated(old(env.log), ResetLogAll(before[..k]), ResetLogAll(before[k + 1..]));
    }

    lemma {:induction false} ChildrenDiffer(i: nat, k: nat)
      requires Valid() && i < |children| && k < |children|
      ensures children[i] == children[k] <==> i == k
    {
      assert children[i].Valid() && children[k].Valid();
    }

    method ExecuteInverter(env: Environment, a: Actions, ghost n: Node) returns (r: Status)
      requires Valid() && env !in Repr && WellFormed(n) && Shows(n) && op.Inverter?
      modifies Repr - {this}, env
      ensures Did(InverterBody(a, n, old(env.world)), r, old(env.log), env)
      decreases Repr, 2
    {
      var childStatus := ChildStatus(0);
      if NeedsExecute(childStatus) {
        ExecuteChild(env, a, 0);
      }
      childStatus := ChildStatus(0);
      r := match childStatus case Failure => Success case Success => Failure case _ => childStatus;
    }

    method ExecuteForceSuccess(env: Environment, a: Actions, ghost n: Node) returns (r: Status)
      requires Valid() && env !in Repr && WellFormed(n) && Shows(n) && op.ForceSuccess?
      modifies Repr - {this}, env
      ensures Did(ForceSuccessBody(a, n, old(env.world)), r, old(env.log), env)
      decreases Repr, 2
    {
      ExecuteChild(env, a, 0);
      r := ChildStatus(0);
      if r == Failure {
        r := Success;
      }
    }

    /** The next run of a child that succeeded, or the current one. */
    method ExecuteChildAgain(env: Environment, a: Actions, ghost n: Node)
      requires Valid() && env !in Repr && |n.kids| == 1 && WellFormed(n) && Shows(n)
      modifies Repr - {this}, env
      ensures var c := CallAgain(n, old(env.world));
              var s := Engine.ExecuteSingle(a, c.child, c.world);
              Kids() == [s.node] && env.world == s.world && env.log == old(env.log) + (c.log + s.log)
      decreases Repr, 1, 0
    {
      ghost var c := CallAgain(n, env.world);
      var childStatus := ChildStatus(0);
      if childStatus == Success {
        ResetChild(env, 0);
      }
      Concatenated(old(env.log), c.log, Engine.ExecuteSingle(a, c.child, c.world).log);
      ExecuteChild(env, a, 0);
    }

    method ExecuteRepeat(env: Environment, a: Actions, ghost n: Node) returns (r: Status)
      requires Valid() && env !in Repr && WellFormed(n) && Shows(n) && op.Repeat?
      modifies Repr - {this}, `count, env
      ensures Did(RepeatBody(a, n, old(env.world)), r, old(env.log), env)
      decreases Repr, 2
    {
      if maxCount == 0 {
        return Success;
      }
      r := ExecuteRun(env, a, n, maxCount);
    }

    /** What Repeat and For do with a child that has max runs to make. */
    method ExecuteRun(env: Environment, a: Actions, ghost n: Node, max: int) returns (r: Status)
      requires Valid() && env !in Repr && WellFormed(n) && Shows(n) && |n.kids| == 1
      modifies Repr - {this}, `count, env
      ensures Did(AgainBody(a, n, old(env.world), max), r, old(env.log), env)
      decreases Repr, 1, 1
    {
      ExecuteChildAgain(env, a, n);
      CountRun(max);
      r := CalculateStatus(max);
    }

    /** Counts a finished run of the child, unless the limit is not positive. */
    method CountRun(max: int)
      requires Valid() && |children| == 1
      modifies `count
      ensures count == old(count) + if max > 0 && IsFinished(Kids()[0].status) then 1 else 0
    {
      var childStatus := ChildStatus(0);
      if max > 0 && (childStatus == Success || childStatus == Failure) {
        count := count + 1;
      }
    }

    /** CalculateStatus of Repeat and For. */
    method CalculateStatus(max: int) returns (r: Status)
      requires Valid() && |children| == 1
      ensures r == Counted(Kids()[0].status, count, max)
    {
      var childStatus := ChildStatus(0);
      if childStatus == Success {
        return if count == max then Success else NotFinished;
      }
      return childStatus;
    }

    method ExecuteFor(env: Environment, a: Actions, ghost n: Node, elementVar: string) returns (r: Status)
      requires Valid() && env !in Repr && WellFormed(n) && Shows(n) && op.For? && op.elementVar == elementVar
      modifies Repr - {this}, `count, env
      ensures Did(ForBody(a, n, old(env.world), elementVar), r, old(env.log), env)
      decreases Repr, 2
    {
      if !array_.Array? {
        return Failure;
      }
      var max := |array_.elems|;
      if max == 0 {
        return Success;
      }
      var written := WriteElement(env, elementVar);
      if !written {
        return Failure;
      }
      r := ExecuteRun(env, a, n, max);
    }

    /** Writes the current element of the array to the element variable, if it fits. */
    method WriteElement(env: Environment, elementVar: string) returns (ok: bool)
      requires array_.Array?
      modifies env`world
      ensures ok <==> CanIterate(elementVar, Fields(), old(env.world))
      ensures env.world ==
              if ok then old(env.world).(vars := old(env.world).vars[elementVar := array_.elems[count]])
                else old(env.world)
    {
      var element := Read(elementVar, env.world);
      if element.None? || TypeOf(element.value) != array_.elem {
        return false;
      }
      if !(0 <= count < |array_.elems|) || !CanWrite(elementVar, env.world) {
        return false;
      }
      env.world := env.world.(vars := env.world.vars[elementVar := array_.elems[count]]);
      return true;
    }

    method ExecuteChoice(env: Environment, a: Actions, ghost n: Node, selector: string) returns (r: Status)
      requires Valid() && env !in Repr && WellFormed(n) && Shows(n) && op == Choice(selector)
      modifies Repr - {this}, `instructionList, `listInitialized, env
      ensures Did(ChoiceBody(a, n, old(env.world), selector), r, old(env.log), env)
      decreases Repr, 2
    {
      if instructionList == [] && !listInitialized {
        listInitialized := true;
        var ok := CreateInstructionList(env, selector);
        return if ok then NotFinished else Failure;
      }
      r := ExecuteListed(env, a, n, selector);
    }

    /** A tick of a Choice that has its list. */
    method ExecuteListed(env: Environment, a: Actions, ghost n: Node, selector: string) returns (r: Status)
      requires Valid() && env !in Repr && WellFormed(n) && Shows(n) && op == Choice(selector) && !ListMissing(n.loc)
      modifies Repr - {this}, env
      ensures Did(ChoiceBody(a, n, old(env.world), selector), r, old(env.log), env)
      decreases Repr, 1
    {
      var k := FindListedChild();
      if k < |instructionList| {
        ExecuteChild(env, a, instructionList[k]);
      }
      r := CalculateChoiceStatus();
    }

    /** The loop over the list of a Choice. */
    method FindListedChild() returns (k: nat)
      requires Valid() && forall j :: 0 <= j < |instructionList| ==> instructionList[j] < |children|
      ensures k == Pick(Statuses(Chosen(Kids(), instructionList)))
    {
      for i := 0 to |instructionList|
        invariant forall j :: 0 <= j < i ==> IsFinished(Kids()[instructionList[j]].status)
      {
        var childStatus := ChildStatus(instructionList[i]);
        if childStatus == Success {
          continue;
        }
        if NeedsExecute(childStatus) {
          PickIs(Statuses(Chosen(Kids(), instructionList)), i);
          return i;
        }
      }
      NoPick(Statuses(Chosen(Kids(), instructionList)));
      return |instructionList|;
    }

    method CreateInstructionList(env: Environment, selector: string) returns (ok: bool)
      modifies `instructionList
      ensures var list := InstructionList(selector, |children|, env.world);
              ok == list.Some? && instructionList == if ok then list.value else old(instructionList)
    {
      var v := Read(selector, env.world);
      if v.None? {
        return false;
      }
      var indices := Indices(v.value);
      if indices.None? {
        return false;
      }
      var list := [];
      for i := 0 to |indices.value|
        invariant list == indices.value[..i]
        invariant forall j :: 0 <= j < i ==> indices.value[j] < |children|
      {
        if indices.value[i] >= |children| {
          return false;
        }
        list := list + [indices.value[i]];
      }
      instructionList := list;
      return true;
    }

    /** CalculateCompoundStatus of Choice. */
    method CalculateChoiceStatus() returns (r: Status)
      requires Valid() && forall j :: 0 <= j < |instructionList| ==> instructionList[j] < |children|
      ensures r == Verdict(Success, Statuses(Chosen(Kids(), instructionList)))
    {
      ghost var ss := Statuses(Chosen(Kids(), instructionList));
      for i := 0 to |instructionList|
        invariant Verdict(Success, ss) == Verdict(Success, ss[i..])
      {
        var childStatus := ChildStatus(instructionList[i]);
        if childStatus == Success {
          continue;
        }
        if ReadyForExecute(childStatus) {
          return NotFinished;
        }
        return childStatus;
      }
      return Success;
    }

    // ---------------------------------------------------------------- what comes next

    ghost function Views(list: seq<Instruction>): (r: seq<Node>)
      requires Valid() && forall i :: 0 <= i < |list| ==> list[i] in children
      reads Repr
      ensures |r| == |list|
    {
      seq(|list|, i requires 0 <= i < |list| reads Repr => list[i].View())
    }

    method NextInstructions() returns (result: seq<Instruction>)
      requires Valid() && WellFormed(View())
      ensures forall i :: 0 <= i < |result| ==> result[i] in children
      ensures Views(result) == Prediction.NextInstructions(View())
    {
      ViewsOfChildren();
      match op
      case Action(_) => result := [];
      case Sequence => result := NextOf(Success, children);
      case Fallback => result := NextOf(Failure, children);
      case ReactiveSequence => result := NextOf(Success, children);
      case ReactiveFallback => result := NextOf(Failure, children);
      case Choice(_) =>
        result := NextOf(Success, Listed(instructionList));
      case _ => result := children;
    }

    /** The children a list of indices stands for. */
    function Listed(list: seq<nat>): (r: seq<Instruction>)
      requires Valid() && forall j :: 0 <= j < |list| ==> list[j] < |children|
      reads Repr
      ensures forall i :: 0 <= i < |r| ==> r[i] in children
      ensures Views(r) == Chosen(Kids(), list)
    {
      seq(|list|, j requires 0 <= j < |list| => children[list[j]])
    }

    lemma {:induction false} ViewsOfChildren()
      requires Valid()
      ensures Views(children) == Kids()
    {
    }

    /** The loop of NextInstructionsImpl of the compound instructions. */
    method NextOf(pass: Status, list: seq<Instruction>) returns (result: seq<Instruction>)
      requires Valid() && forall i :: 0 <= i < |list| ==> list[i] in children
      ensures forall i :: 0 <= i < |result| ==> result[i] in children
      ensures Views(result) == Prediction.NextOf(pass, Views(list))
    {
      ghost var nodes := Views(list);
      for i := 0 to |list|
        invariant Prediction.NextOf(pass, nodes) == Prediction.NextOf(pass, nodes[i..])
      {
        assert nodes[i] == list[i].View();
        var childStatus := list[i].status;
        if childStatus == pass {
          continue;
        }
        if ReadyForExecute(childStatus) {
          return [list[i]];
        }
        return [];
      }
      return [];
    }
  }

  // ---------------------------------------------------------------- what each kind executes

  lemma {:induction false} Concatenated(before: seq<Event>, x: seq<Event>, y: seq<Event>)
    ensures before + x + y == before + (x + y)
    ensures [] + x == x && before + [] == before
  {
  }

  lemma {:induction false} Chained(before: seq<Event>, x: seq<Event>, y: seq<Event>, z: seq<Event>, last: seq<Event>)
    ensures before + x + y + z + last == before + (x + y + z + last)
    ensures before + x + y + z == before + (x + y + z)
    ensures before + x + y + [] == before + (x + y)
  {
  }

  lemma {:induction false} NoPick(ss: seq<Status>)
    requires forall i :: 0 <= i < |ss| ==> IsFinished(ss[i])
    ensures Pick(ss) == |ss|
  {
  }

  function CompoundBody(a: Actions, n: Node, w: World, pass: Status): Body
    requires WellFormed(n)
  {
    var k := Pick(Statuses(n.kids));
    if k == |n.kids| then Body(Verdict(pass, Statuses(n.kids)), n.loc, n.kids, w, [])
    else
      var s := Engine.ExecuteSingle(a, n.kids[k], w);
      var kids := n.kids[k := s.node];
      Body(Verdict(pass, Statuses(kids)), n.loc, kids, s.world, s.log)
  }

  lemma {:induction false} CompoundExecutes(a: Actions, n: Node, w: World, pass: Status)
    requires WellFormed(n) && ((n.op.Sequence? && pass == Success) || (n.op.Fallback? && pass == Failure))
    ensures ExecuteImpl(a, n, w) == CompoundBody(a, n, w, pass)
  {
    var k := Pick(Statuses(n.kids));
    if k < |n.kids| {
      Concatenated([], Engine.ExecuteSingle(a, n.kids[k], w).log, []);
    }
  }

  function ReactiveBody(a: Actions, n: Node, w: World, pass: Status): Body
    requires WellFormed(n)
  {
    var k := Pick(Statuses(n.kids));
    if k == |n.kids| then Body(Verdict(pass, Statuses(n.kids)), n.loc, n.kids, w, [])
    else
      var s := Engine.ExecuteSingle(a, n.kids[k], w);
      ConcludeReactive(pass, n.loc, n.kids[k := s.node], k, s.world, s.log)
  }

  lemma {:induction false} ReactiveExecutes(a: Actions, n: Node, w: World, pass: Status)
    requires WellFormed(n)
    requires (n.op.ReactiveSequence? && pass == Success) || (n.op.ReactiveFallback? && pass == Failure)
    ensures ExecuteImpl(a, n, w) == ReactiveBody(a, n, w, pass)
  {
    var k := Pick(Statuses(n.kids));
    if k < |n.kids| {
      Concatenated([], Engine.ExecuteSingle(a, n.kids[k], w).log, []);
    }
  }

  function InverterBody(a: Actions, n: Node, w: World): Body
    requires WellFormed(n) && |n.kids| == 1
  {
    if IsFinished(n.kids[0].status) then Body(Invert(n.kids[0].status), n.loc, n.kids, w, [])
    else
      var s := Engine.ExecuteSingle(a, n.kids[0], w);
      Body(Invert(s.node.status), n.loc, n.kids[0 := s.node], s.world, s.log)
  }

  lemma {:induction false} InverterExecutes(a: Actions, n: Node, w: World)
    requires WellFormed(n) && n.op.Inverter?
    ensures ExecuteImpl(a, n, w) == InverterBody(a, n, w)
  {
    Concatenated([], Engine.ExecuteSingle(a, n.kids[0], w).log, []);
  }

  function ForceSuccessBody(a: Actions, n: Node, w: World): Body
    requires WellFormed(n) && |n.kids| == 1
  {
    var s := Engine.ExecuteSingle(a, n.kids[0], w);
    Body(if s.node.status == Failure then Success else s.node.status, n.loc, n.kids[0 := s.node], s.world, s.log)
  }

  lemma {:induction false} ForceSuccessExecutes(a: Actions, n: Node, w: World)
    requires WellFormed(n) && n.op.ForceSuccess?
    ensures ExecuteImpl(a, n, w) == ForceSuccessBody(a, n, w)
  {
    Concatenated([], Engine.ExecuteSingle(a, n.kids[0], w).log, []);
  }

  /** Executing the only child for the current or the next run, out of max. */
  function AgainBody(a: Actions, n: Node, w: World, max: int): Body
    requires WellFormed(n) && |n.kids| == 1
  {
    var c := CallAgain(n, w);
    var s := Engine.ExecuteSingle(a, c.child, c.world);
    var count := if max > 0 && IsFinished(s.node.status) then n.loc.count + 1 else n.loc.count;
    Body(Counted(s.node.status, count, max), n.loc.(count := count), [s.node], s.world, c.log + s.log)
  }

  lemma {:induction false} AgainExecutes(a: Actions, n: Node, w: World, max: int, v: World)
    requires WellFormed(n) && |n.kids| == 1
    requires NextCall(n, w) == Some(CallAgain(n, v))
    requires (n.op.Repeat? && max == n.loc.max)
      || (n.op.For? && n.loc.arr.Array? && max == |n.loc.arr.elems| && max > 0)
    ensures ExecuteImpl(a, n, w) == AgainBody(a, n, v, max)
  {
    var c := CallAgain(n, v);
    var s := Engine.ExecuteSingle(a, c.child, c.world);
    assert n.kids[0 := s.node] == [s.node];
  }

  function RepeatBody(a: Actions, n: Node, w: World): Body
    requires WellFormed(n) && |n.kids| == 1
  {
    if n.loc.max == 0 then Body(Success, n.loc, n.kids, w, []) else AgainBody(a, n, w, n.loc.max)
  }

  lemma {:induction false} RepeatExecutes(a: Actions, n: Node, w: World)
    requires WellFormed(n) && n.op.Repeat?
    ensures ExecuteImpl(a, n, w) == RepeatBody(a, n, w)
  {
    if n.loc.max != 0 {
      AgainExecutes(a, n, w, n.loc.max, w);
    }
  }

  function ForBody(a: Actions, n: Node, w: World, elementVar: string): Body
    requires WellFormed(n) && |n.kids| == 1
  {
    if CanIterate(elementVar, n.loc, w)
    then AgainBody(a, n, w.(vars := w.vars[elementVar := n.loc.arr.elems[n.loc.count]]), |n.loc.arr.elems|)
    else Body(if n.loc.arr.Array? && n.loc.arr.elems == [] then Success else Failure, n.loc, n.kids, w, [])
  }

  lemma {:induction false} ForExecutes(a: Actions, n: Node, w: World)
    requires WellFormed(n) && n.op.For?
    ensures ExecuteImpl(a, n, w) == ForBody(a, n, w, n.op.elementVar)
  {
    if CanIterate(n.op.elementVar, n.loc, w) {
      AgainExecutes(a, n, w, |n.loc.arr.elems|,
                    w.(vars := w.vars[n.op.elementVar := n.loc.arr.elems[n.loc.count]]));
    }
  }

  function ChoiceBody(a: Actions, n: Node, w: World, selector: string): Body
    requires WellFormed(n)
  {
    var k := Pick(Statuses(Chosen(n.kids, n.loc.picked)));
    if ListMissing(n.loc) then
      match InstructionList(selector, |n.kids|, w)
      case None => Body(Failure, n.loc.(pickedInit := true), n.kids, w, [])
      case Some(list) => Body(NotFinished, n.loc.(picked := list, pickedInit := true), n.kids, w, [])
    else if k == |n.loc.picked|
      then Body(Verdict(Success, Statuses(Chosen(n.kids, n.loc.picked))), n.loc, n.kids, w, [])
    else
      var s := Engine.ExecuteSingle(a, n.kids[n.loc.picked[k]], w);
      var kids := n.kids[n.loc.picked[k] := s.node];
      Body(Verdict(Success, Statuses(Chosen(kids, n.loc.picked))), n.loc, kids, s.world, s.log)
  }

  lemma {:induction false} ChoiceExecutes(a: Actions, n: Node, w: World)
    requires WellFormed(n) && n.op.Choice?
    ensures ExecuteImpl(a, n, w) == ChoiceBody(a, n, w, n.op.selector)
  {
    var k := Pick(Statuses(Chosen(n.kids, n.loc.picked)));
    if k < |n.loc.picked| {
      Concatenated([], Engine.ExecuteSingle(a, n.kids[n.loc.picked[k]], w).log, []);
    }
  }

  /** What resetting the first i children except child k reports. */
  ghost function OthersLog(kids: seq<Node>, k: nat, i: nat): seq<Event>
    requires k < |kids| && i <= |kids|
  {
    if i <= k then ResetLogAll(kids[..i]) else ResetLogAll(kids[..k]) + ResetLogAll(kids[k + 1..i])
  }

  lemma {:induction false} OthersLogNext(before: seq<Event>, kids: seq<Node>, k: nat, i: nat)
    requires k < |kids| && i < |kids|
    ensures before + OthersLog(kids, k, i + 1) == before + OthersLog(kids, k, i) + if i == k then []
      else ResetLog(kids[i])
  {
    if i < k {
      ResetLogNext(kids, i);
    } else if i > k {
      var rest := kids[k + 1..];
      ResetLogNext(rest, i - k - 1);
      assert rest[..i - k - 1] == kids[k + 1..i] && rest[..i - k] == kids[k + 1..i + 1];
    }
  }

  lemma {:induction false} OthersLogAll(kids: seq<Node>, k: nat)
    requires k < |kids|
    ensures OthersLog(kids, k, |kids|) == ResetLogAll(kids[..k]) + ResetLogAll(kids[k + 1..])
  {
    assert kids[k + 1..|kids|] == kids[k + 1..];
  }

  lemma {:induction false} ResetLogNext(kids: seq<Node>, i: nat)
    requires i < |kids|
    ensures ResetLogAll(kids[..i + 1]) == ResetLogAll(kids[..i]) + ResetLog(kids[i])
  {
    if i == 0 {
      assert kids[..1] == [kids[0]];
    } else {
      assert kids[..i + 1][1..] == kids[1..][..i] && kids[..i][1..] == kids[1..][..i - 1];
      ResetLogNext(kids[1..], i - 1);
    }
  }
}
