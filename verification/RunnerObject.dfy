/** The procedure and the runner as objects: the run loop does what RunnerModel says. */
module RunnerObject {
  import opened ExecutionStatus
  import opened Workspaces
  import opened Engine
  import opened Shape
  import opened Runs
  import opened Breakpoints
  import opened InstructionObject
  import InstructionTrees
  import Prediction
  import RunnerModel
  import Traversal
  import Trees

  /** A procedure that was set up: its root instruction, and the workspace it runs on. */
  class Procedure {
    const root: Instruction
    const env: Environment

    ghost predicate Valid()
      reads root.Repr
    {
      root.Valid() && env !in root.Repr && WellFormed(root.View())
    }

    ghost function View(): (c: Config)
      requires Valid()
      reads root.Repr, env
      ensures WellFormed(c.root)
    {
      Config(root.View(), env.world, env.log)
    }

    constructor (root: Instruction, env: Environment)
      requires root.Valid() && env !in root.Repr && WellFormed(root.View())
      ensures this.root == root && this.env == env && Valid()
    {
      this.root := root;
      this.env := env;
    }

    method ExecuteSingle(a: Actions)
      requires Valid()
      modifies root.Repr, env
      ensures Valid() && View() == Apply(a, old(View()), Tick)
    {
      TickKeepsTree(a, root.View(), env.world);
      root.ExecuteSingle(env, a);
    }

    /** Tears the workspace down, resets the instructions, and sets the workspace up again, with
        these variables. */
    method Reset(a: Actions, vars: map<string, Value>, locked: set<string>)
      requires Valid()
      modifies root.Repr, env
      ensures Valid()
      ensures var reset := Apply(a, old(View()), ResetTree);
              WellFormed(reset.root) && View() == Apply(a, reset, Write(vars, locked))
    {
      ResetWellFormed(root.View());
      root.Reset(env);
      env.world := env.world.(vars := vars, locked := locked);
    }

    method Halt(a: Actions)
      requires Valid()
      modifies root.Repr
      ensures Valid() && View() == Apply(a, old(View()), HaltTree)
    {
      HaltWellFormed(root.View());
      root.Halt();
    }

    function GetStatus(): (s: Status)
      reads root
      ensures Valid() ==> s == View().root.status
    {
      root.status
    }

    /** The tree of the instructions that come next, or nothing when the root cannot be executed. */
    method GetNextInstructionTree() returns (r: Option<Trees.Tree>)
      requires Valid()
      ensures r == if ReadyForExecute(View().root.status) then Some(Prediction.NextTree(View().root)) else None
    {
      if !ReadyForExecute(root.status) {
        return None;
      }
      var cells := InstructionTrees.CreateInstructionTree(root, InstructionTrees.NextInstructions);
      InstructionTrees.TreeAtIsBuilt(cells, 0);
      InstructionTrees.UnfoldIsNextTree(root.View());
      r := Some(InstructionTrees.TreeAt(cells, 0));
    }

    method GetNextInstructions() returns (result: seq<nat>)
      requires Valid()
      ensures result == Prediction.GetNextInstructions(View().root)
    {
      var tree := GetNextInstructionTree();
      if tree.None? {
        return [];
      }
      result := Traversal.FlattenBFS(tree.value);
    }

    method GetNextLeaves() returns (result: seq<nat>)
      requires Valid()
      ensures result == Prediction.GetNextLeaves(View().root)
    {
      var tree := GetNextInstructionTree();
      if tree.None? {
        return [];
      }
      result := Traversal.GetLeaves(tree.value);
    }
  }

  /** One iteration of the run loop, on values: a hit ends the run, a tick goes on with it. */
  lemma {:induction false} Unroll(a: Actions, m: RunnerModel.Machine, r: RunnerModel.Machine, ticks: nat,
      goal: RunnerModel.Machine)
    requires RunnerModel.MachineOk(m) && !RunnerModel.IsFinishedRoot(m.config.root) && ticks > 0
    requires r == if RunnerModel.IsHit(m) then RunnerModel.TestBreakpoints(m) else RunnerModel.Iterate(a, m)
    requires RunnerModel.ExecuteProcedure(a, m, ticks) == goal
    ensures RunnerModel.IsHit(m) ==> r == goal
    ensures !RunnerModel.IsHit(m) ==> RunnerModel.MachineOk(r) && RunnerModel.ExecuteProcedure(a, r, ticks - 1) == goal
  {
  }

  class Runner {
    const proc: Procedure
    const manager: BreakpointManager
    var current: seq<nat>
    var halt: bool

    ghost predicate Valid()
      reads manager, proc.root.Repr
    {
      proc.Valid() && manager.Valid() && manager !in proc.root.Repr && this !in proc.root.Repr
    }

    ghost function View(): (m: RunnerModel.Machine)
      requires Valid()
      reads `current, manager, proc.root.Repr, proc.env
      ensures RunnerModel.MachineOk(m)
    {
      RunnerModel.Machine(proc.View(), manager.breakpoints, current)
    }

    constructor (proc: Procedure, manager: BreakpointManager)
      requires proc.Valid() && manager.Valid() && manager !in proc.root.Repr
      ensures this.proc == proc && this.manager == manager && Valid()
      ensures View() == RunnerModel.Machine(proc.View(), manager.breakpoints, [])
    {
      this.proc := proc;
      this.manager := manager;
      current := [];
      halt := false;
    }

    /** One tick, after which all breakpoints are armed again. */
    method ExecuteSingle(a: Actions)
      requires Valid()
      modifies proc.root.Repr, proc.env, manager
      ensures Valid() && View() == RunnerModel.TickMachine(a, old(View()))
      ensures halt == old(halt)
    {
      proc.ExecuteSingle(a);
      manager.ResetBreakpoints();
    }

    method Pause()
      modifies `halt
      ensures halt
    {
      halt := true;
    }

    method Halt(a: Actions)
      requires Valid()
      modifies proc.root.Repr, `halt
      ensures Valid() && halt && View() == old(View()).(config := Apply(a, old(proc.View()), HaltTree))
    {
      halt := true;
      proc.Halt(a);
    }

    predicate IsFinished()
      reads proc.root
      ensures Valid() ==> IsFinished() == RunnerModel.IsFinishedRoot(proc.root.View())
    {
      proc.GetStatus() == Success || proc.GetStatus() == Failure || proc.root.haltRequested
    }

    /** The hit test of one iteration. */
    method HandleBreakpoints() returns (hit: bool)
      requires Valid()
      modifies manager, `current
      ensures Valid() && View() == RunnerModel.TestBreakpoints(old(View()))
      ensures hit <==> RunnerModel.IsHit(old(View()))
    {
      var next := proc.GetNextInstructions();
      if next == [] {
        return false;
      }
      current := manager.HandleBreakpoints(next);
      return current != [];
    }

    /** One iteration: it ticks unless a breakpoint is hit. */
    method Iterate(a: Actions) returns (hit: bool)
      requires Valid()
      modifies proc.root.Repr, proc.env, manager, `current
      ensures Valid() && (hit <==> RunnerModel.IsHit(old(View())))
      ensures View() == if hit then RunnerModel.TestBreakpoints(old(View())) else RunnerModel.Iterate(a, old(View()))
      ensures halt == old(halt)
    {
      hit := HandleBreakpoints();
      if !hit {
        ExecuteSingle(a);
      }
    }

    /** An iteration of a run with `left` ticks to go; after the last one the other thread has asked
        for a pause. */
    method Turn(a: Actions, left: nat) returns (hit: bool)
      requires Valid() && left > 0 && !halt
      modifies proc.root.Repr, proc.env, manager, this
      ensures Valid() && (hit <==> RunnerModel.IsHit(old(View()))) && (halt <==> !hit && left == 1)
      ensures View() == if hit then RunnerModel.TestBreakpoints(old(View())) else RunnerModel.Iterate(a, old(View()))
    {
      hit := Iterate(a);
      if !hit && left == 1 {
        Pause();
      }
    }

    /** A run with `left` ticks to go that ends in `goal`; it is paused exactly if none is left. */
    ghost predicate Underway(a: Actions, left: nat, goal: RunnerModel.Machine)
      reads this, manager, proc.root.Repr, proc.env
    {
      Valid() && (halt <==> left == 0) && RunnerModel.ExecuteProcedure(a, View(), left) == goal
    }

    method Advance(a: Actions, left: nat, ghost goal: RunnerModel.Machine) returns (hit: bool, rest: nat)
      requires Underway(a, left, goal) && !IsFinished() && left > 0
      modifies proc.root.Repr, proc.env, manager, this
      ensures rest < left
      ensures hit ==> Valid() && View() == goal
      ensures !hit ==> Underway(a, rest, goal)
    {
      ghost var before := View();
      rest := left - 1;
      hit := Turn(a, left);
      Unroll(a, before, View(), left, goal);
    }

    /** The halt flag is cleared; the pause may be requested before the first tick. */
    method Begin(a: Actions, ticks: nat, ghost goal: RunnerModel.Machine)
      requires Valid() && RunnerModel.ExecuteProcedure(a, View(), ticks) == goal
      modifies `halt
      ensures Underway(a, ticks, goal)
    {
      halt := false;
      if ticks == 0 {
        Pause();
      }
    }

    lemma {:induction false} Over(a: Actions, left: nat, goal: RunnerModel.Machine)
      requires Underway(a, left, goal) && (IsFinished() || halt)
      ensures View() == goal
    {
    }

    /** The run loop, until the procedure is finished, a breakpoint is hit, or it is paused; another
        thread pauses it once it made this number of ticks. */
    method ExecuteProcedure(a: Actions, ticks: nat)
      requires Valid()
      modifies proc.root.Repr, proc.env, manager, this
      ensures Valid() && View() == RunnerModel.ExecuteProcedure(a, old(View()), ticks)
    {
      ghost var goal := RunnerModel.ExecuteProcedure(a, View(), ticks);
      var left := ticks;
      Begin(a, ticks, goal);
      while !IsFinished() && !halt
        invariant Underway(a, left, goal)
        decreases left
      {
        var hit, rest := Advance(a, left, goal);
        if hit {
          return;
        }
        left := rest;
      }
      Over(a, left, goal);
    }
  }
}
