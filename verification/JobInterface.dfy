/** The job interface as an object: the mirror of instruction states, and the breakpoint calls that
    keep it up to date. */
module JobInterface {
  import opened ExecutionStatus
  import opened Workspaces
  import opened Engine
  import opened InstructionObject
  import opened Breakpoints
  import opened Mirror
  import Indices
  import Runs
  import InstructionMaps

  lemma {:induction false} InitialAdapter(d: Adapter)
    requires Indices.Indexes(d.index) && |d.states| == |d.index|
    requires forall i :: 0 <= i < |d.states| ==> d.states[i] == InstructionState(false, NotStarted)
    ensures Initial(d)
  {
  }

  /** InstructionStateUpdated, as the user interface receives it. */
  datatype Report = Report(index: nat, state: InstructionState)

  /** What a user interface that follows the reports knows about n instructions. */
  function Replay(n: nat, reports: seq<Report>): (r: seq<InstructionState>)
    ensures |r| == n
  {
    if reports == [] then seq(n, i => InstructionState(false, NotStarted))
    else
      var last := reports[|reports| - 1];
      var known := Replay(n, reports[..|reports| - 1]);
      if last.index < n then known[last.index := last.state] else known
  }

  lemma {:induction false} ReplayNext(n: nat, reports: seq<Report>, report: Report)
    requires report.index < n
    ensures Replay(n, reports + [report]) == Replay(n, reports)[report.index := report.state]
  {
    assert (reports + [report])[..|reports|] == reports;
  }

  class JobInterfaceAdapter {
    var index: map<nat, nat>
    var states: array<InstructionState>
    var reports: seq<Report>

    /** The user interface knows exactly the states in the mirror. */
    ghost predicate Followed()
      reads this, states
    {
      states.Length == |index| && states[..] == Replay(|index|, reports)
    }

    ghost function View(): Adapter
      reads this, states
    {
      Adapter(index, states[..])
    }

    constructor ()
      ensures View() == Adapter(map[], []) && Followed() && fresh(states)
    {
      index := map[];
      reports := [];
      states := new InstructionState[0];
    }

    /** Numbers the instructions and gives each its initial state; refused exactly if an instruction
        occurs twice. */
    method InitializeInstructionTree(root: Instruction, ghost n: Node) returns (ok: bool)
      requires root.Valid() && root.View() == n && WellFormed(n)
      modifies this
      ensures ok <==> Distinct(n)
      ensures ok ==> Initial(View()) && index.Keys == Ids(n) && Followed() && fresh(states)
      ensures !ok ==> unchanged(this)
    {
      var m := InstructionMaps.InitializeInstructionMap(root);
      if m.None? {
        return false;
      }
      InitializeStates(m.value);
      return true;
    }

    method InitializeStates(m: map<nat, nat>)
      requires Indices.Indexes(m)
      modifies this
      ensures index == m && Initial(View()) && Followed() && fresh(states)
    {
      var initialState := InstructionState(false, NotStarted);
      index := m;
      reports := [];
      states := new InstructionState[|index|](_ => initialState);
      InitialAdapter(View());
    }

    /** An unknown instruction is an error. */
    method UpdateInstructionStatus(id: nat, s: Status) returns (ok: bool)
      requires Valid(View())
      modifies states, `reports
      ensures ok <==> id in index
      ensures reports == old(reports) + if ok then [Report(index[id], StateOf(View(), id))] else []
      ensures old(Followed()) ==> Followed()
      ensures View() == UpdateStatus(old(View()), id, s) && Valid(View())
    {
      if id !in index {
        return false;
      }
      var i := index[id];
      states[i] := states[i].(status := s);
      assert View().states == old(View()).states[i := old(View()).states[i].(status := s)];
      if old(Followed()) {
        ReplayNext(|index|, reports, Report(i, states[i]));
      }
      reports := reports + [Report(i, states[i])];
      return true;
    }

    method OnBreakpointChange(id: nat, breakpointSet: bool) returns (ok: bool)
      requires Valid(View())
      modifies states, `reports
      ensures ok <==> id in index
      ensures reports == old(reports) + if ok then [Report(index[id], StateOf(View(), id))] else []
      ensures old(Followed()) ==> Followed()
      ensures View() == UpdateBreakpoint(old(View()), id, breakpointSet) && Valid(View())
    {
      if id !in index {
        return false;
      }
      var i := index[id];
      states[i] := states[i].(breakpointSet := breakpointSet);
      assert View().states == old(View()).states[i := old(View()).states[i].(breakpointSet := breakpointSet)];
      if old(Followed()) {
        ReplayNext(|index|, reports, Report(i, states[i]));
      }
      reports := reports + [Report(i, states[i])];
      return true;
    }
  }

  /** The breakpoint calls of AsyncRunner: the manager's list and its mirror change together. */
  class BreakpointClient {
    const manager: BreakpointManager
    const monitor: JobInterfaceAdapter

    /** Manager and mirror know the same instructions. */
    ghost predicate Connected()
      reads this, manager, monitor, monitor.states
    {
      manager.Valid() && Valid(monitor.View()) && manager.instructionList == monitor.index.Keys
    }

    constructor (manager: BreakpointManager, monitor: JobInterfaceAdapter)
      ensures this.manager == manager && this.monitor == monitor
    {
      this.manager := manager;
      this.monitor := monitor;
    }

    ghost function JobWith(c: Runs.Config): Job
      reads this, manager, monitor, monitor.states
    {
      Job(c, manager.breakpoints, monitor.View())
    }

    method SetBreakpoint(a: Actions, ghost c: Runs.Config, id: nat)
      requires Connected() && WellFormed(c.root)
      modifies manager, monitor.states, monitor`reports
      ensures Connected() && JobWith(c) == Happen(a, old(JobWith(c)), AddBreakpoint(id))
    {
      var r := manager.SetBreakpoint(id);
      if r == Some(true) {
        var ok := monitor.OnBreakpointChange(id, true);
      }
    }

    method RemoveBreakpoint(a: Actions, ghost c: Runs.Config, id: nat)
      requires Connected() && WellFormed(c.root)
      modifies manager, monitor.states, monitor`reports
      ensures Connected() && JobWith(c) == Happen(a, old(JobWith(c)), DropBreakpoint(id))
    {
      if !Has(manager.breakpoints, id) {
        WithoutAt(manager.breakpoints, id, |manager.breakpoints|);
      }
      var removed := manager.RemoveBreakpoint(id);
      if removed {
        var ok := monitor.OnBreakpointChange(id, false);
      }
    }
  }
}
