# oac-tree: a verified model

oac-tree executes behaviour trees ("procedures"). A tree is advanced by ticks of its root; every
instruction keeps a status between ticks. An asynchronous runner lets clients start, step, pause,
halt, reset and terminate a procedure, and set breakpoints on its instructions. This project models
that behaviour in Dafny and proves what its users rely on. `dafny verify dfyconfig.toml` checks it.

## How the model is organised

- **Statuses, workspace, actions.** `ExecutionStatus`, `Workspaces`. Actions are arbitrary functions
  of their private state and of a world made of the variables and the history of all actions executed
  so far; what an action does, and whether it stays Running, is up to them.
- **The tick engine.** `Engine` gives a tick, a reset and a halt as functions on trees of any shape
  and depth, with every status report. `InstructionObject` has the instructions as objects that are
  updated in place, and proves that each method does exactly what `Engine` says; so every theorem
  about `Engine` is one about the objects.
- **What holds between ticks.** `Shape` has the invariant, `Runs` the runs: ticks, resets, halts and
  outside writes to the workspace in any order. `Halting` says what a halt does in them.
- **Theorems about ticks.** `BigStep` (ticking computes a recursive evaluation, and never ends
  exactly if that does not), `DeMorgan` (interchangeable trees), `ResetFresh` (a reset tree is as good as new), `Prediction` and
  `PredictionLimits` (next instructions are what is executed next, and exactly when they are not),
  `Counting`, `Tallies` and `ForLoops` (Repeat and For).
- **The runner.** `Breakpoints`, `RunnerModel` and `RunnerObject` (the run loop with breakpoints),
  `StaleHits` and `RunningRoots` (where breakpoints do not do what one might expect),
  `AsyncRunner`, `AsyncSafety`, `AsyncProgress`, `AsyncRunnerObject` and `CommandHistory` (worker,
  clients and command queue as atomic steps that interleave freely), `Mirror` and `JobInterface` (the
  published instruction states).
- **Threads.** `Voting`, `Threads`, `Schedules` and `ThreadsObject` (ParallelSequence, Async and their
  wrappers), `InputAdapter` (user input requests).
- **Worklists.** `Trees`, `Traversal`, `Worklist`, `InstructionTrees`, `InstructionMaps`, `Indices`,
  `InfoTrees` and `ProcedureInfo`: the loops that build, flatten, number, copy, serialise and parse
  instruction trees, each against a recursive specification. A tree under construction is a list of
  cells; a cell number stands for a pointer.

Concurrency is modelled as state machines: one step is what happens under one lock or at one atomic
access, blocking is a step that is not enabled, and a theorem about runs is about every interleaving.

## Where the code does not do what one might expect

- A ParallelSequence with thresholds that add up to at most the number of children, both positive,
  can reach opposite verdicts for the same outcomes of its children; `Schedules.VerdictOfRun` and
  `Schedules.OppositeRuns` say exactly when the schedule matters.
- Its threshold arithmetic is exact except with 2^32 - 1 children and a zero threshold
  (`Voting.ThresholdsAreIdeal`).
- The hits a runner reports can be left over from an earlier call: `StaleHits.HitsAreOwnExactlyWhenClean`
  says exactly when a caller can rule that out. With left-over hits Paused can be published after a
  verdict: `StaleHits.LeftOverHit` has the smallest case.
- Under a Running root no breakpoint is tested, and a reactive instruction may then execute a child it
  had reset: `RunningRoots.RunningRootsRespectBreakpoints` says exactly when breakpoints are respected,
  `RunningRoots.GuardIsNotStoppedAt` has a procedure for which they are not.
- The next instructions are not always what is executed next: `PredictionLimits.PredictionLimits` says
  exactly when they are, and `PredictionLimits.RepeatedIsMispredicted` has the smallest procedure for
  which they are not.
- A For writes its element variable on every tick, not once per run of its child; `Tallies.ForWritesElement`
  is therefore about every execution of the child.

## Model

| member | source | states |
|---|---|---|
| BigStep.SmallStepIsBigStep | src/lib/sup/oac-tree/instructions/instruction.cpp:112-121 | Any tree that is freshly set up or reset, under any instructions but For, with limits of Repeat given in any way and with actions that take any number of ticks, as long as none stays Running inside a reactive instruction: if a recursive short-circuit evaluator ends, ticking stays unfinished for exactly the number of ticks it computes and ends with its status and workspace; if it does not end, the tree never finishes |
| BigStep.TickAdvances | src/lib/sup/oac-tree/instructions/instruction.cpp:112-121 | In every shape such a tree can be in between ticks, one tick leaves exactly the same final status and workspace to be computed, in one tick less; and nothing that ends, if nothing that ends was left |
| BigStep.ChoiceIsSequence | src/lib/sup/oac-tree/instructions/choice.cpp:56-161 | A Choice whose selector variable names a list of children, as one index or an array of them, evaluates as the Sequence of these children with later duplicates dropped, one tick later |
| BigStep.ListIsSelected | src/lib/sup/oac-tree/instructions/choice.cpp:110-142 | A Choice works on a list of children if and only if its selector variable holds that list, as one index or an array of indices, each of which names a child |
| BigStep.ChoiceOfNothing | src/lib/sup/oac-tree/instructions/choice.cpp:56-82 | Without such a list a Choice fails in its first tick; with an empty one it succeeds in its second |
| BigStep.RepeatMeans | src/lib/sup/oac-tree/instructions/repeat.cpp:47-60 | A Repeat without limit attribute succeeds at once; with a literal, or a variable that holds a 32-bit integer, it stands for that many runs, or for runs without end if negative; with anything else it fails |
| BigStep.RepeatIsIteration | src/lib/sup/oac-tree/instructions/repeat.cpp:47-97 | A Repeat with a positive limit runs its child up to that many times, each run in the world the previous one left, as long as the runs succeed; the last run decides |
| BigStep.ForeverFails | src/lib/sup/oac-tree/instructions/repeat.cpp:47-97 | A Repeat with a negative limit ends exactly if some run of its child fails, in the world of that run, and never succeeds |
| BigStep.BoundedFinishes | src/lib/sup/oac-tree/instructions/instruction.cpp:112-121 | A tree whose limits are literal and not negative, and whose actions finish, always finishes |
| BigStep.ActionStep | src/lib/sup/oac-tree/instructions/instruction.cpp:112-121 | An action is executed again, from the private state it left, until it is finished |
| DeMorgan.DeMorganHolds | src/lib/sup/oac-tree/instructions/fallback.cpp:37-93 | Replacing any set of Sequences and Fallbacks anywhere in any procedure by Inverter(dual(Inverter ...)) leaves the root status, the halt request, the workspace and the order of executed actions equal at every point of every run of ticks, resets, halts and outside writes, also with children that stay Running |
| DeMorgan.VerdictNegated | src/lib/sup/oac-tree/instructions/fallback.cpp:76-93 | Fallback's compound status of inverted child statuses is the inverse of Sequence's compound status |
| ResetFresh.ResetEqualsFresh | src/lib/sup/oac-tree/instructions/instruction.cpp:129-140 | From any state whatsoever, all reports, workspace effects and states after a reset equal those of a freshly set-up tree of the same procedure, for every later run |
| ResetFresh.PreambleAlike | src/lib/sup/oac-tree/instructions/repeat.cpp:47-60 | Initialisation overwrites every left-over field before it is read: two nodes that differ only in such fields are indistinguishable after it |
| Shape.TickKeepsShape | src/lib/sup/oac-tree/instructions/instruction.cpp:112-121 | Every tick keeps the invariant on child statuses, counters and lists of all kinds of instructions, whatever the actions report |
| Shape.ResetIsFresh | src/lib/sup/oac-tree/instructions/compound_instruction.cpp:58-77 | After a reset no descendant is started or halted and no Choice has a list |
| Runs.ReachableRootOk | src/lib/sup/oac-tree/instructions/instruction.cpp:112-140 | In every state reachable by ticks, resets, halts and outside writes, halted or not, every instruction is in the shape of its status; in an un-halted tree the status of an unfinished instruction follows from its children as well, and no descendant is halted |
| Runs.ReachableFormed | src/lib/sup/oac-tree/instructions/instruction.cpp:112-140 | The same for every instruction inside a reachable tree, halted or not |
| Runs.ReachableSkel | src/lib/sup/oac-tree/instructions/instruction.cpp:112-140 | No run changes which instructions the tree consists of |
| Runs.CompoundShape | src/lib/sup/oac-tree/instructions/sequence.cpp:37-54 | Between ticks, in every reachable tree, halted or not, the children of any unfinished Sequence (Fallback) are SUCCESS* (FAILURE*), one that needs execution, then only ones whose whole subtree never started |
| Runs.ReactiveShape | src/lib/sup/oac-tree/instructions/reactive_sequence.cpp:37-61 | Between ticks, in every reachable tree, halted or not, an unfinished reactive instruction has no deciding child and at most one Running child |
| Runs.RunningChildResetsSiblings | src/lib/sup/oac-tree/instructions/reactive_sequence.cpp:103-112 | A tick that leaves the executed child Running makes the reactive parent Running and resets the whole subtrees of all siblings |
| Halting.HaltReachesAll | src/lib/sup/oac-tree/instructions/compound_instruction.cpp:66-82 | A halt requests a halt on every instruction of the tree and changes no status, private field or child list |
| Halting.HaltStopsExecution | src/lib/sup/oac-tree/instructions/instruction.cpp:112-127 | From any state, after a halt and until the next reset, whatever ticks, halts and outside writes come: no action is executed, only the root is called, and below the root no status or private field changes |
| Prediction.PredictionIsExecution | src/lib/sup/oac-tree/procedure/procedure.cpp:371-389 | In every reachable un-halted state with a root that is ready, for trees without Repeat and For, GetNextInstructions lists exactly the instructions the next tick executes, in order, and GetNextLeaves is the last of them |
| Prediction.NextIsCalled | src/lib/sup/oac-tree/instructions/sequence.cpp:56-75 | In every state a tree can be in, NextInstructions names exactly the child the tick calls |
| Prediction.NextTreeIsLine | src/lib/sup/oac-tree/procedure/procedure.cpp:119-127 | The tree of next instructions is a single path |
| PredictionLimits.PredictionLimits | src/lib/sup/oac-tree/procedure/procedure.cpp:371-389 | For all procedures, Repeat and For included, and every reachable state that is not halted and not finished: GetNextInstructions lists what the next tick executes if and only if the root is not Running and its line is foretold, i.e. every Repeat and For that executes passes its own checks, and one that starts its child over finds the child naming the same instructions before its reset as after it |
| PredictionLimits.StartOverIsForetold | src/lib/sup/oac-tree/instructions/repeat.cpp:62-73 | A Repeat or For that starts over a finished Sequence, Fallback or reactive instruction is always predicted wrongly; over an action or a Choice the prediction is right exactly when its own checks pass |
| PredictionLimits.LineSurvivesReset | src/lib/sup/oac-tree/instructions/decorator_instruction.cpp:109-118 | Through any nesting of decorators: the instructions named next are the same before and after a reset for actions, for what never started and for finished Choices, and for no other finished compound |
| PredictionLimits.DecoratedStartOver | src/lib/sup/oac-tree/instructions/repeat.cpp:62-73 | A Repeat or For that starts over a child whose innermost instruction is finished is predicted rightly exactly if that is an action or a Choice, and it and the decorators in between pass their own checks |
| PredictionLimits.ReachableClosed | src/lib/sup/oac-tree/instructions/sequence.cpp:56-94 | In every reachable state the children of a finished compound have decided it |
| PredictionLimits.FinishedLine | src/lib/sup/oac-tree/instructions/decorator_instruction.cpp:109-118 | Of the instructions that are not decorators, only an action and a Choice name the same instructions when finished as after a reset |
| PredictionLimits.UncountedIsForetold | src/lib/sup/oac-tree/procedure/procedure.cpp:371-389 | Without Repeat and For every line is foretold |
| PredictionLimits.ForetoldTickRespectsBreakpoints | src/lib/sup/oac-tree/runner/runner.cpp:88-121 | In trees of any kind, reactive and counting instructions included, a tick from a root that is not Running, whose line is foretold and hits no breakpoint, executes no ready instruction whose breakpoint is armed |
| PredictionLimits.RepeatedIsMispredicted | src/lib/sup/oac-tree/instructions/repeat.cpp:68-73 | A Repeat of a Sequence of one action, after one tick: the list is not what the next tick executes |
| Tallies.CounterIsCompletedRuns | src/lib/sup/oac-tree/instructions/repeat.cpp:62-97 | At any point of any run, for every Repeat and For at any depth, the counter is the number of child runs reported as completed since its last reset; below the limit while unfinished; success only after exactly limit many, so never with a negative limit |
| Tallies.ForWritesElement | src/lib/sup/oac-tree/instructions/for.cpp:66-122 | Every execution of the child of any For inside any tick starts with the element variable equal to the snapshot element whose number is the count of completed runs, and that index is in bounds |
| Tallies.ExecutionsAreExecuted | src/lib/sup/oac-tree/instructions/instruction.cpp:112-121 | The executions the previous row speaks of are the nodes a tick executes |
| Counting.TickCounts | src/lib/sup/oac-tree/instructions/for.cpp:66-136 | A tick adds one to the count exactly when it completes a child run, however many ticks the run took |
| Counting.FinishIsReportedOnce | src/lib/sup/oac-tree/instructions/instruction.cpp:298-304 | An instruction reports that it finished once, in the tick that finishes it |
| Counting.ForKeepsSnapshot | src/lib/sup/oac-tree/instructions/for.cpp:56-64 | For works on the array it read when it started, whatever happens to the variable later |
| ForLoops.ForFailsAlone | src/lib/sup/oac-tree/instructions/for.cpp:66-122 | A tick of a For fails without its child failing if and only if it finds no array, or the array has elements and the element variable is missing, locked or of another type |
| ForLoops.ElementTick | src/lib/sup/oac-tree/instructions/for.cpp:66-136 | Any other tick over a non-empty array executes the child, reset first if it had succeeded, with the current element written; the run of the last element decides, and a failing one |
| ForLoops.SmoothForCompletes | src/lib/sup/oac-tree/instructions/for.cpp:56-136 | If it can go on before every tick and no run of its child fails, a For never fails; until it has succeeded fewer runs have completed than the array has elements, and it has succeeded exactly if as many have |
| Mirror.MirrorAgrees | src/lib/sup/oac-tree/runner/job_interface_adapter.cpp:52-78 | After any sequence of ticks, resets, halts, outside writes and breakpoint calls, the mirror holds for every instruction its current status and whether a breakpoint exists for it |
| Mirror.TickAgrees | src/lib/sup/oac-tree/instructions/instruction.cpp:282-304 | Every status change inside a tick is reported, and nothing outside the ticked tree is |
| Mirror.ResetAgrees | src/lib/sup/oac-tree/instructions/instruction.cpp:129-140 | Every status change of a reset is reported |
| JobInterface.JobInterfaceAdapter.InitializeInstructionTree | src/lib/sup/oac-tree/runner/job_interface_adapter.cpp:52-59 | Gives every instruction of the tree an initial entry; refused exactly if an instruction occurs twice |
| JobInterface.JobInterfaceAdapter.UpdateInstructionStatus | src/lib/sup/oac-tree/runner/job_interface_adapter.cpp:71-78 | Changes the status of exactly that entry and reports the entry under its index, so that a user interface that follows the reports knows exactly the mirror; an unknown instruction is an error that changes and reports nothing |
| JobInterface.JobInterfaceAdapter.OnBreakpointChange | src/lib/sup/oac-tree/runner/job_interface_adapter.cpp:114-121 | Changes the breakpoint mark of exactly that entry and reports the entry in the same way |
| JobInterface.BreakpointClient.SetBreakpoint | src/lib/sup/oac-tree/runner/async_runner.cpp:57-70 | List and mirror change together, and only when the list really changed |
| JobInterface.BreakpointClient.RemoveBreakpoint | src/lib/sup/oac-tree/runner/async_runner.cpp:72-78 | List and mirror change together, and only when the list really changed |
| RunnerModel.BreakpointsAreRespected | src/lib/sup/oac-tree/runner/runner.cpp:88-108 | For trees without reactive parts, Repeat and For, no tick ExecuteProcedure makes executes a ready instruction whose breakpoint is armed |
| RunnerModel.SecondCallTicks | src/lib/sup/oac-tree/runner/runner.cpp:88-108 | After a stop the reported hits are not empty and come next, and a second call from the same state ticks |
| RunnerModel.OnlyHitsAreReleased | src/lib/sup/oac-tree/runner/breakpoint_manager.cpp:92-124 | A call that starts with all breakpoints armed ends with exactly the reported hits disarmed if it stopped at a breakpoint, and none otherwise |
| RunnerModel.CallIsTicks | src/lib/sup/oac-tree/runner/runner.cpp:88-110 | A call leaves the procedure after some number of ticks, each made from an unfinished, un-halted state; it makes all it was given unless the procedure is finished or halted by then or a hit is reported |
| RunnerModel.ReportedHits | src/lib/sup/oac-tree/runner/runner.cpp:97-105 | Exactly when hits are reported after a call: it stopped at a breakpoint, or hits were left from before and no iteration had anything next |
| StaleHits.HitsAreOwnExactlyWhenClean | src/lib/sup/oac-tree/runner/runner.cpp:88-105 | The hits reported after a call are those of a stop in that call, however many ticks it makes, if and only if no hits were left over when it began, or the root was then ready and not halted |
| StaleHits.IdleCallIsStale | src/lib/sup/oac-tree/runner/runner.cpp:88-105 | A call on a finished or halted procedure, or one that is paused before its first test, reports exactly what was left over |
| StaleHits.PausedAfterVerdict | src/lib/sup/oac-tree/runner/async_runner.cpp:282-298 | A run without commands publishes Paused after its verdict exactly if it finishes the root, hits were left over and no iteration had anything next; never from a state without left-over hits or with a ready root |
| StaleHits.PublishedByRun | src/lib/sup/oac-tree/runner/async_runner.cpp:282-298 | Such a run publishes its verdict, if it has one, and then Paused exactly if hits are reported |
| StaleHits.PublishedByStep | src/lib/sup/oac-tree/runner/async_runner.cpp:315-345 | A step publishes the verdict of its tick, or Paused, whatever hits are left over |
| StaleHits.LeftOverHit | src/lib/sup/oac-tree/runner/async_runner.cpp:282-345 | One action with a breakpoint, started, stepped and started again: the second start publishes Succeeded and then Paused, and reports the hit of the first |
| RunningRoots.RunningRootsRespectBreakpoints | src/lib/sup/oac-tree/runner/runner.cpp:97-105 | With a Running root of any kind, the next tick respects breakpoints, wherever they are set, if and only if everything it executes is Running already |
| RunningRoots.PlainLineIsRunning | src/lib/sup/oac-tree/runner/runner.cpp:97-105 | Without reactive and counting instructions that is always so |
| RunningRoots.GuardIsNotStoppedAt | src/lib/sup/oac-tree/instructions/reactive_sequence.cpp:37-61 | A ReactiveSequence of a guard and an action that stays Running: the third tick executes the guard, ready and with its breakpoint armed, without a stop |
| RunnerModel.ExecutedNodesAreExecuted | src/lib/sup/oac-tree/instructions/instruction.cpp:112-121 | The nodes the breakpoint claims speak of are those whose execution is observed |
| Breakpoints.HitsAreStops | src/lib/sup/oac-tree/runner/breakpoint_manager.cpp:92-112 | A hit is exactly an armed breakpoint on a listed instruction |
| Breakpoints.ReleasedDoNotStop | src/lib/sup/oac-tree/runner/breakpoint_manager.cpp:92-112 | A second test of the same instructions never stops |
| Breakpoints.BreakpointManager.SetBreakpoint | src/lib/sup/oac-tree/runner/breakpoint_manager.cpp:56-75 | Unknown instructions are an error; otherwise an armed breakpoint is appended exactly if there was none |
| Breakpoints.BreakpointManager.RemoveBreakpoint | src/lib/sup/oac-tree/runner/breakpoint_manager.cpp:77-90 | Removes the breakpoint of that instruction and keeps the order of the others |
| Breakpoints.BreakpointManager.HandleBreakpoints | src/lib/sup/oac-tree/runner/breakpoint_manager.cpp:92-112 | Returns the hits in the order the breakpoints were set and disarms them |
| Breakpoints.BreakpointManager.ResetBreakpoints | src/lib/sup/oac-tree/runner/breakpoint_manager.cpp:114-124 | Arms all breakpoints and changes nothing else |
| RunnerObject.Runner.ExecuteProcedure | src/lib/sup/oac-tree/runner/runner.cpp:88-108 | The loop over the objects leaves procedure, workspace, breakpoints and hits as the run loop the breakpoint claims are about, for any moment at which another thread asks for a pause |
| RunnerObject.Runner.ExecuteSingle | src/lib/sup/oac-tree/runner/runner.cpp:110-121 | One tick of the procedure, after which all breakpoints are armed |
| RunnerObject.Runner.Halt | src/lib/sup/oac-tree/runner/runner.cpp:128-135 | Raises the halt flag and halts every instruction |
| RunnerObject.Procedure.GetNextInstructions | src/lib/sup/oac-tree/procedure/procedure.cpp:371-379 | Building the tree of next instructions with the stack loop and flattening it with the queue loop gives the predicted list |
| RunnerObject.Procedure.GetNextLeaves | src/lib/sup/oac-tree/procedure/procedure.cpp:381-389 | The same for the leaves |
| RunnerObject.Procedure.Reset | src/lib/sup/oac-tree/procedure/procedure.cpp:219-228 | Resets every instruction in place, with its reports, between tearing the workspace down and setting it up again with new variables |
| InstructionObject.Instruction.ExecuteSingle | src/lib/sup/oac-tree/instructions/instruction.cpp:112-121 | Executing the object tree in place leaves exactly the node, world and reports of the functional tick all theorems are about |
| InstructionObject.Instruction.Reset | src/lib/sup/oac-tree/instructions/instruction.cpp:129-140 | Resets the object tree in place, reporting changed statuses children first |
| InstructionObject.Instruction.Halt | src/lib/sup/oac-tree/instructions/instruction.cpp:123-127 | Marks every descendant as halted and changes nothing else |
| InstructionObject.Instruction.Preamble | src/lib/sup/oac-tree/instructions/instruction.cpp:282-296 | Initialises a node that is not started, and only then |
| InstructionObject.Instruction.InitHook | src/lib/sup/oac-tree/instructions/repeat.cpp:47-60 | Per kind: which fields initialisation sets, and when it fails |
| InstructionObject.Instruction.ExecuteSingleImpl | src/lib/sup/oac-tree/instructions/sequence.cpp:37-54 | Each kind of instruction executes in place what the functional tick says |
| InstructionObject.Instruction.ExecuteCompound | src/lib/sup/oac-tree/instructions/fallback.cpp:37-53 | Sequence and Fallback: the first child that needs execution is executed, then the verdict is taken |
| InstructionObject.Instruction.ExecuteReactive | src/lib/sup/oac-tree/instructions/reactive_fallback.cpp:37-61 | Reactive forms: as above, and a child left Running resets all its siblings |
| InstructionObject.Instruction.ResetOtherChildren | src/lib/sup/oac-tree/instructions/reactive_sequence.cpp:103-112 | Resets all children but one, with the reports in order |
| InstructionObject.Instruction.ExecuteInverter | src/lib/sup/oac-tree/instructions/inverter.cpp:37-62 | Executes an unfinished child and negates its verdict |
| InstructionObject.Instruction.ExecuteForceSuccess | src/lib/sup/oac-tree/instructions/force_success.cpp:37-47 | Executes the child and turns failure into success |
| InstructionObject.Instruction.ExecuteRepeat | src/lib/sup/oac-tree/instructions/repeat.cpp:62-97 | One tick of Repeat: reset between runs, count, verdict |
| InstructionObject.Instruction.ExecuteFor | src/lib/sup/oac-tree/instructions/for.cpp:66-136 | One tick of For: the failure cases, the write of the element, reset between runs, count, verdict |
| InstructionObject.Instruction.ExecuteChoice | src/lib/sup/oac-tree/instructions/choice.cpp:56-81 | One tick of Choice: the list is created in a tick of its own, then worked off |
| InstructionObject.Instruction.CreateInstructionList | src/lib/sup/oac-tree/instructions/choice.cpp:110-142 | Keeps the old list unless every selected index is in range |
| InstructionObject.Instruction.CalculateCompoundStatus | src/lib/sup/oac-tree/instructions/sequence.cpp:77-94 | The first child that did not pass decides |
| InstructionObject.Instruction.CalculateChoiceStatus | src/lib/sup/oac-tree/instructions/choice.cpp:144-161 | The same over the selected children |
| InstructionObject.Instruction.NextInstructions | src/lib/sup/oac-tree/instructions/decorator_instruction.cpp:109-118 | The objects named are those of the functional prediction, for every kind |
| AsyncSafety.StateGraph | src/lib/sup/oac-tree/runner/async_runner.cpp:119-258 | Over all interleavings of clients and worker, published states only move along the state graph, and ticks begin only in Running and Stepping |
| AsyncSafety.OnlyResetFollowsHalted | src/lib/sup/oac-tree/runner/async_runner.cpp:260-345 | After Halted is published the next observable event, tick or state, can only be the publication of Initial by a reset |
| AsyncSafety.QueueInvariant | src/lib/sup/oac-tree/runner/job_command_queue.cpp:38-96 | The queue is always at most one Terminate, at most one Halt, then ordinary commands, whose pop order is their push order |
| AsyncSafety.NoStuckRun | src/lib/sup/oac-tree/runner/async_runner.cpp:260-280 | Whenever the worker blocks on an empty queue the job is neither Running nor Stepping |
| AsyncSafety.VerdictMatchesRoot | src/lib/sup/oac-tree/runner/async_runner.cpp:329-345 | Outside a reset, a job published as Succeeded or Failed has a root with that status |
| AsyncSafety.HaltEndsRun | src/lib/sup/oac-tree/runner/runner.cpp:128-135 | Once the root is marked as halted the worker, on its own, comes to wait for a command within a bounded number of steps and begins at most one more tick |
| AsyncProgress.StepIsOneTick | src/lib/sup/oac-tree/runner/async_runner.cpp:315-327 | A step makes exactly one tick and publishes the verdict the tick left, or Paused |
| AsyncProgress.RunGoesOn | src/lib/sup/oac-tree/runner/runner.cpp:88-110 | A run that nothing asks to stop begins its next tick; one that was just started does so even if an earlier pause left its flag behind |
| AsyncProgress.TickLeavesResult | src/lib/sup/oac-tree/runner/async_runner.cpp:329-331 | The worker sees the status that its tick left in the root |
| AsyncProgress.RunPublishesVerdict | src/lib/sup/oac-tree/runner/async_runner.cpp:300-345 | In a run a tick that finishes the root is followed by the publication of its verdict, before any command is taken |
| AsyncProgress.UrgentCommandIsNext | src/lib/sup/oac-tree/runner/job_command_queue.cpp:47-63 | In every reachable state a Halt is refused exactly if a Halt or Terminate waits at the front, a Terminate exactly if a Terminate does; otherwise the run loop is stopped, a halt is requested and the command is next |
| AsyncRunnerObject.CommandResponse | src/lib/sup/oac-tree/runner/async_runner.cpp:153-258 | In every reachable state, the state published after handling a command is the documented response to it, and a reset leaves the root not started and not halted |
| CommandHistory.FrontCommandIsAnswered | src/lib/sup/oac-tree/runner/async_runner.cpp:260-313 | In every reachable state in which the worker finds a command, between runs or after a tick of one, it takes the front of the queue, and once it is handled the job shows the documented response to just that command |
| CommandHistory.TakenCommandsAreHandled | src/lib/sup/oac-tree/runner/async_runner.cpp:260-313 | In every interleaving the commands whose handling began are those taken from the queue, in that order, all but one just taken |
| AsyncRunnerObject.JobCommandQueue.Push | src/lib/sup/oac-tree/runner/job_command_queue.cpp:38-45 | Appends an ordinary command and keeps the queue's shape |
| AsyncRunnerObject.JobCommandQueue.PriorityPush | src/lib/sup/oac-tree/runner/job_command_queue.cpp:47-63 | Refused exactly if the command does not outrank the front; otherwise the runner is halted and the command is in front |
| AsyncRunnerObject.JobCommandQueue.TryPop | src/lib/sup/oac-tree/runner/job_command_queue.cpp:77-87 | Takes the front, or reports an empty queue |
| AsyncRunnerObject.JobCommandQueue.WaitForNextCommand | src/lib/sup/oac-tree/runner/job_command_queue.cpp:89-96 | Takes the front |
| AsyncRunnerObject.AsyncRunnerObject.SetState | src/lib/sup/oac-tree/runner/async_runner.cpp:119-144 | Publishes the state and selects the handler; Stepping keeps the handler |
| AsyncRunnerObject.AsyncRunnerObject.HandleCommand | src/lib/sup/oac-tree/runner/async_runner.cpp:153-156 | The handler methods do what the worker's atomic steps do one after the other, between runs and inside one |
| AsyncRunnerObject.AsyncRunnerObject.ProcessCommandsWhenRunning | src/lib/sup/oac-tree/runner/async_runner.cpp:300-313 | The tick callback as the sequence of the worker's atomic steps |
| AsyncRunnerObject.AsyncRunnerObject.StepProcedure | src/lib/sup/oac-tree/runner/async_runner.cpp:315-327 | A step as the sequence of the worker's atomic steps |
| AsyncRunnerObject.AsyncRunnerObject.SwitchStateOnFinished | src/lib/sup/oac-tree/runner/async_runner.cpp:329-345 | Publishes the verdict exactly if the root is finished |
| Voting.ThresholdsAreIdeal | src/lib/sup/oac-tree/instructions/parallel_sequence.cpp:144-169 | The 32-bit thresholds equal the intended ones for all numbers of children and attributes, if and only if it is not the case that there are 2^32 - 1 children and a zero threshold that makes a sum wrap |
| Voting.ThresholdSum | src/lib/sup/oac-tree/instructions/parallel_sequence.cpp:144-169 | The thresholds add up to at most one more than the number of children, and to exactly that when no success threshold is given |
| Voting.ThresholdsMean | src/lib/sup/oac-tree/instructions/parallel_sequence.cpp:144-169 | What each combination of attributes asks for, with its defaults and bounds |
| Voting.VerdictWhenAllFinished | src/lib/sup/oac-tree/instructions/parallel_sequence.cpp:103-133 | Once all children are finished there is a verdict |
| Voting.FailureWhenUnreachable | src/lib/sup/oac-tree/instructions/parallel_sequence.cpp:103-133 | The vote is FAILURE as soon as the success threshold cannot be reached |
| Voting.InitThresholds | src/lib/sup/oac-tree/instructions/parallel_sequence.cpp:144-169 | Computes the thresholds with wrap-around |
| Voting.CalculateCompoundStatus | src/lib/sup/oac-tree/instructions/parallel_sequence.cpp:103-133 | The counting loop computes the vote |
| Voting.VoteDecides | src/lib/sup/oac-tree/instructions/parallel_sequence.cpp:103-133 | Success exactly if enough children show it, also when enough show failure; failure exactly if enough show that and too few success; otherwise NotFinished as long as some child is |
| Threads.ThreadProtocol | src/lib/sup/oac-tree/instructions/async_wrapper.cpp:42-91 | In every interleaving of parent ticks, resets and threads, at most one execution per child is in flight; NOT_STARTED means never launched; NOT_FINISHED, SUCCESS and FAILURE mean no thread in flight and equality with the child's status |
| Threads.BeginTickMeans | src/lib/sup/oac-tree/instructions/parallel_sequence.cpp:48-52 | The first tick gives every child an unused wrapper; a parent that was told to halt goes no further |
| Threads.TickNextMeans | src/lib/sup/oac-tree/instructions/async_wrapper.cpp:42-91 | In every state of the protocol: a tick leaves a wrapper alone while its thread runs or once it is finished, takes over a changed status, and launches an unfinished child whose status it already shows |
| Threads.ResetAfterJoin | src/lib/sup/oac-tree/instructions/parallel_sequence.cpp:72-84 | Children are reset only when no thread is inside any of them |
| Threads.AsyncWrapper.Tick | src/lib/sup/oac-tree/instructions/async_wrapper.cpp:42-55 | Waits, reads the child's status, or launches the child, and keeps the pairing of wrapper and child |
| Threads.AsyncWrapper.UpdateStatus | src/lib/sup/oac-tree/instructions/async_wrapper.cpp:80-85 | Copies the child's status and tells whether that changed anything |
| Schedules.VerdictOfRun | src/lib/sup/oac-tree/instructions/parallel_sequence.cpp:54-70 | In every run of ticks and threads in which the children have given outcomes, a finished ParallelSequence whose thresholds add up to one more than the number of children, or one of whose thresholds is zero, has the verdict the outcomes alone determine; when they add up, it succeeded exactly if enough children do |
| Schedules.StatusIsDecision | src/lib/sup/oac-tree/instructions/parallel_sequence.cpp:103-136 | In every run the status of a ParallelSequence is finished exactly if its votes led to a decision, and then it is that decision |
| Schedules.OppositeRuns | src/lib/sup/oac-tree/instructions/parallel_sequence.cpp:54-70 | For all other thresholds: they can be asked for by attributes, and there are outcomes of the children and two runs with these outcomes that end in opposite verdicts |
| Schedules.UnfinishedChildGoesOn | src/lib/sup/oac-tree/instructions/async_wrapper.cpp:42-91 | In every run a child that is unfinished and has no thread inside it is launched, again or for the first time, by the next two whole ticks, unless the first of them decides the parent |
| Voting.ThresholdsAreAttributes | src/lib/sup/oac-tree/instructions/parallel_sequence.cpp:144-169 | Such thresholds are what the attributes with these values lead to |
| Threads.ResetWaitsForHalted | src/lib/sup/oac-tree/instructions/parallel_sequence.cpp:54-84 | In every interleaving, once a ParallelSequence has a verdict all its children were told to halt, and a reset of a ParallelSequence or Async waits only for threads inside children that were told to halt |
| Threads.BeginResetMeans | src/lib/sup/oac-tree/instructions/async.cpp:60-72 | The beginning of a reset halts the children exactly if the status is Running, or, of a ParallelSequence, NotFinished |
| ThreadsObject.ParallelSequence.ExecuteSingle | src/lib/sup/oac-tree/instructions/parallel_sequence.cpp:48-70 | A tick that no thread interferes with is the protocol's begin, one step per wrapper, and vote; a verdict halts the children |
| ThreadsObject.ParallelSequence.Reset | src/lib/sup/oac-tree/instructions/parallel_sequence.cpp:72-84 | Halts the children unless they were halted already, waits for every thread in flight, resets the children, and leaves everything as it was set up, whatever the threads ended in |
| ThreadsObject.ParallelSequence.InitWrappers | src/lib/sup/oac-tree/instructions/parallel_sequence.cpp:135-142 | A new, unused wrapper for every child, in order |
| ThreadsObject.Async.ExecuteSingle | src/lib/sup/oac-tree/instructions/async.cpp:38-58 | The same protocol with one child |
| ThreadsObject.Async.Reset | src/lib/sup/oac-tree/instructions/async.cpp:60-72 | The same with one child |
| InputAdapter.EveryRequestHasOnePlace | src/lib/sup/oac-tree/base/async_input_adapter.cpp:65-113 | In every reachable state each request neither cancelled nor read is in exactly one of queue, current and replies, and any other is in none |
| InputAdapter.AskedInOrder | src/lib/sup/oac-tree/base/async_input_adapter.cpp:79-107 | The current id is 0 or the busy one; requests are asked one at a time, in id order, with the text they were added with |
| InputAdapter.RepliesAreDeliveredOnce | src/lib/sup/oac-tree/base/async_input_adapter.cpp:141-234 | A reply is delivered at most once, is the one given to that request, and never belongs to a cancelled one; no stored reply is without a live future |
| InputAdapter.HandlerServes | src/lib/sup/oac-tree/base/async_input_adapter.cpp:79-107 | In every reachable state of an adapter that is not shut down the handler is at work: waiting, it asks the oldest request as soon as there is one; asking, it leaves the reply exactly if the request was not cancelled |
| InputAdapter.CancelInterruptsAsked | src/lib/sup/oac-tree/base/async_input_adapter.cpp:163-204 | Destroying a live future interrupts the input function exactly if it is asking that request |
| InputAdapter.AsyncInputAdapter.AddUserInputRequest | src/lib/sup/oac-tree/base/async_input_adapter.cpp:65-77 | Appends the request under a new id and returns a future for it |
| InputAdapter.AsyncInputAdapter.NextRequest | src/lib/sup/oac-tree/base/async_input_adapter.cpp:79-96 | Once there is something to wake up for: takes the oldest request and makes it current, or leaves when halted |
| InputAdapter.AsyncInputAdapter.Shutdown | src/lib/sup/oac-tree/base/async_input_adapter.cpp:52-63 | Interrupts the request being asked, if any, and lets the handler leave |
| InputAdapter.AsyncInputAdapter.StoreReply | src/lib/sup/oac-tree/base/async_input_adapter.cpp:97-106 | Keeps the reply exactly if the request is still current |
| InputAdapter.AsyncInputAdapter.GetReply | src/lib/sup/oac-tree/base/async_input_adapter.cpp:141-161 | Hands out a stored reply and forgets it; otherwise an error that changes nothing |
| InputAdapter.AsyncInputAdapter.CancelInputRequest | src/lib/sup/oac-tree/base/async_input_adapter.cpp:163-194 | Removes the request from wherever it is and interrupts the handler exactly if it is being asked |
| InputAdapter.Future.GetValue | src/lib/sup/oac-tree/base/async_input_adapter.cpp:229-234 | Invalidates the future exactly if it delivered a reply |
| InputAdapter.Future.Destroy | src/lib/sup/oac-tree/base/async_input_adapter.cpp:201-207 | Cancels the request of a future that is still valid |
| Traversal.FlattenBFS | src/lib/sup/oac-tree/instructions/instruction_tree.cpp:153-174 | The two-queue loop yields the nodes level by level |
| Traversal.GetLeaves | src/lib/sup/oac-tree/instructions/instruction_tree.cpp:126-151 | The loop yields the childless nodes in that order |
| Trees.BreadthIsLevels | src/lib/sup/oac-tree/instructions/instruction_tree.cpp:153-174 | Level by level means: the concatenation of the tree's levels |
| Trees.BreadthHoldsAllNodes | src/lib/sup/oac-tree/instructions/instruction_tree.cpp:153-174 | Every node occurs in the flattened list exactly as often as in the tree |
| InstructionTrees.CreateInstructionTree | src/lib/sup/oac-tree/instructions/instruction_tree.cpp:99-124 | The stack loop over instruction objects builds exactly the recursive unfolding of its selector, child order kept |
| InstructionTrees.UnfoldIsNextTree | src/lib/sup/oac-tree/instructions/instruction_tree.cpp:91-97 | With NextInstructions as selector that is the tree the prediction is read from |
| InstructionMaps.InitializeInstructionMap | src/lib/sup/oac-tree/runner/instruction_map.cpp:65-85 | A bijection from the instructions of the tree to 0..n-1 in level order; refused exactly if an instruction occurs twice |
| InstructionMaps.OrderIds | src/lib/sup/oac-tree/runner/instruction_map.cpp:65-85 | The flattened list names exactly the instructions of the tree, and none twice if they differ |
| InstructionMaps.GetOrderedInstructions | src/lib/sup/oac-tree/runner/job_map.cpp:76-84 | The reverse of the map is the level-order list |
| Indices.GetReverseMap | src/lib/sup/oac-tree/runner/instruction_map.cpp:87-108 | Succeeds exactly if the indices are a permutation, for arbitrary maps, and then lists the keys by index |
| Indices.InitializeMap | src/lib/sup/oac-tree/runner/instruction_map.cpp:65-85 | Numbers a list, refusing exactly the lists with duplicates |
| Indices.ReverseOfNumbers | src/lib/sup/oac-tree/runner/instruction_map.cpp:87-108 | Reversing a numbering gives back the list, and nothing else does |
| InfoTrees.CreateOrderedInstructionInfo | src/lib/sup/oac-tree/runner/instruction_info_utils.cpp:154-175 | Accepts exactly the trees whose indices are a permutation, and then lists every node of the tree at its index |
| InfoTrees.ValidateInstructionInfoTree | src/lib/sup/oac-tree/runner/instruction_info.cpp:196-216 | Accepts exactly the trees CreateOrderedInstructionInfo accepts |
| Indices.ImageSize | src/lib/sup/oac-tree/runner/instruction_map.cpp:87-108 | Pigeonhole: an index map reaches as many indices as it has keys exactly if no index is shared |
| InfoTrees.RoundTrip | src/lib/sup/oac-tree/runner/instruction_info_utils.cpp:93-152 | A serialised tree is read back as the same tree, and is accepted exactly if its nodes have as many children as their categories allow and its indices are a permutation |
| InfoTrees.ToAnyValueTree | src/lib/sup/oac-tree/runner/instruction_info_utils.cpp:122-152 | The loop builds the serialised form; it fails exactly if some node has two attributes of the same name |
| InfoTrees.ToInstructionInfoTree | src/lib/sup/oac-tree/runner/instruction_info_utils.cpp:93-120 | The loop accepts exactly the well-formatted values with allowed arities and permutation indices, and builds the tree they stand for |
| InfoTrees.ToAnyValueNode | src/lib/sup/oac-tree/runner/instruction_info_utils.cpp:207-219 | Serialises one node; fails exactly on duplicate attribute names |
| InfoTrees.Copy | src/lib/sup/oac-tree/runner/instruction_info.cpp:58-82 | The worklist copy equals its source; it fails exactly on a source whose nodes have too many children |
| InfoTrees.Flatten | src/lib/sup/oac-tree/runner/instruction_info.cpp:164-194 | The stack loop visits every node once |
| InfoTrees.FlatSize | src/lib/sup/oac-tree/runner/instruction_info.cpp:164-194 | That list has as many entries as the tree has nodes |
| InfoTrees.ValidNodeMeans | src/lib/sup/oac-tree/runner/instruction_info_utils.cpp:226-271 | The format of a node: which members it must have, of which kinds, and how its children are named |
| InfoTrees.FieldIsFirst | src/lib/sup/oac-tree/runner/instruction_info_utils.cpp:186-205 | A member is read by the first occurrence of its name |
| ProcedureInfo.InfoShows | src/lib/sup/oac-tree/runner/instruction_info_utils.cpp:177-184 | Every node shows the type, attributes and number of its instruction and a category that tells its kind; children are kept in order |
| ProcedureInfo.CategoriesFit | src/lib/sup/oac-tree/runner/instruction_info.cpp:140-162 | The categories allow just the children that the kinds of instructions can have |
| InfoTrees.EncodedFields | src/lib/sup/oac-tree/runner/instruction_info_utils.cpp:207-219 | The members of a serialised node and what each holds |
| InfoTrees.ChildNameInjective | src/lib/sup/oac-tree/runner/instruction_info_utils.cpp:221-224 | Different children get different member names |
| InfoTrees.ParseTree | src/lib/sup/oac-tree/runner/instruction_info_utils.cpp:93-120 | The parsing loop before the final validation |
| ProcedureInfo.CreateInstructionInfoTree | src/lib/sup/oac-tree/runner/instruction_info_utils.cpp:67-91 | Builds the info tree of a procedure; fails exactly if an instruction has no number |
| ProcedureInfo.InfoIndicesOk | src/lib/sup/oac-tree/runner/instruction_info_utils.cpp:67-91 | The indices of a procedure's info tree, numbered by its instruction map, are a permutation |
| ProcedureInfo.ProcedureInfoRoundTrips | src/lib/sup/oac-tree/runner/instruction_info_utils.cpp:67-152 | The info tree of every procedure passes all checks when serialised and read back, and comes back as it was |

## Left out

- Values: of the library's values and types only scalars, arrays of one element type, and structs as
  lists of named members are modelled; field names are not split at dots, and JSON is left out.
- Setting up: attributes and their constraints, loading and cloning of included procedures, plugins,
  and what setting up a workspace puts into its variables: `RunnerObject.Procedure.Reset` is given the
  variables, and in a run a reset is followed by an outside write.
- UserChoice, Input, Wait, Listen and Include are covered only as far as they are actions.
- ParallelSequence and Async are not part of the tick engine: their children run in threads of their
  own. Their protocol is modelled with children that report any statuses.
- What a halted child of a ParallelSequence or Async still does: its thread may report any status.
- A client can halt a procedure while a tick is under way. In `AsyncRunner` that is a step of its own;
  in the trees of `Engine` a halt comes between two ticks.
- User interface calls other than reports of statuses, job states and breakpoints; logging; the
  command line and the daemon.
- Wall-clock time, sleeping between ticks and waiting with a time limit.
- Wrap-around of 64-bit request identifiers, and instruction trees with 2^32 or more nodes.
- BigStep.SmallStepIsBigStep: is not stated for For, which rewrites its element variable in every tick,
  nor for actions that stay Running inside a reactive instruction, which evaluates its first children
  again in every tick.
- Prediction.PredictionIsExecution: is not stated for trees with Repeat or For, because a Repeat whose
  child succeeded resets and executes it although the child names nothing next, nor for a Running root,
  for which the list is empty; PredictionLimits.PredictionLimits is stated for all of these.
- RunnerModel.BreakpointsAreRespected: is not stated for reactive instructions, Repeat and For; for these
  PredictionLimits.ForetoldTickRespectsBreakpoints and RunningRoots.RunningRootsRespectBreakpoints have
  single ticks.
- AsyncSafety.StateGraph: is about runs without breakpoints; StaleHits says when Paused is published
  after a verdict.
- StaleHits.PausedAfterVerdict: is about runs in which no command arrives.
- AsyncRunnerObject.JobCommandQueue.WaitForNextCommand: requires a command, where the code blocks.
- ThreadsObject.ParallelSequence.ExecuteSingle: is the tick without interference; interleavings are the
  subject of Threads and Schedules.
- ThreadsObject.Async.ExecuteSingle: is the tick without interference, too.
- InputAdapter.AsyncInputAdapter.NextRequest: is the part of the handler's loop before the input
  function is called, once it does not wait any more; StoreReply is the part after it, and InputAdapter
  interleaves both with clients.
- ProcedureInfo.CreateInstructionInfoTree: reads the instructions as values; nothing in them changes.
- InfoTrees.Copy: works on a source value; only the copy is built in place.
