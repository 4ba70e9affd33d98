/** The execution status every instruction stores, and the predicates over it. */
module ExecutionStatus {

  datatype Status = NotStarted | NotFinished | Running | Success | Failure

  /** What one execution of an action can report: anything but "not started yet". */
  type Executed = s: Status | s != NotStarted witness Success

  predicate IsFinished(s: Status) {
    s == Success || s == Failure
  }

  predicate NeedsExecute(s: Status) {
    !IsFinished(s)
  }

  predicate ReadyForExecute(s: Status) {
    s == NotStarted || s == NotFinished
  }

  function Invert(s: Status): Status {
    match s
    case Failure => Success
    case Success => Failure
    case _ => s
  }
}
