/** Workspace variables, and the actions that read and write them. */
module Workspaces {
  import opened ExecutionStatus

  datatype Option<+T> = None | Some(value: T)

  datatype Type = ScalarType | ArrayType(elem: Type)

  /** A variable's value: an integer scalar, or an array of values of one element type. */
  datatype Value = Scalar(n: int) | Array(elem: Type, elems: seq<Value>)

  function TypeOf(v: Value): Type {
    match v
    case Scalar(_) => ScalarType
    case Array(t, _) => ArrayType(t)
  }

  /** Everything an action can see: the variables, the names the workspace refuses to write, and
      which actions were executed so far. An action's behaviour may depend on the whole call
      history, so any reaction of the outside world is some choice of behaviour. */
  datatype World = World(vars: map<string, Value>, locked: set<string>, calls: seq<nat>)

  /** An action's initialisation: whether it succeeded and the private state it starts from. */
  datatype Initialised = Initialised(ok: bool, mem: int, vars: map<string, Value>)

  /** One execution of an action: the reported status, its new private state, the variables. */
  datatype Outcome = Outcome(status: Executed, mem: int, vars: map<string, Value>)

  /** The behaviour of all actions, by action number. Both functions are arbitrary. */
  datatype Actions = Actions(init: (nat, World) -> Initialised, exec: (nat, int, World) -> Outcome)

  function Read(name: string, w: World): Option<Value> {
    if name in w.vars then Some(w.vars[name]) else None
  }

  predicate CanWrite(name: string, w: World) {
    name in w.vars && name !in w.locked
  }

  const INT32_MAX: int := 0x7FFF_FFFF
  const INT32_MIN: int := -0x8000_0000

  predicate InInt32(n: int) {
    INT32_MIN <= n <= INT32_MAX
  }

  /** A signed 32-bit attribute: absent, given literally, or named by a workspace variable. */
  datatype Limit = Absent | Literal(n: int) | Variable(name: string)

  /** The value of an optional attribute; an absent attribute leaves the default. */
  function Resolve(limit: Limit, absent: int, w: World): Option<int> {
    match limit
    case Absent => Some(absent)
    case Literal(n) => if InInt32(n) then Some(n) else None
    case Variable(name) =>
      match Read(name, w)
      case Some(Scalar(n)) => if InInt32(n) then Some(n) else None
      case _ => None
  }

  /** A selector variable read as a list of indices: one index or an array of them. */
  function Indices(v: Value): Option<seq<nat>> {
    match v
    case Scalar(n) => if n >= 0 then Some([n]) else None
    case Array(_, elems) => IndexList(elems)
  }

  function IndexList(elems: seq<Value>): (r: Option<seq<nat>>)
    ensures r.Some? ==> |r.value| == |elems|
  {
    if elems == [] then Some([])
    else match (elems[0], IndexList(elems[1..]))
      case (Scalar(n), Some(rest)) => if n >= 0 then Some([n] + rest) else None
      case _ => None
  }
}
