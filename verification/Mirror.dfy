/** The job interface's mirror of instruction states never disagrees with the tree. */
module Mirror {
  import opened ExecutionStatus
  import opened Workspaces
  import opened Engine
  import opened Shape
  import opened Runs
  import opened Breakpoints

  datatype InstructionState = InstructionState(breakpointSet: bool, status: Status)

  /** m_instr_states, with the index every instruction has in it. */
  datatype Adapter = Adapter(index: map<nat, nat>, states: seq<InstructionState>)

  predicate Valid(d: Adapter) {
    && (forall x :: x in d.index ==> d.index[x] < |d.states|)
    && (forall x, y :: x in d.index && y in d.index && x != y ==> d.index[x] != d.index[y])
  }

  function StateOf(d: Adapter, id: nat): InstructionState
    requires Valid(d) && id in d.index
  {
    d.states[d.index[id]]
  }

  /** UpdateInstructionStatus. */
  function UpdateStatus(d: Adapter, id: nat, s: Status): Adapter {
    if id in d.index && d.index[id] < |d.states|
    then d.(states := d.states[d.index[id] := d.states[d.index[id]].(status := s)])
    else d
  }

  /** OnBreakpointChange. */
  function UpdateBreakpoint(d: Adapter, id: nat, present: bool): Adapter {
    if id in d.index && d.index[id] < |d.states|
    then d.(states := d.states[d.index[id] := d.states[d.index[id]].(breakpointSet := present)])
    else d
  }

  /** The mirror after the events of a log. */
  function Observe(d: Adapter, log: seq<Event>): Adapter
    decreases |log|
  {
    if log == [] then d
    else Observe(if log[0].Notified? then UpdateStatus(d, log[0].id, log[0].status) else d, log[1..])
  }

  lemma {:induction false} ObserveAppend(d: Adapter, l: seq<Event>, m: seq<Event>)
    ensures Observe(d, l + m) == Observe(Observe(d, l), m)
    decreases |l|
  {
    if l == [] {
      assert l + m == m;
    } else {
      assert (l + m)[1..] == l[1..] + m;
      ObserveAppend(if l[0].Notified? then UpdateStatus(d, l[0].id, l[0].status) else d, l[1..], m);
    }
  }

  // ---------------------------------------------------------------- instructions and their identity

  ghost function Ids(n: Node): set<nat> {
    {n.id} + set i, x | 0 <= i < |n.kids| && x in Ids(n.kids[i]) :: x
  }

  /** Every instruction of the tree has an identity of its own. */
  ghost predicate Distinct(n: Node) {
    && (forall i :: 0 <= i < |n.kids| ==> Distinct(n.kids[i]) && n.id !in Ids(n.kids[i]))
    && (forall i, j :: 0 <= i < j < |n.kids| ==> Ids(n.kids[i]) !! Ids(n.kids[j]))
  }

  lemma {:induction false} SkelIds(n: Node, r: Node)
    requires Skel(n) == Skel(r)
    ensures Ids(n) == Ids(r) && (Distinct(n) ==> Distinct(r))
    decreases n
  {
    assert |n.kids| == |Skel(n).kids| == |Skel(r).kids| == |r.kids|;
    forall i | 0 <= i < |n.kids|
      ensures Ids(n.kids[i]) == Ids(r.kids[i]) && (Distinct(n.kids[i]) ==> Distinct(r.kids[i]))
    {
      assert Skel(n).kids[i] == Skel(r).kids[i];
      SkelIds(n.kids[i], r.kids[i]);
    }
  }

  // ---------------------------------------------------------------- agreement

  /** The mirror shows the status of every instruction of n, and whether it has a breakpoint. */
  ghost predicate Agrees(d: Adapter, bps: seq<Breakpoint>, n: Node) {
    && Valid(d) && n.id in d.index
    && StateOf(d, n.id) == InstructionState(Has(bps, n.id), n.status)
    && forall i :: 0 <= i < |n.kids| ==> Agrees(d, bps, n.kids[i])
  }

  ghost predicate AgreesAll(d: Adapter, bps: seq<Breakpoint>, kids: seq<Node>) {
    Valid(d) && forall i :: 0 <= i < |kids| ==> Agrees(d, bps, kids[i])
  }

  /** Only instructions in ids are reported. */
  ghost predicate Within(log: seq<Event>, ids: set<nat>) {
    forall i :: 0 <= i < |log| && log[i].Notified? ==> log[i].id in ids
  }

  /** A mirror that differs only in instructions outside n agrees with n as before. */
  lemma {:induction false} Frame(d: Adapter, e: Adapter, bps: seq<Breakpoint>, cps: seq<Breakpoint>, n: Node)
    requires Agrees(d, bps, n) && Valid(e) && e.index == d.index
    requires forall x :: x in Ids(n) && x in d.index ==> StateOf(e, x) == StateOf(d, x) && Has(cps, x) == Has(bps, x)
    ensures Agrees(e, cps, n)
    decreases n
  {
    forall i | 0 <= i < |n.kids| ensures Agrees(e, cps, n.kids[i]) {
      forall x | x in Ids(n.kids[i]) ensures x in Ids(n) {}
      Frame(d, e, bps, cps, n.kids[i]);
    }
  }

  lemma {:induction false} ObserveFrame(d: Adapter, log: seq<Event>, ids: set<nat>)
    requires Valid(d) && Within(log, ids)
    ensures var e := Observe(d, log);
            && Valid(e) && e.index == d.index
            && forall x :: x in d.index && x !in ids ==> StateOf(e, x) == StateOf(d, x)
    decreases |log|
  {
    if log != [] {
      ObserveFrame(if log[0].Notified? then UpdateStatus(d, log[0].id, log[0].status) else d, log[1..], ids);
    }
  }

  lemma {:induction false} ObserveElsewhere(d: Adapter, bps: seq<Breakpoint>, log: seq<Event>, ids: set<nat>, n: Node)
    requires Agrees(d, bps, n) && Within(log, ids) && ids !! Ids(n)
    ensures Agrees(Observe(d, log), bps, n)
  {
    ObserveFrame(d, log, ids);
    Frame(d, Observe(d, log), bps, bps, n);
  }

  // ---------------------------------------------------------------- resets

  ghost function IdsAll(kids: seq<Node>): set<nat> {
    set i, x | 0 <= i < |kids| && x in Ids(kids[i]) :: x
  }

  lemma {:induction false} IdsAllTail(kids: seq<Node>)
    requires kids != []
    ensures IdsAll(kids) == Ids(kids[0]) + IdsAll(kids[1..])
  {
    forall x | x in IdsAll(kids) ensures x in Ids(kids[0]) + IdsAll(kids[1..]) {
      var i :| 0 <= i < |kids| && x in Ids(kids[i]);
      if i > 0 {
        assert x in Ids(kids[1..][i - 1]);
      }
    }
    forall x | x in IdsAll(kids[1..]) ensures x in IdsAll(kids) {
      var i :| 0 <= i < |kids[1..]| && x in Ids(kids[1..][i]);
      assert x in Ids(kids[i + 1]);
    }
  }

  lemma {:induction false} ResetWithin(n: Node)
    ensures Within(ResetLog(n), Ids(n))
    decreases n, 0
  {
    ResetAllWithin(n.kids);
    assert Ids(n) == {n.id} + IdsAll(n.kids);
  }

  lemma {:induction false} ResetAllWithin(kids: seq<Node>)
    ensures Within(ResetLogAll(kids), IdsAll(kids))
    decreases kids
  {
    if kids != [] {
      ResetWithin(kids[0]);
      ResetAllWithin(kids[1..]);
      IdsAllTail(kids);
    }
  }

  ghost predicate DistinctAll(kids: seq<Node>) {
    && (forall i :: 0 <= i < |kids| ==> Distinct(kids[i]))
    && (forall i, j :: 0 <= i < j < |kids| ==> Ids(kids[i]) !! Ids(kids[j]))
  }

  lemma {:induction false} NotBelow(n: Node)
    requires Distinct(n)
    ensures n.id !in IdsAll(n.kids) && DistinctAll(n.kids)
  {
  }

  lemma {:induction false} ResetAgrees(d: Adapter, bps: seq<Breakpoint>, n: Node)
    requires Agrees(d, bps, n) && Distinct(n)
    ensures Agrees(Observe(d, ResetLog(n)), bps, Reset(n))
    decreases n, 0
  {
    var note := if n.status != NotStarted then [Notified(n.id, NotStarted)] else [];
    NotBelow(n);
    ResetAllAgrees(d, bps, n.kids);
    ResetAllWithin(n.kids);
    ObserveFrame(d, ResetLogAll(n.kids), IdsAll(n.kids));
    ObserveAppend(d, ResetLogAll(n.kids), note);
    forall i | 0 <= i < |n.kids| ensures n.id !in Ids(ResetAll(n.kids)[i]) {
      ResetSkel(n.kids[i]);
      SkelIds(Reset(n.kids[i]), n.kids[i]);
    }
    OwnNote(Observe(d, ResetLogAll(n.kids)), bps, n, ResetAll(n.kids), note, NotStarted);
  }

  lemma {:induction false} ResetAllAgrees(d: Adapter, bps: seq<Breakpoint>, kids: seq<Node>)
    requires AgreesAll(d, bps, kids) && DistinctAll(kids)
    ensures AgreesAll(Observe(d, ResetLogAll(kids)), bps, ResetAll(kids))
    decreases kids
  {
    if kids != [] {
      var e := Observe(d, ResetLog(kids[0]));
      ResetAgrees(d, bps, kids[0]);
      ResetWithin(kids[0]);
      forall i | 0 <= i < |kids[1..]| ensures Agrees(e, bps, kids[1..][i]) {
        ObserveElsewhere(d, bps, ResetLog(kids[0]), Ids(kids[0]), kids[i + 1]);
      }
      ResetAllAgrees(e, bps, kids[1..]);
      ResetAllWithin(kids[1..]);
      ResetSkel(kids[0]);
      SkelIds(Reset(kids[0]), kids[0]);
      ResetHeadApart(kids);
      ObserveElsewhere(e, bps, ResetLogAll(kids[1..]), IdsAll(kids[1..]), Reset(kids[0]));
      ObserveAppend(d, ResetLog(kids[0]), ResetLogAll(kids[1..]));
      forall i | 0 <= i < |kids| ensures Agrees(Observe(d, ResetLogAll(kids)), bps, ResetAll(kids)[i]) {
        if i > 0 {
          assert ResetAll(kids)[i] == ResetAll(kids[1..])[i - 1];
        }
      }
    }
  }

  lemma {:induction false} ResetHeadApart(kids: seq<Node>)
    requires kids != [] && DistinctAll(kids)
    ensures IdsAll(kids[1..]) !! Ids(kids[0])
  {
    forall x | x in IdsAll(kids[1..]) ensures x !in Ids(kids[0]) {
      var i :| 0 <= i < |kids[1..]| && x in Ids(kids[1..][i]);
      assert Ids(kids[0]) !! Ids(kids[i + 1]);
    }
  }

  /** The node's own report: after it the mirror agrees with the node in its new state. */
  lemma {:induction false} OwnNote(d: Adapter, bps: seq<Breakpoint>, n: Node, kids: seq<Node>, note: seq<Event>,
      s: Status)
    requires Valid(d) && n.id in d.index && AgreesAll(d, bps, kids)
    requires forall i :: 0 <= i < |kids| ==> n.id !in Ids(kids[i])
    requires StateOf(d, n.id).breakpointSet == Has(bps, n.id)
    requires note == (if StateOf(d, n.id).status != s then [Notified(n.id, s)] else []) || note == [Notified(n.id, s)]
    ensures var e := Observe(d, note);
            && Valid(e) && e.index == d.index && AgreesAll(e, bps, kids)
            && StateOf(e, n.id) == InstructionState(Has(bps, n.id), s)
  {
    if note != [] {
      assert note[1..] == [];
      assert Observe(d, note) == Observe(UpdateStatus(d, n.id, s), []) == UpdateStatus(d, n.id, s);
    }
    forall i | 0 <= i < |kids| ensures Agrees(Observe(d, note), bps, kids[i]) {
      ObserveElsewhere(d, bps, note, {n.id}, kids[i]);
    }
  }

  // ---------------------------------------------------------------- ticks

  lemma {:induction false} WithinAppend(l: seq<Event>, m: seq<Event>, ids: set<nat>)
    requires Within(l, ids) && Within(m, ids)
    ensures Within(l + m, ids)
  {
  }

  lemma {:induction false} SameIds(kids: seq<Node>, others: seq<Node>)
    requires |kids| == |others| && forall i :: 0 <= i < |kids| ==> Skel(kids[i]) == Skel(others[i])
    ensures IdsAll(kids) == IdsAll(others) && (DistinctAll(kids) ==> DistinctAll(others))
    ensures forall i :: 0 <= i < |kids| ==> Ids(kids[i]) == Ids(others[i])
  {
    forall i | 0 <= i < |kids| ensures Ids(kids[i]) == Ids(others[i]) && (Distinct(kids[i]) ==> Distinct(others[i])) {
      SkelIds(kids[i], others[i]);
    }
  }

  /** Observing what happened inside child k: the mirror agrees with the children again. */
  lemma {:induction false} ObserveChild(d: Adapter, bps: seq<Breakpoint>, kids: seq<Node>, k: nat, x: Node,
      log: seq<Event>)
    requires AgreesAll(d, bps, kids) && DistinctAll(kids) && k < |kids|
    requires Within(log, Ids(kids[k])) && Agrees(Observe(d, log), bps, x)
    ensures AgreesAll(Observe(d, log), bps, kids[k := x])
  {
    var after := kids[k := x];
    forall i | 0 <= i < |kids| ensures Agrees(Observe(d, log), bps, after[i]) {
      if i != k {
        assert Ids(kids[k]) !! Ids(kids[i]);
        ObserveElsewhere(d, bps, log, Ids(kids[k]), kids[i]);
      }
    }
  }

  /** Observing the reset of a run of children: lo up to hi. */
  lemma {:induction false} ObserveResets(d: Adapter, bps: seq<Breakpoint>, kids: seq<Node>, lo: nat, hi: nat)
    requires AgreesAll(d, bps, kids) && DistinctAll(kids) && lo <= hi <= |kids|
    ensures var part := kids[lo..hi];
            AgreesAll(Observe(d, ResetLogAll(part)), bps, kids[..lo] + ResetAll(part) + kids[hi..])
    ensures Within(ResetLogAll(kids[lo..hi]), IdsAll(kids))
  {
    var part := kids[lo..hi];
    var e := Observe(d, ResetLogAll(part));
    PartIds(kids, lo, hi);
    PartApart(kids, lo, hi);
    ResetAllAgrees(d, bps, part);
    ResetAllWithin(part);
    forall i | 0 <= i < |kids| && (i < lo || i >= hi) ensures Agrees(e, bps, kids[i]) {
      ObserveElsewhere(d, bps, ResetLogAll(part), IdsAll(part), kids[i]);
    }
  }

  lemma {:induction false} PartIds(kids: seq<Node>, lo: nat, hi: nat)
    requires lo <= hi <= |kids|
    ensures IdsAll(kids[lo..hi]) <= IdsAll(kids)
  {
    forall x | x in IdsAll(kids[lo..hi]) ensures x in IdsAll(kids) {
      var j :| 0 <= j < |kids[lo..hi]| && x in Ids(kids[lo..hi][j]);
      assert x in Ids(kids[lo + j]);
    }
  }

  /** Some neighbouring children have identities of their own. */
  lemma {:induction false} PartApart(kids: seq<Node>, lo: nat, hi: nat)
    requires DistinctAll(kids) && lo <= hi <= |kids|
    ensures DistinctAll(kids[lo..hi])
    ensures forall i :: 0 <= i < |kids| && (i < lo || i >= hi) ==> IdsAll(kids[lo..hi]) !! Ids(kids[i])
  {
    var part := kids[lo..hi];
    forall x | x in IdsAll(part)
      ensures forall i :: 0 <= i < |kids| && (i < lo || i >= hi) ==> x !in Ids(kids[i])
    {
      var j :| 0 <= j < |part| && x in Ids(part[j]);
      assert part[j] == kids[lo + j];
    }
  }

  /** The children when the first k of them are reset. */
  function HalfReset(kids: seq<Node>, k: nat): (half: seq<Node>)
    requires k < |kids|
    ensures |half| == |kids|
  {
    ResetAll(kids[..k]) + kids[k..]
  }

  lemma {:induction false} HalfResetIds(kids: seq<Node>, k: nat)
    requires k < |kids| && DistinctAll(kids)
    ensures DistinctAll(HalfReset(kids, k)) && IdsAll(HalfReset(kids, k)) == IdsAll(kids)
  {
    var half := HalfReset(kids, k);
    forall i | 0 <= i < |kids| ensures Skel(half[i]) == Skel(kids[i]) {
      if i < k {
        assert half[i] == Reset(kids[..k][i]);
        ResetSkel(kids[i]);
      }
    }
    SameIds(kids, half);
  }

  lemma {:induction false} HalvesMakeWhole(kids: seq<Node>, k: nat)
    requires k < |kids|
    ensures var half := HalfReset(kids, k);
            && kids[..0] + ResetAll(kids[0..k]) + kids[k..] == half
            && half[k + 1..|kids|] == kids[k + 1..]
            && half[..k + 1] + ResetAll(kids[k + 1..]) + half[|kids|..] == ResetAll(kids)[k := kids[k]]
  {
    assert kids[0..k] == kids[..k];
  }

  /** Observing a reactive node reset the siblings of child k. */
  lemma {:induction false} ObserveOthersReset(d: Adapter, bps: seq<Breakpoint>, kids: seq<Node>, k: nat)
    requires AgreesAll(d, bps, kids) && DistinctAll(kids) && k < |kids|
    ensures var log := ResetLogAll(kids[..k]) + ResetLogAll(kids[k + 1..]);
            Within(log, IdsAll(kids)) && AgreesAll(Observe(d, log), bps, ResetAll(kids)[k := kids[k]])
  {
    var half := HalfReset(kids, k);
    HalvesMakeWhole(kids, k);
    HalfResetIds(kids, k);
    assert kids[0..k] == kids[..k];
    ObserveResets(d, bps, kids, 0, k);
    ObserveResets(Observe(d, ResetLogAll(kids[..k])), bps, half, k + 1, |kids|);
    ObserveAppend(d, ResetLogAll(kids[..k]), ResetLogAll(kids[k + 1..]));
    WithinAppend(ResetLogAll(kids[..k]), ResetLogAll(kids[k + 1..]), IdsAll(kids));
  }

  /** The child execution inside a tick, observed: first its reset, if any, then its own tick. */
  lemma {:induction false} ObserveCall(d: Adapter, bps: seq<Breakpoint>, n: Node, w: World)
    requires WellFormed(n) && NextCall(n, w).Some? && AgreesAll(d, bps, n.kids) && DistinctAll(n.kids)
    ensures var c := NextCall(n, w).value;
            && Within(c.log, Ids(n.kids[c.k])) && Distinct(c.child) && Skel(c.child) == Skel(n.kids[c.k])
            && AgreesAll(Observe(d, c.log), bps, n.kids[c.k := c.child])
  {
    var c := NextCall(n, w).value;
    var kid := n.kids[c.k];
    CallLog(n, w);
    ResetSkel(kid);
    SkelIds(kid, c.child);
    ResetWithin(kid);
    if c.log == [] && c.child == kid {
      assert n.kids[c.k := c.child] == n.kids;
    } else {
      ResetAgrees(d, bps, kid);
      AgainCall(n, w);
      ObserveChild(d, bps, n.kids, c.k, c.child, c.log);
    }
  }

  lemma {:induction false} AgainCall(n: Node, w: World)
    requires WellFormed(n) && NextCall(n, w).Some?
    ensures var c := NextCall(n, w).value;
            (c.log == [] && c.child == n.kids[c.k]) || (c.log == ResetLog(n.kids[c.k]) && c.child == Reset(n.kids[c.k]))
  {
  }

  lemma {:induction false} BodyAgrees(a: Actions, d: Adapter, bps: seq<Breakpoint>, n: Node, w: World)
    requires WellFormed(n) && AgreesAll(d, bps, n.kids) && DistinctAll(n.kids)
    ensures var b := ExecuteImpl(a, n, w);
            Within(b.log, IdsAll(n.kids)) && AgreesAll(Observe(d, b.log), bps, b.kids)
    decreases Size(n), 0, 0
  {
    match NextCall(n, w) {
      case None =>
        AloneFacts(a, n, w);
        assert Alone(a, n, w).log == [];
      case Some(c) =>
        ObserveCall(d, bps, n, w);
        var s := ExecuteSingle(a, c.child, c.world);
        var kids := n.kids[c.k := c.child];
        assert kids[c.k] == c.child;
        TickAgrees(a, Observe(d, c.log), bps, c.child, c.world);
        SameIds(n.kids, kids);
        ObserveChild(Observe(d, c.log), bps, kids, c.k, s.node, s.log);
        assert kids[c.k := s.node] == n.kids[c.k := s.node];
        ObserveAppend(d, c.log, s.log);
        TickKeepsTree(a, c.child, c.world);
        ConcludeAgrees(d, bps, n, c, s);
    }
  }

  lemma {:induction false} ConcludeAgrees(d: Adapter, bps: seq<Breakpoint>, n: Node, c: Call, s: Step)
    requires WellFormed(n) && c.k < |n.kids| && !n.op.Action? && DistinctAll(n.kids)
    requires Skel(s.node) == Skel(n.kids[c.k]) && Within(c.log, Ids(n.kids[c.k])) && Within(s.log, Ids(n.kids[c.k]))
    requires AgreesAll(Observe(d, c.log + s.log), bps, n.kids[c.k := s.node])
    ensures var b := Conclude(n, c, s);
            Within(b.log, IdsAll(n.kids)) && AgreesAll(Observe(d, b.log), bps, b.kids)
  {
    var kids := n.kids[c.k := s.node];
    ConcludeLog(n, c, s);
    assert Within(c.log + s.log, IdsAll(n.kids));
    SameIds(n.kids, kids);
    OthersAgree(d, bps, kids, c.k, c.log + s.log);
  }

  lemma {:induction false} OthersAgree(d: Adapter, bps: seq<Breakpoint>, kids: seq<Node>, k: nat, log: seq<Event>)
    requires k < |kids| && DistinctAll(kids) && Within(log, IdsAll(kids)) && AgreesAll(Observe(d, log), bps, kids)
    ensures var all := log + ResetLogAll(kids[..k]) + ResetLogAll(kids[k + 1..]);
            Within(all, IdsAll(kids)) && AgreesAll(Observe(d, all), bps, ResetAll(kids)[k := kids[k]])
  {
    var others := ResetLogAll(kids[..k]) + ResetLogAll(kids[k + 1..]);
    ObserveOthersReset(Observe(d, log), bps, kids, k);
    assert log + ResetLogAll(kids[..k]) + ResetLogAll(kids[k + 1..]) == log + others;
    ObserveAppend(d, log, others);
    WithinAppend(log, others, IdsAll(kids));
  }

  /** What the body of a tick reported, then the node's own new status. */
  lemma {:induction false} ObserveBody(d: Adapter, bps: seq<Breakpoint>, n: Node, b: Body, r: Node)
    requires Valid(d) && n.id in d.index && StateOf(d, n.id) == InstructionState(Has(bps, n.id), n.status)
    requires Within(b.log, IdsAll(n.kids)) && n.id !in IdsAll(n.kids) && IdsAll(b.kids) == IdsAll(n.kids)
    requires AgreesAll(Observe(d, b.log), bps, b.kids)
    requires r.id == n.id && r.status == b.status && r.kids == b.kids
    ensures var log := b.log + NoteIf(b.status != n.status, n.id, b.status);
            Within(log, {n.id} + IdsAll(n.kids)) && Agrees(Observe(d, log), bps, r)
  {
    var note := NoteIf(b.status != n.status, n.id, b.status);
    ObserveFrame(d, b.log, IdsAll(n.kids));
    forall i | 0 <= i < |b.kids| ensures n.id !in Ids(b.kids[i]) {
      assert forall x :: x in Ids(b.kids[i]) ==> x in IdsAll(b.kids);
    }
    OwnNote(Observe(d, b.log), bps, n, b.kids, note, b.status);
    ObserveAppend(d, b.log, note);
  }

  /** A tick is the initialisation, then the body, then the node's own report. */
  lemma {:induction false} TickParts(a: Actions, n: Node, w: World)
    requires WellFormed(n)
    ensures var s := ExecuteSingle(a, n, w);
            var p := Preamble(a, n, w);
            if NeedsExecute(p.node.status) && !n.halted then
              var b := ExecuteImpl(a, p.node, p.world);
              && s.node == Shape.After(p.node, b)
              && s.log == [Ticked(n.id)] + p.log + (b.log + NoteIf(b.status != p.node.status, n.id, b.status))
            else
              s.node == p.node && s.log == [Ticked(n.id)] + p.log + []
    ensures Within(Preamble(a, n, w).log, {n.id}) && Ids(n) == {n.id} + IdsAll(n.kids)
  {
  }

  /** Every status change of a tick is reported: a mirror that agreed before agrees after. */
  lemma {:induction false} TickAgrees(a: Actions, d: Adapter, bps: seq<Breakpoint>, n: Node, w: World)
    requires WellFormed(n) && Agrees(d, bps, n) && Distinct(n)
    ensures var s := ExecuteSingle(a, n, w);
            Within(s.log, Ids(n)) && Agrees(Observe(d, s.log), bps, s.node)
    decreases Size(n), 1
  {
    var p := Preamble(a, n, w);
    NotBelow(n);
    OwnNote(d, bps, n, n.kids, p.log, p.node.status);
    if NeedsExecute(p.node.status) && !n.halted {
      ExecutionAgrees(a, Observe(d, p.log), bps, p.node, p.world);
      ExecutedTickAgrees(a, d, bps, n, w);
    } else {
      TickParts(a, n, w);
      TickLog(d, n.id, p.log, [], ExecuteSingle(a, n, w).log);
    }
  }

  lemma {:induction false} ExecutedTickAgrees(a: Actions, d: Adapter, bps: seq<Breakpoint>, n: Node, w: World)
    requires WellFormed(n) && NeedsExecute(Preamble(a, n, w).node.status) && !n.halted
    requires var p := Preamble(a, n, w);
             var b := ExecuteImpl(a, p.node, p.world);
             var log := b.log + NoteIf(b.status != p.node.status, n.id, b.status);
             Within(log, {n.id} + IdsAll(n.kids))
               && Agrees(Observe(Observe(d, p.log), log), bps, Shape.After(p.node, b))
    ensures var s := ExecuteSingle(a, n, w);
            Within(s.log, Ids(n)) && Agrees(Observe(d, s.log), bps, s.node)
  {
    var p := Preamble(a, n, w);
    var b := ExecuteImpl(a, p.node, p.world);
    TickParts(a, n, w);
    TickLog(d, n.id, p.log, b.log + NoteIf(b.status != p.node.status, n.id, b.status), ExecuteSingle(a, n, w).log);
  }

  lemma {:induction false} ExecutionAgrees(a: Actions, d: Adapter, bps: seq<Breakpoint>, n: Node, w: World)
    requires WellFormed(n) && AgreesAll(d, bps, n.kids) && DistinctAll(n.kids) && n.id !in IdsAll(n.kids)
    requires Valid(d) && n.id in d.index && StateOf(d, n.id) == InstructionState(Has(bps, n.id), n.status)
    ensures var b := ExecuteImpl(a, n, w);
            var log := b.log + NoteIf(b.status != n.status, n.id, b.status);
            Within(log, {n.id} + IdsAll(n.kids)) && Agrees(Observe(d, log), bps, Shape.After(n, b))
    decreases Size(n), 0, 1
  {
    var b := ExecuteImpl(a, n, w);
    BodyAgrees(a, d, bps, n, w);
    BodySkels(a, n, w);
    SameIds(n.kids, b.kids);
    ObserveBody(d, bps, n, b, Shape.After(n, b));
  }

  lemma {:induction false} TickLog(d: Adapter, id: nat, pre: seq<Event>, rest: seq<Event>, log: seq<Event>)
    requires log == [Ticked(id)] + pre + rest
    ensures Observe(d, log) == Observe(Observe(d, pre), rest)
  {
    ObserveAppend(d, [Ticked(id)] + pre, rest);
    ObserveTicked(d, id, pre);
  }

  lemma {:induction false} ObserveTicked(d: Adapter, id: nat, log: seq<Event>)
    ensures Observe(d, [Ticked(id)] + log) == Observe(d, log)
  {
    assert ([Ticked(id)] + log)[1..] == log;
  }

  lemma {:induction false} BodySkels(a: Actions, n: Node, w: World)
    requires WellFormed(n)
    ensures var b := ExecuteImpl(a, n, w);
            |b.kids| == |n.kids| && forall i :: 0 <= i < |n.kids| ==> Skel(b.kids[i]) == Skel(n.kids[i])
  {
    match NextCall(n, w) {
      case None => AloneFacts(a, n, w);
      case Some(c) =>
        TickKeepsTree(a, c.child, c.world);
        ResetSkel(n.kids[c.k]);
        ConcludeFacts(n, c, ExecuteSingle(a, c.child, c.world));
        UpdateKeepsKids(n.kids, c.k, ExecuteSingle(a, c.child, c.world).node);
    }
  }

  // ---------------------------------------------------------------- whole runs

  /** What can happen to a job: something to its tree, or to its breakpoints. */
  datatype JobEvent = Exec(cmd: Command) | AddBreakpoint(id: nat) | DropBreakpoint(id: nat)

  datatype Job = Job(config: Config, bps: seq<Breakpoint>, mirror: Adapter)

  /** Events are passed on to the mirror as they are reported; a breakpoint change is passed on
      only when the list of breakpoints really changed. */
  function Happen(a: Actions, j: Job, e: JobEvent): (r: Job)
    requires WellFormed(j.config.root)
    ensures WellFormed(r.config.root)
  {
    match e
    case Exec(cmd) =>
      ApplyWellFormed(a, j.config, cmd);
      var c := Apply(a, j.config.(log := []), cmd);
      Job(c.(log := j.config.log + c.log), if cmd.Tick? then Rearm(j.bps) else j.bps, Observe(j.mirror, c.log))
    case AddBreakpoint(id) =>
      if id !in j.mirror.index || Has(j.bps, id) then j
      else j.(bps := j.bps + [Breakpoint(id, Set)], mirror := UpdateBreakpoint(j.mirror, id, true))
    case DropBreakpoint(id) =>
      if !Has(j.bps, id) then j
      else j.(bps := Without(j.bps, id), mirror := UpdateBreakpoint(j.mirror, id, false))
  }

  ghost predicate JobOk(j: Job) {
    && WellFormed(j.config.root) && Distinct(j.config.root) && OnePerInstruction(j.bps)
    && Agrees(j.mirror, j.bps, j.config.root)
  }

  lemma {:induction false} RearmHas(bps: seq<Breakpoint>, x: nat)
    ensures Has(Rearm(bps), x) <==> Has(bps, x)
  {
    if Has(bps, x) {
      var i :| 0 <= i < |bps| && bps[i].instruction == x;
      assert Rearm(bps)[i].instruction == x;
    }
    if Has(Rearm(bps), x) {
      var i :| 0 <= i < |bps| && Rearm(bps)[i].instruction == x;
      assert bps[i].instruction == x;
    }
  }

  lemma {:induction false} AddHas(bps: seq<Breakpoint>, id: nat, x: nat)
    requires !Has(bps, id)
    ensures Has(bps + [Breakpoint(id, Set)], x) <==> Has(bps, x) || x == id
    ensures OnePerInstruction(bps) ==> OnePerInstruction(bps + [Breakpoint(id, Set)])
  {
    var more := bps + [Breakpoint(id, Set)];
    assert more[|bps|].instruction == id;
    if Has(bps, x) {
      var i :| 0 <= i < |bps| && bps[i].instruction == x;
      assert more[i].instruction == x;
    }
  }

  /** A change of one breakpoint, and of the mirror's entry for it. */
  lemma {:induction false} BreakpointAgrees(d: Adapter, bps: seq<Breakpoint>, cps: seq<Breakpoint>, id: nat, n: Node)
    requires Agrees(d, bps, n) && id in d.index
    requires forall x :: Has(cps, x) <==> if x == id then !Has(bps, id) else Has(bps, x)
    ensures Agrees(UpdateBreakpoint(d, id, Has(cps, id)), cps, n)
    decreases n
  {
    forall i | 0 <= i < |n.kids| ensures Agrees(UpdateBreakpoint(d, id, Has(cps, id)), cps, n.kids[i]) {
      BreakpointAgrees(d, bps, cps, id, n.kids[i]);
    }
  }

  lemma {:induction false} HaltAgrees(d: Adapter, bps: seq<Breakpoint>, n: Node)
    requires Agrees(d, bps, n)
    ensures Agrees(d, bps, Halt(n))
    decreases n
  {
    forall i | 0 <= i < |n.kids| ensures Agrees(d, bps, Halt(n).kids[i]) {
      HaltAgrees(d, bps, n.kids[i]);
    }
  }

  lemma {:induction false} ExecAgrees(a: Actions, j: Job, cmd: Command)
    requires JobOk(j)
    ensures JobOk(Happen(a, j, Exec(cmd)))
  {
    var n := j.config.root;
    ApplyWellFormed(a, j.config.(log := []), cmd);
    match cmd {
      case Tick =>
        var s := ExecuteSingle(a, n, j.config.world);
        TickAgrees(a, j.mirror, j.bps, n, j.config.world);
        TickKeepsTree(a, n, j.config.world);
        SkelIds(n, s.node);
        forall x ensures Has(Rearm(j.bps), x) <==> Has(j.bps, x) { RearmHas(j.bps, x); }
        Frame(Observe(j.mirror, s.log), Observe(j.mirror, s.log), j.bps, Rearm(j.bps), s.node);
        assert [] + s.log == s.log;
      case ResetTree =>
        ResetAgrees(j.mirror, j.bps, n);
        ResetSkel(n);
        SkelIds(n, Reset(n));
        assert [] + ResetLog(n) == ResetLog(n);
      case HaltTree =>
        HaltAgrees(j.mirror, j.bps, n);
        HaltSkel(n);
        SkelIds(n, Halt(n));
      case Write(_, _) =>
    }
  }

  lemma {:induction false} HappenAgrees(a: Actions, j: Job, e: JobEvent)
    requires JobOk(j) && forall i :: 0 <= i < |j.bps| ==> j.bps[i].instruction in j.mirror.index
    ensures var r := Happen(a, j, e);
            JobOk(r) && r.mirror.index == j.mirror.index
            && forall i :: 0 <= i < |r.bps| ==> r.bps[i].instruction in r.mirror.index
  {
    match e {
      case Exec(cmd) =>
        ExecAgrees(a, j, cmd);
        IndexKept(j.mirror, Apply(a, j.config.(log := []), cmd).log);
      case AddBreakpoint(id) =>
        if id in j.mirror.index && !Has(j.bps, id) {
          var cps := j.bps + [Breakpoint(id, Set)];
          forall x ensures Has(cps, x) <==> Has(j.bps, x) || x == id { AddHas(j.bps, id, x); }
          AddHas(j.bps, id, id);
          BreakpointAgrees(j.mirror, j.bps, cps, id, j.config.root);
        }
      case DropBreakpoint(id) =>
        if Has(j.bps, id) {
          var cps := Without(j.bps, id);
          forall x ensures Has(cps, x) <==> Has(j.bps, x) && x != id { WithoutHas(j.bps, id, x); }
          WithoutHas(j.bps, id, id);
          BreakpointAgrees(j.mirror, j.bps, cps, id, j.config.root);
          forall i | 0 <= i < |cps| ensures cps[i].instruction in j.mirror.index {
            assert Has(cps, cps[i].instruction);
          }
        }
    }
  }

  lemma {:induction false} IndexKept(d: Adapter, log: seq<Event>)
    ensures Observe(d, log).index == d.index
    decreases |log|
  {
    if log != [] {
      IndexKept(if log[0].Notified? then UpdateStatus(d, log[0].id, log[0].status) else d, log[1..]);
    }
  }

  function HappenAll(a: Actions, j: Job, es: seq<JobEvent>): (r: Job)
    requires WellFormed(j.config.root)
    ensures WellFormed(r.config.root)
    decreases |es|
  {
    if es == [] then j else HappenAll(a, Happen(a, j, es[0]), es[1..])
  }

  lemma {:induction false} AllAgree(a: Actions, j: Job, es: seq<JobEvent>)
    requires JobOk(j) && forall i :: 0 <= i < |j.bps| ==> j.bps[i].instruction in j.mirror.index
    ensures JobOk(HappenAll(a, j, es))
    decreases |es|
  {
    if es != [] {
      HappenAgrees(a, j, es[0]);
      AllAgree(a, Happen(a, j, es[0]), es[1..]);
    }
  }

  /** The mirror as InitializeInstructionTree makes it: one initial state for each instruction. */
  predicate Initial(d: Adapter) {
    Valid(d) && forall i :: 0 <= i < |d.states| ==> d.states[i] == InstructionState(false, NotStarted)
  }

  lemma {:induction false} InitialAgrees(d: Adapter, n: Node)
    requires Initial(d) && AllFresh(n) && Ids(n) <= d.index.Keys
    ensures Agrees(d, [], n)
    decreases n
  {
    forall i | 0 <= i < |n.kids| ensures Agrees(d, [], n.kids[i]) {
      assert forall x :: x in Ids(n.kids[i]) ==> x in Ids(n);
      InitialAgrees(d, n.kids[i]);
    }
  }

  /** Mirror agreement: after any sequence of ticks, resets, halts, outside writes and breakpoint
      calls, the mirror holds for every instruction of the tree its current status and whether it
      has a breakpoint. */
  lemma {:induction false} MirrorAgrees(a: Actions, p: Prog, w: World, d: Adapter, es: seq<JobEvent>)
    requires ProgOk(p) && Distinct(Fresh(p)) && Initial(d) && Ids(Fresh(p)) <= d.index.Keys
    ensures WellFormed(Fresh(p))
    ensures var j := HappenAll(a, Job(Started(p, w), [], d), es);
            Agrees(j.mirror, j.bps, j.config.root)
  {
    FreshStart(p);
    InitialAgrees(d, Fresh(p));
    AllAgree(a, Job(Started(p, w), [], d), es);
  }
}
