/** What a halt does: it reaches every instruction, and until the next reset nothing is executed. */
module Halting {
  import opened ExecutionStatus
  import opened Workspaces
  import opened Engine
  import opened Shape
  import opened Runs

  /** r is n with a halt requested on every instruction, and nothing else changed. */
  ghost predicate HaltedCopy(n: Node, r: Node) {
    && r.halted
    && r.id == n.id && r.op == n.op && r.status == n.status && r.loc == n.loc && |r.kids| == |n.kids|
    && forall i :: 0 <= i < |n.kids| ==> HaltedCopy(n.kids[i], r.kids[i])
  }

  lemma {:induction false} HaltCopies(n: Node)
    ensures HaltedCopy(n, Halt(n))
    decreases n
  {
    forall i | 0 <= i < |n.kids| ensures HaltedCopy(n.kids[i], Halt(n).kids[i]) {
      HaltCopies(n.kids[i]);
    }
  }

  lemma {:induction false} CopyIsHalted(n: Node, r: Node, x: Node)
    requires HaltedCopy(n, r) && InTree(x, r)
    ensures x.halted
    decreases r
  {
    if x != r {
      var i :| 0 <= i < |r.kids| && InTree(x, r.kids[i]);
      CopyIsHalted(n.kids[i], r.kids[i], x);
    }
  }

  lemma {:induction false} CopySkel(n: Node, r: Node)
    requires HaltedCopy(n, r)
    ensures Skel(r) == Skel(n)
    decreases r
  {
    forall i | 0 <= i < |n.kids| ensures Skel(r.kids[i]) == Skel(n.kids[i]) {
      CopySkel(n.kids[i], r.kids[i]);
    }
    SkelKids(n, r);
  }

  /** A halt requests a halt on every instruction of the tree and changes nothing else. */
  lemma {:induction false} HaltReachesAll(n: Node, r: Node, x: Node)
    requires r == Halt(n) && InTree(x, r)
    ensures x.halted && HaltedCopy(n, r) && Skel(r) == Skel(n)
  {
    HaltCopies(n);
    CopyIsHalted(n, r, x);
    CopySkel(n, r);
  }

  // ---------------------------------------------------------------- until the next reset

  predicate NoReset(cmds: seq<Command>) {
    forall i :: 0 <= i < |cmds| ==> cmds[i] != ResetTree
  }

  /** d came from c, which was halted, without executing anything: below the root nothing changed,
      and only the root's own calls were observed. */
  ghost predicate Still(c: Config, d: Config) {
    && d.root.halted && |d.root.kids| == |c.root.kids|
    && (forall i :: 0 <= i < |c.root.kids| ==> HaltedCopy(c.root.kids[i], d.root.kids[i]))
    && d.world.calls == c.world.calls
    && |c.log| <= |d.log| && d.log[..|c.log|] == c.log
    && (forall i :: |c.log| <= i < |d.log| ==> d.log[i].id == c.root.id)
    && d.root.id == c.root.id
  }

  lemma {:induction false} CopiesCompose(n: Node, m: Node, r: Node)
    requires HaltedCopy(n, m) && HaltedCopy(m, r)
    ensures HaltedCopy(n, r)
    decreases n
  {
    forall i | 0 <= i < |n.kids| ensures HaltedCopy(n.kids[i], r.kids[i]) {
      CopiesCompose(n.kids[i], m.kids[i], r.kids[i]);
    }
  }

  lemma {:induction false} CopyOfItself(n: Node, m: Node)
    requires HaltedCopy(n, m)
    ensures HaltedCopy(m, m)
    decreases n
  {
    forall i | 0 <= i < |n.kids| ensures HaltedCopy(m.kids[i], m.kids[i]) {
      CopyOfItself(n.kids[i], m.kids[i]);
    }
  }

  lemma {:induction false} StillComposes(c: Config, d: Config, e: Config)
    requires Still(c, d) && Still(d, e)
    ensures Still(c, e)
  {
    forall i | 0 <= i < |c.root.kids| ensures HaltedCopy(c.root.kids[i], e.root.kids[i]) {
      CopiesCompose(c.root.kids[i], d.root.kids[i], e.root.kids[i]);
    }
    forall i | 0 <= i < |c.log| ensures e.log[i] == c.log[i] {
      assert e.log[i] == e.log[..|d.log|][i];
      assert d.log[i] == d.log[..|c.log|][i];
    }
    forall i | |c.log| <= i < |e.log| ensures e.log[i].id == c.root.id {
      if i < |d.log| {
        assert e.log[i] == e.log[..|d.log|][i];
      }
    }
  }

  /** Every descendant is halted. */
  ghost predicate AllHalted(n: Node) {
    HaltedCopy(n, n)
  }

  lemma {:induction false} HaltedApply(a: Actions, c: Config, cmd: Command)
    requires WellFormed(c.root) && c.root.halted && cmd != ResetTree
    requires forall i :: 0 <= i < |c.root.kids| ==> AllHalted(c.root.kids[i])
    ensures Still(c, Apply(a, c, cmd))
    ensures forall i :: 0 <= i < |c.root.kids| ==> AllHalted(Apply(a, c, cmd).root.kids[i])
  {
    var d := Apply(a, c, cmd);
    if cmd.HaltTree? {
      forall i | 0 <= i < |c.root.kids|
        ensures HaltedCopy(c.root.kids[i], d.root.kids[i]) && AllHalted(d.root.kids[i])
      {
        HaltCopies(c.root.kids[i]);
        CopyOfItself(c.root.kids[i], d.root.kids[i]);
      }
    }
  }

  lemma {:induction false} HaltedRun(a: Actions, c: Config, cmds: seq<Command>)
    requires WellFormed(c.root) && c.root.halted && NoReset(cmds)
    requires forall i :: 0 <= i < |c.root.kids| ==> AllHalted(c.root.kids[i])
    ensures Still(c, Run(a, c, cmds))
    decreases |cmds|
  {
    if cmds != [] {
      ApplyWellFormed(a, c, cmds[0]);
      HaltedApply(a, c, cmds[0]);
      var d := Apply(a, c, cmds[0]);
      HaltedRun(a, d, cmds[1..]);
      StillComposes(c, d, Run(a, d, cmds[1..]));
    }
  }

  /** From any state, after a halt and until the next reset, whatever ticks, halts and outside writes
      come: no action is executed, no instruction but the root is called, and below the root no status
      and no private field changes. */
  lemma {:induction false} HaltStopsExecution(a: Actions, c: Config, cmds: seq<Command>)
    requires WellFormed(c.root) && NoReset(cmds)
    ensures var d := Run(a, c, [HaltTree] + cmds);
            && d.world.calls == c.world.calls
            && |d.root.kids| == |c.root.kids|
            && (forall i :: 0 <= i < |c.root.kids| ==> HaltedCopy(c.root.kids[i], d.root.kids[i]))
            && |c.log| <= |d.log| && d.log[..|c.log|] == c.log
            && (forall i :: |c.log| <= i < |d.log| ==> d.log[i].id == c.root.id)
  {
    var h := Apply(a, c, HaltTree);
    ApplyWellFormed(a, c, HaltTree);
    assert ([HaltTree] + cmds)[1..] == cmds;
    HaltCopies(c.root);
    forall i | 0 <= i < |c.root.kids| ensures AllHalted(h.root.kids[i]) {
      CopyOfItself(c.root.kids[i], h.root.kids[i]);
    }
    HaltedRun(a, h, cmds);
    var d := Run(a, h, cmds);
    forall i | 0 <= i < |c.root.kids| ensures HaltedCopy(c.root.kids[i], d.root.kids[i]) {
      CopiesCompose(c.root.kids[i], h.root.kids[i], d.root.kids[i]);
    }
  }
}
