/** Trees of instruction pointers as values, and the order in which the flattening loops visit them. */
module Trees {

  datatype Tree = Tree(id: nat, kids: seq<Tree>)

  ghost function Weight(t: Tree): nat {
    1 + WeightAll(t.kids)
  }

  ghost function WeightAll(ts: seq<Tree>): nat {
    if ts == [] then 0 else Weight(ts[0]) + WeightAll(ts[1..])
  }

  lemma {:induction false} WeightAppend(ts: seq<Tree>, us: seq<Tree>)
    ensures WeightAll(ts + us) == WeightAll(ts) + WeightAll(us)
  {
    if ts == [] {
      assert ts + us == us;
    } else {
      assert (ts + us)[1..] == ts[1..] + us;
      WeightAppend(ts[1..], us);
    }
  }

  /** The children of a list of trees, left to right. */
  function Below(ts: seq<Tree>): (r: seq<Tree>) {
    if ts == [] then [] else ts[0].kids + Below(ts[1..])
  }

  lemma {:induction false} BelowAppend(ts: seq<Tree>, us: seq<Tree>)
    ensures Below(ts + us) == Below(ts) + Below(us)
  {
    if ts == [] {
      assert ts + us == us;
    } else {
      assert (ts + us)[1..] == ts[1..] + us;
      BelowAppend(ts[1..], us);
      assert ts[0].kids + (Below(ts[1..]) + Below(us)) == ts[0].kids + Below(ts[1..]) + Below(us);
    }
  }

  lemma {:induction false} BelowIsLighter(ts: seq<Tree>)
    ensures WeightAll(Below(ts)) + |ts| == WeightAll(ts)
  {
    if ts != [] {
      BelowIsLighter(ts[1..]);
      WeightAppend(ts[0].kids, Below(ts[1..]));
    }
  }

  /** The nodes of a list of trees, level by level. */
  function Breadth(ts: seq<Tree>): seq<Tree>
    decreases WeightAll(ts)
  {
    if ts == [] then []
    else
      BelowIsLighter(ts);
      ts + Breadth(Below(ts))
  }

  function Ids(ts: seq<Tree>): (r: seq<nat>)
    ensures |r| == |ts| && forall i :: 0 <= i < |ts| ==> r[i] == ts[i].id
  {
    seq(|ts|, i requires 0 <= i < |ts| => ts[i].id)
  }

  /** The instructions of a list of trees that have no children, in order. */
  function Childless(ts: seq<Tree>): seq<nat> {
    if ts == [] then []
    else (if ts[0].kids == [] then [ts[0].id] else []) + Childless(ts[1..])
  }

  lemma {:induction false} ChildlessAppend(ts: seq<Tree>, us: seq<Tree>)
    ensures Childless(ts + us) == Childless(ts) + Childless(us)
  {
    if ts == [] {
      assert ts + us == us;
    } else {
      assert (ts + us)[1..] == ts[1..] + us;
      ChildlessAppend(ts[1..], us);
      var first := if ts[0].kids == [] then [ts[0].id] else [];
      assert first + (Childless(ts[1..]) + Childless(us)) == first + Childless(ts[1..]) + Childless(us);
    }
  }

  // ---------------------------------------------------------------- what that order is

  /** The nodes at depth d, left to right. */
  function Level(t: Tree, d: nat): seq<Tree>
    decreases t
  {
    if d == 0 then [t] else LevelAll(t.kids, d - 1)
  }

  function LevelAll(ts: seq<Tree>, d: nat): seq<Tree>
    decreases ts
  {
    if ts == [] then [] else Level(ts[0], d) + LevelAll(ts[1..], d)
  }

  /** The levels d, d+1, ..., of a list of trees, n of them. */
  function Levels(ts: seq<Tree>, d: nat, n: nat): seq<Tree>
    decreases n
  {
    if n == 0 then [] else LevelAll(ts, d) + Levels(ts, d + 1, n - 1)
  }

  lemma {:induction false} LevelAllAppend(ts: seq<Tree>, us: seq<Tree>, d: nat)
    ensures LevelAll(ts + us, d) == LevelAll(ts, d) + LevelAll(us, d)
  {
    if ts == [] {
      assert ts + us == us;
    } else {
      assert (ts + us)[1..] == ts[1..] + us;
      LevelAllAppend(ts[1..], us, d);
      assert Level(ts[0], d) + (LevelAll(ts[1..], d) + LevelAll(us, d)) ==
        Level(ts[0], d) + LevelAll(ts[1..], d) + LevelAll(us, d);
    }
  }

  lemma {:induction false} LevelZero(ts: seq<Tree>)
    ensures LevelAll(ts, 0) == ts
  {
    if ts != [] {
      LevelZero(ts[1..]);
    }
  }

  lemma {:induction false} LevelBelow(ts: seq<Tree>, d: nat)
    ensures LevelAll(Below(ts), d) == LevelAll(ts, d + 1)
  {
    if ts != [] {
      LevelBelow(ts[1..], d);
      LevelAllAppend(ts[0].kids, Below(ts[1..]), d);
    }
  }

  lemma {:induction false} LevelsBelow(ts: seq<Tree>, d: nat, n: nat)
    ensures Levels(Below(ts), d, n) == Levels(ts, d + 1, n)
    decreases n
  {
    if n > 0 {
      LevelBelow(ts, d);
      LevelsBelow(ts, d + 1, n - 1);
    }
  }

  lemma {:induction false} NoTreesNoLevels(d: nat, n: nat)
    ensures Levels([], d, n) == []
    decreases n
  {
    if n > 0 {
      NoTreesNoLevels(d + 1, n - 1);
    }
  }

  lemma {:induction false} LevelsStep(ts: seq<Tree>, n: nat)
    requires n > 0
    ensures Levels(ts, 0, n) == ts + Levels(Below(ts), 0, n - 1)
  {
    LevelsBelow(ts, 0, n - 1);
    LevelZero(ts);
  }

  /** Breadth is the concatenation of the levels; the weight is more than enough of them. */
  lemma {:induction false} BreadthIsLevels(ts: seq<Tree>, n: nat)
    requires n >= WeightAll(ts)
    ensures Breadth(ts) == Levels(ts, 0, n)
    decreases n
  {
    if ts == [] {
      NoTreesNoLevels(0, n);
    } else {
      BelowIsLighter(ts);
      BreadthIsLevels(Below(ts), n - 1);
      LevelsStep(ts, n);
    }
  }

  /** All nodes of a tree, each as often as it occurs. */
  ghost function Nodes(t: Tree): multiset<Tree>
    decreases t
  {
    multiset{t} + NodesAll(t.kids)
  }

  ghost function NodesAll(ts: seq<Tree>): multiset<Tree>
    decreases ts
  {
    if ts == [] then multiset{} else Nodes(ts[0]) + NodesAll(ts[1..])
  }

  lemma {:induction false} NodesAppend(ts: seq<Tree>, us: seq<Tree>)
    ensures NodesAll(ts + us) == NodesAll(ts) + NodesAll(us)
  {
    if ts == [] {
      assert ts + us == us;
    } else {
      assert (ts + us)[1..] == ts[1..] + us;
      NodesAppend(ts[1..], us);
    }
  }

  lemma {:induction false} HeadAndTail(ts: seq<Tree>)
    requires ts != []
    ensures multiset(ts) == multiset{ts[0]} + multiset(ts[1..])
  {
    assert ts == [ts[0]] + ts[1..];
  }

  lemma {:induction false} NodesHead(ts: seq<Tree>)
    requires ts != []
    ensures NodesAll(ts) == multiset{ts[0]} + NodesAll(ts[0].kids) + NodesAll(ts[1..])
    ensures NodesAll(Below(ts)) == NodesAll(ts[0].kids) + NodesAll(Below(ts[1..]))
  {
    NodesAppend(ts[0].kids, Below(ts[1..]));
  }

  lemma {:induction false} NodesByLevel(ts: seq<Tree>)
    ensures NodesAll(ts) == multiset(ts) + NodesAll(Below(ts))
  {
    if ts != [] {
      NodesByLevel(ts[1..]);
      NodesHead(ts);
      HeadAndTail(ts);
    }
  }

  /** Breadth holds every node of the trees exactly as often as the trees do. */
  lemma {:induction false} BreadthHoldsAllNodes(ts: seq<Tree>)
    ensures multiset(Breadth(ts)) == NodesAll(ts)
    decreases WeightAll(ts)
  {
    if ts != [] {
      BelowIsLighter(ts);
      BreadthHoldsAllNodes(Below(ts));
      NodesByLevel(ts);
    }
  }
}
