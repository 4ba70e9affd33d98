/** The loops that flatten an instruction tree. */
module Traversal {
  import opened Trees

  lemma {:induction false} BreadthStep(ts: seq<Tree>)
    ensures Breadth(ts) == ts + Breadth(Below(ts))
    ensures ts == [] ==> Breadth(ts) == []
  {
    if ts == [] {
      assert Below(ts) == [];
    }
  }

  /** A whole level is done: what remains is the level below it. */
  lemma {:induction false} LevelDone(level: seq<Tree>)
    ensures Ids(Breadth(level)) == Ids(level) + Ids(Breadth(Below(level)))
    ensures Childless(Breadth(level)) == Childless(level) + Childless(Breadth(Below(level)))
    ensures level != [] ==> WeightAll(Below(level)) < WeightAll(level)
  {
    BreadthStep(level);
    IdsAppend(level, Breadth(Below(level)));
    ChildlessAppend(level, Breadth(Below(level)));
    BelowIsLighter(level);
  }

  lemma {:induction false} NextLevel(result: seq<nat>, level: seq<Tree>)
    ensures result + Ids(Breadth(level)) == (result + Ids(level)) + Ids(Breadth(Below(level)))
    ensures result + Childless(Breadth(level)) == (result + Childless(level)) + Childless(Breadth(Below(level)))
    ensures level != [] ==> WeightAll(Below(level)) < WeightAll(level)
  {
    LevelDone(level);
  }

  lemma {:induction false} IdsAppend(ts: seq<Tree>, us: seq<Tree>)
    ensures Ids(ts + us) == Ids(ts) + Ids(us)
  {
  }

  /** One more node taken from the front of the current level. */
  lemma {:induction false} TakeNode(done: seq<Tree>, node: Tree)
    ensures Below(done + [node]) == Below(done) + node.kids
    ensures Ids(done + [node]) == Ids(done) + [node.id]
    ensures node.kids == [] ==> Childless(done + [node]) == Childless(done) + [node.id]
    ensures node.kids != [] ==> Childless(done + [node]) == Childless(done)
  {
    BelowAppend(done, [node]);
    ChildlessAppend(done, [node]);
    assert Below([node]) == node.kids + Below([]);
    assert Childless([node]) == (if node.kids == [] then [node.id] else []) + Childless([]);
  }

  /** FlattenBFS: drains one queue into the result while filling the other with the children. */
  method FlattenBFS(tree: Tree) returns (result: seq<nat>)
    ensures result == Ids(Breadth([tree]))
  {
    result := [];
    var stack := [tree];
    while stack != []
      invariant Ids(Breadth([tree])) == result + Ids(Breadth(stack))
      decreases WeightAll(stack)
    {
      NextLevel(result, stack);
      var ids, tempStack := TakeLevel(stack);
      result := result + ids;
      stack := tempStack;
    }
  }

  /** The inner loop of FlattenBFS: empties the queue of one level. */
  method TakeLevel(level: seq<Tree>) returns (ids: seq<nat>, tempStack: seq<Tree>)
    ensures ids == Ids(level) && tempStack == Below(level)
  {
    ids, tempStack := [], [];
    var stack := level;
    ghost var done := [];
    while stack != []
      invariant level == done + stack
      invariant tempStack == Below(done) && ids == Ids(done)
      decreases |stack|
    {
      var node := stack[0];
      TakeNode(done, node);
      stack, done := stack[1..], done + [node];
      ids := ids + [node.id];
      tempStack := tempStack + node.kids;
    }
    assert level == done;
  }

  /** GetLeaves: the same walk, keeping only the nodes without children. */
  method GetLeaves(tree: Tree) returns (result: seq<nat>)
    ensures result == Childless(Breadth([tree]))
  {
    result := [];
    var stack := [tree];
    while stack != []
      invariant Childless(Breadth([tree])) == result + Childless(Breadth(stack))
      decreases WeightAll(stack)
    {
      NextLevel(result, stack);
      var leaves, tempStack := DrainLevel(stack);
      result := result + leaves;
      stack := tempStack;
    }
  }

  /** The inner loop of GetLeaves: empties the queue of one level. */
  method DrainLevel(level: seq<Tree>) returns (leaves: seq<nat>, tempStack: seq<Tree>)
    ensures leaves == Childless(level) && tempStack == Below(level)
  {
    leaves, tempStack := [], [];
    var stack := level;
    ghost var done := [];
    while stack != []
      invariant level == done + stack
      invariant tempStack == Below(done) && leaves == Childless(done)
      decreases |stack|
    {
      var node := stack[0];
      TakeNode(done, node);
      stack, done := stack[1..], done + [node];
      tempStack := tempStack + node.kids;
      if node.kids == [] {
        leaves := leaves + [node.id];
      }
    }
    assert level == done;
  }
}
