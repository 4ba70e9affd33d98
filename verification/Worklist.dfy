/** Trees built in place by a worklist: a cell is allocated for every node, a stack holds the cells
    whose children are still to be appended. Cells stand for pointers. */
module Worklist {

  datatype Tree<T> = Tree(item: T, kids: seq<Tree<T>>)

  datatype Cell<T> = Cell(item: T, kids: seq<nat>)

  /** Children are allocated after their parents. */
  predicate Linked<T>(cells: seq<Cell<T>>) {
    forall i, k :: 0 <= i < |cells| && 0 <= k < |cells[i].kids| ==> i < cells[i].kids[k] < |cells|
  }

  /** The tree that cell i becomes once all open cells got their children: `open` says which tree
      each of them stands for. */
  ghost function Built<T>(cells: seq<Cell<T>>, open: map<nat, Tree<T>>, i: nat): Tree<T>
    requires Linked(cells) && i < |cells|
    decreases |cells| - i
  {
    if i in open then open[i] else Tree(cells[i].item, BuiltAll(cells, open, i, cells[i].kids))
  }

  ghost function BuiltAll<T>(cells: seq<Cell<T>>, open: map<nat, Tree<T>>, i: nat, kids: seq<nat>): (r: seq<Tree<T>>)
    requires Linked(cells) && i < |cells| && forall k :: 0 <= k < |kids| ==> i < kids[k] < |cells|
    ensures |r| == |kids|
    decreases |cells| - i, 0
  {
    seq(|kids|, k requires 0 <= k < |kids| => Built(cells, open, kids[k]))
  }

  /** Open cells have the right item and no children yet. */
  ghost predicate OpenOk<T>(cells: seq<Cell<T>>, open: map<nat, Tree<T>>) {
    forall i :: i in open ==> i < |cells| && cells[i] == Cell(open[i].item, [])
  }

  /** The cells after cell x got children with these items. */
  function Expand<T>(cells: seq<Cell<T>>, x: nat, items: seq<T>): (r: seq<Cell<T>>)
    requires x < |cells|
    ensures |r| == |cells| + |items|
    ensures forall i :: 0 <= i < |cells| && i != x ==> r[i] == cells[i]
    ensures r[x].item == cells[x].item && |r[x].kids| == |items|
    ensures forall k :: 0 <= k < |items| ==> r[x].kids[k] == |cells| + k
    ensures forall i :: |cells| <= i < |r| ==> r[i] == Cell(items[i - |cells|], [])
  {
    cells[x := Cell(cells[x].item, seq(|items|, k => |cells| + k))]
    + seq(|items|, k requires 0 <= k < |items| => Cell(items[k], []))
  }

  function Items<T>(kids: seq<Tree<T>>): (r: seq<T>)
    ensures |r| == |kids| && forall k :: 0 <= k < |r| ==> r[k] == kids[k].item
  {
    seq(|kids|, k requires 0 <= k < |kids| => kids[k].item)
  }

  /** Opens the cells n, n + 1, ... for these trees. */
  ghost function OpenAll<T>(open: map<nat, Tree<T>>, n: nat, kids: seq<Tree<T>>): map<nat, Tree<T>> {
    if kids == [] then open
    else OpenAll(open, n, kids[..|kids| - 1])[n + |kids| - 1 := kids[|kids| - 1]]
  }

  lemma {:induction false} OpenAllHas<T>(open: map<nat, Tree<T>>, n: nat, kids: seq<Tree<T>>, i: nat)
    ensures i in OpenAll(open, n, kids) <==> i in open || n <= i < n + |kids|
    ensures i in OpenAll(open, n, kids) ==>
      OpenAll(open, n, kids)[i] == if n <= i < n + |kids| then kids[i - n] else open[i]
  {
    if kids != [] {
      OpenAllHas(open, n, kids[..|kids| - 1], i);
    }
  }

  /** The open cells after x was closed and its children, allocated from n on, were opened. */
  ghost function Reopen<T>(open: map<nat, Tree<T>>, x: nat, n: nat): map<nat, Tree<T>>
    requires x in open
  {
    OpenAll(open - {x}, n, open[x].kids)
  }

  lemma {:induction false} ExpandLinked<T>(cells: seq<Cell<T>>, x: nat, items: seq<T>)
    requires Linked(cells) && x < |cells|
    ensures Linked(Expand(cells, x, items))
  {
    var r := Expand(cells, x, items);
    forall i, k | 0 <= i < |r| && 0 <= k < |r[i].kids| ensures i < r[i].kids[k] < |r| {}
  }

  lemma {:induction false} ExpandKeepsOpen<T>(cells: seq<Cell<T>>, open: map<nat, Tree<T>>, x: nat)
    requires x in open && OpenOk(cells, open)
    ensures OpenOk(Expand(cells, x, Items(open[x].kids)), Reopen(open, x, |cells|))
  {
    var r, reopened := Expand(cells, x, Items(open[x].kids)), Reopen(open, x, |cells|);
    forall i | i in reopened ensures i < |r| && r[i] == Cell(reopened[i].item, []) {
      OpenAllHas(open - {x}, |cells|, open[x].kids, i);
    }
  }

  lemma {:induction false} ExpandedKid<T>(cells: seq<Cell<T>>, open: map<nat, Tree<T>>, x: nat, k: nat)
    requires x in open && OpenOk(cells, open) && k < |open[x].kids|
    requires Linked(Expand(cells, x, Items(open[x].kids)))
    ensures var r := Expand(cells, x, Items(open[x].kids));
            && k < |r[x].kids| && r[x].kids[k] == |cells| + k < |r|
            && Built(r, Reopen(open, x, |cells|), |cells| + k) == open[x].kids[k]
  {
    OpenAllHas(open - {x}, |cells|, open[x].kids, |cells| + k);
  }

  /** The cell that got its children stands for the tree it was opened for. */
  lemma {:induction false} ExpandedCell<T>(cells: seq<Cell<T>>, open: map<nat, Tree<T>>, x: nat)
    requires x in open && OpenOk(cells, open) && Linked(cells)
    ensures var r := Expand(cells, x, Items(open[x].kids));
            Linked(r) && Built(r, Reopen(open, x, |cells|), x) == open[x]
  {
    var kids := open[x].kids;
    ExpandLinked(cells, x, Items(kids));
    var r, reopened := Expand(cells, x, Items(kids)), Reopen(open, x, |cells|);
    OpenAllHas(open - {x}, |cells|, kids, x);
    forall k | 0 <= k < |kids| ensures Built(r, reopened, r[x].kids[k]) == kids[k] {
      ExpandedKid(cells, open, x, k);
    }
    BuiltFrom(r, reopened, x, kids);
  }

  lemma {:induction false} BuiltFrom<T>(cells: seq<Cell<T>>, open: map<nat, Tree<T>>, i: nat, kids: seq<Tree<T>>)
    requires Linked(cells) && i < |cells| && i !in open && |kids| == |cells[i].kids|
    requires forall k :: 0 <= k < |kids| ==> Built(cells, open, cells[i].kids[k]) == kids[k]
    ensures Built(cells, open, i) == Tree(cells[i].item, kids)
  {
    assert BuiltAll(cells, open, i, cells[i].kids) == kids;
  }

  /** Cells with the same item and children that stand for the same trees stand for the same tree. */
  lemma {:induction false} SameBuilt<T>(cells: seq<Cell<T>>, open: map<nat, Tree<T>>, r: seq<Cell<T>>,
      reopened: map<nat, Tree<T>>, i: nat)
    requires Linked(cells) && Linked(r) && i < |cells| <= |r| && cells[i] == r[i] && i !in open && i !in reopened
    requires forall k :: 0 <= k < |cells[i].kids| ==>
      Built(r, reopened, cells[i].kids[k]) == Built(cells, open, cells[i].kids[k])
    ensures Built(r, reopened, i) == Built(cells, open, i)
  {
    assert BuiltAll(r, reopened, i, r[i].kids) == BuiltAll(cells, open, i, cells[i].kids);
  }

  /** Giving an open cell its children changes nothing in the tree under construction. */
  lemma {:induction false} ExpandKeepsBuilt<T>(cells: seq<Cell<T>>, open: map<nat, Tree<T>>, x: nat, i: nat)
    requires x in open && OpenOk(cells, open) && Linked(cells) && i < |cells|
    ensures var r := Expand(cells, x, Items(open[x].kids));
            Linked(r) && Built(r, Reopen(open, x, |cells|), i) == Built(cells, open, i)
    decreases |cells| - i
  {
    var kids := open[x].kids;
    var r, reopened := Expand(cells, x, Items(kids)), Reopen(open, x, |cells|);
    ExpandedCell(cells, open, x);
    OpenAllHas(open - {x}, |cells|, kids, i);
    if i != x && i !in open {
      forall k | 0 <= k < |cells[i].kids|
        ensures Built(r, reopened, cells[i].kids[k]) == Built(cells, open, cells[i].kids[k])
      {
        ExpandKeepsBuilt(cells, open, x, cells[i].kids[k]);
      }
      SameBuilt(cells, open, r, reopened, i);
    }
  }

  // ---------------------------------------------------------------- the stack

  ghost function Weight<T>(t: Tree<T>): nat {
    1 + WeightAll(t.kids)
  }

  ghost function WeightAll<T>(ts: seq<Tree<T>>): nat {
    if ts == [] then 0 else WeightAll(ts[..|ts| - 1]) + Weight(ts[|ts| - 1])
  }

  lemma {:induction false} WeightAppend<T>(ts: seq<Tree<T>>, us: seq<Tree<T>>)
    ensures WeightAll(ts + us) == WeightAll(ts) + WeightAll(us)
  {
    if us == [] {
      assert ts + us == ts;
    } else {
      assert (ts + us)[..|ts + us| - 1] == ts + us[..|us| - 1];
      WeightAppend(ts, us[..|us| - 1]);
    }
  }

  /** The cells on the stack are the open ones, each waiting for the children of its tree. */
  ghost predicate Stacked<T>(open: map<nat, Tree<T>>, dests: seq<nat>, todo: seq<Tree<T>>) {
    && |dests| == |todo|
    && (forall i, j :: 0 <= i < j < |dests| ==> dests[i] != dests[j])
    && (forall k :: 0 <= k < |dests| ==> dests[k] in open && open[dests[k]] == todo[k])
    && (forall i :: i in open ==> i in dests)
  }

  /** The state of a worklist that builds the tree `goal` from cell 0. */
  ghost predicate Working<T>(cells: seq<Cell<T>>, open: map<nat, Tree<T>>, dests: seq<nat>, todo: seq<Tree<T>>,
      goal: Tree<T>) {
    && Linked(cells) && OpenOk(cells, open) && Stacked(open, dests, todo)
    && cells != [] && Built(cells, open, 0) == goal
  }

  /** Where the children of a popped cell are allocated. */
  function Allocated(n: nat, m: nat): (r: seq<nat>)
    ensures |r| == m && forall k :: 0 <= k < m ==> r[k] == n + k
  {
    seq(m, k => n + k)
  }

  lemma {:induction false} Begin<T>(goal: Tree<T>)
    ensures Working([Cell(goal.item, [])], map[0 := goal], [0], [goal], goal)
  {
  }

  lemma {:induction false} PopKeepsStacked<T>(n: nat, open: map<nat, Tree<T>>, dests: seq<nat>, todo: seq<Tree<T>>)
    requires Stacked(open, dests, todo) && dests != [] && forall i :: i in open ==> i < n
    ensures var last := |dests| - 1;
            var kids := todo[last].kids;
            Stacked(Reopen(open, dests[last], n), dests[..last] + Allocated(n, |kids|), todo[..last] + kids)
  {
    var last := |dests| - 1;
    var x, kids := dests[last], todo[last].kids;
    var reopened := Reopen(open, x, n);
    var ds, ts := dests[..last] + Allocated(n, |kids|), todo[..last] + kids;
    forall k | 0 <= k < |ds| ensures ds[k] in reopened && reopened[ds[k]] == ts[k] {
      OpenAllHas(open - {x}, n, kids, ds[k]);
    }
    forall i | i in reopened ensures i in ds {
      OpenAllHas(open - {x}, n, kids, i);
      if n <= i < n + |kids| {
        assert ds[last + (i - n)] == i;
      } else {
        var k :| 0 <= k < |dests| && dests[k] == i;
        assert ds[k] == i;
      }
    }
  }

  /** One iteration: pop a cell, append its children and push them. */
  lemma {:induction false} Iterate<T>(cells: seq<Cell<T>>, open: map<nat, Tree<T>>, dests: seq<nat>,
      todo: seq<Tree<T>>, goal: Tree<T>)
    requires Working(cells, open, dests, todo, goal) && dests != []
    ensures var last := |dests| - 1;
            var x, kids := dests[last], todo[last].kids;
            && x < |cells|
            && Working(Expand(cells, x, Items(kids)), Reopen(open, x, |cells|),
                       dests[..last] + Allocated(|cells|, |kids|), todo[..last] + kids, goal)
            && WeightAll(todo[..last] + kids) < WeightAll(todo)
  {
    var last := |dests| - 1;
    var x, kids := dests[last], todo[last].kids;
    ExpandKeepsOpen(cells, open, x);
    ExpandKeepsBuilt(cells, open, x, 0);
    PopKeepsStacked(|cells|, open, dests, todo);
    WeightAppend(todo[..last], kids);
  }

  /** An empty stack leaves the finished tree. */
  lemma {:induction false} Finish<T>(cells: seq<Cell<T>>, open: map<nat, Tree<T>>, goal: Tree<T>)
    requires Working(cells, open, [], [], goal)
    ensures Linked(cells) && cells != [] && Built(cells, map[], 0) == goal
  {
    assert open == map[];
  }

  // ---------------------------------------------------------------- appending one child

  /** Allocates a child of cell x. */
  function Append<T>(cells: seq<Cell<T>>, x: nat, item: T): seq<Cell<T>>
    requires x < |cells|
  {
    cells[x := Cell(cells[x].item, cells[x].kids + [|cells|])] + [Cell(item, [])]
  }

  lemma {:induction false} ExpandNothing<T>(cells: seq<Cell<T>>, x: nat)
    requires x < |cells| && cells[x].kids == []
    ensures Expand(cells, x, []) == cells
  {
  }

  lemma {:induction false} AppendNext<T>(cells: seq<Cell<T>>, x: nat, items: seq<T>, k: nat)
    requires x < |cells| && k < |items|
    ensures Expand(cells, x, items[..k + 1]) == Append(Expand(cells, x, items[..k]), x, items[k])
  {
    var r := Append(Expand(cells, x, items[..k]), x, items[k]);
    var q := Expand(cells, x, items[..k + 1]);
    assert |r| == |q|;
    assert r[x].kids == q[x].kids;
    forall i | 0 <= i < |q| ensures q[i] == r[i] {}
  }
}
