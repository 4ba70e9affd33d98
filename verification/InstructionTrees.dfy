/** The instruction trees a procedure is flattened from: all children, or those that come next. */
module InstructionTrees {
  import opened Engine
  import opened InstructionObject
  import Prediction
  import Trees
  import opened Worklist

  datatype Selector = ChildInstructions | NextInstructions

  function Select(sel: Selector, n: Node): (r: seq<Node>)
    requires WellFormed(n)
    ensures forall i :: 0 <= i < |r| ==> r[i] in n.kids
  {
    match sel
    case ChildInstructions => n.kids
    case NextInstructions => Prediction.NextInstructions(n)
  }

  /** The recursive unfolding of the selector. */
  function Unfold(sel: Selector, n: Node): Tree<nat>
    requires WellFormed(n)
    decreases n
  {
    Tree(n.id, UnfoldAll(sel, n, Select(sel, n)))
  }

  function UnfoldAll(sel: Selector, n: Node, selected: seq<Node>): (r: seq<Tree<nat>>)
    requires WellFormed(n) && forall i :: 0 <= i < |selected| ==> selected[i] in n.kids
    ensures |r| == |selected|
    decreases n, 0
  {
    seq(|selected|, i requires 0 <= i < |selected| => Unfold(sel, selected[i]))
  }

  /** An instruction on the stack, as a value, and the cell it was given. */
  datatype Entry = Entry(instruction: Node, cell: nat)

  ghost predicate EntriesOk(sel: Selector, stack: seq<Entry>, dests: seq<nat>, todo: seq<Tree<nat>>) {
    |stack| == |dests| == |todo| && forall k :: 0 <= k < |stack| ==> EntryOk(sel, stack[k], dests[k], todo[k])
  }

  /** The entry's cell is dest, and its instruction unfolds to t. */
  ghost predicate EntryOk(sel: Selector, entry: Entry, dest: nat, t: Tree<nat>) {
    entry.cell == dest && WellFormed(entry.instruction) && Unfold(sel, entry.instruction) == t
  }

  /** The entries for instructions whose cells are allocated from n on. */
  function Entries(instructions: seq<Node>, n: nat): (r: seq<Entry>)
    ensures |r| == |instructions| && forall k :: 0 <= k < |r| ==> r[k] == Entry(instructions[k], n + k)
  {
    seq(|instructions|, k requires 0 <= k < |instructions| => Entry(instructions[k], n + k))
  }

  lemma {:induction false} At<T>(s: seq<T>, s': seq<T>, k: nat)
    requires k < |s| + |s'|
    ensures (s + s')[k] == if k < |s| then s[k] else s'[k - |s|]
  {
  }

  lemma {:induction false} EntryAt(sel: Selector, s: seq<Entry>, d: seq<nat>, t: seq<Tree<nat>>, k: nat)
    requires EntriesOk(sel, s, d, t) && k < |s|
    ensures EntryOk(sel, s[k], d[k], t[k])
  {
  }

  lemma {:induction false} EntriesTogether(sel: Selector, s: seq<Entry>, d: seq<nat>, t: seq<Tree<nat>>,
      s': seq<Entry>, d': seq<nat>, t': seq<Tree<nat>>)
    requires EntriesOk(sel, s, d, t) && EntriesOk(sel, s', d', t')
    ensures EntriesOk(sel, s + s', d + d', t + t')
  {
    var ss, ds, ts := s + s', d + d', t + t';
    forall k | 0 <= k < |ss| ensures EntryOk(sel, ss[k], ds[k], ts[k]) {
      At(s, s', k);
      At(d, d', k);
      At(t, t', k);
      if k < |s| { EntryAt(sel, s, d, t, k); } else { EntryAt(sel, s', d', t', k - |s|); }
    }
  }

  lemma {:induction false} EntriesBelow(sel: Selector, s: seq<Entry>, d: seq<nat>, t: seq<Tree<nat>>, n: nat)
    requires EntriesOk(sel, s, d, t) && n <= |s|
    ensures EntriesOk(sel, s[..n], d[..n], t[..n])
  {
  }

  lemma {:induction false} SelectedEntriesOk(sel: Selector, instruction: Node, n: nat)
    requires WellFormed(instruction)
    ensures var kids := Unfold(sel, instruction).kids;
            EntriesOk(sel, Entries(Select(sel, instruction), n), Allocated(n, |kids|), kids)
  {
    var selected := Select(sel, instruction);
    var kids := Unfold(sel, instruction).kids;
    assert kids == UnfoldAll(sel, instruction, selected);
    forall k | 0 <= k < |selected| ensures EntryOk(sel, Entries(selected, n)[k], n + k, kids[k]) {
      assert kids[k] == Unfold(sel, selected[k]);
    }
  }

  /** The children of a popped entry were pushed. */
  lemma {:induction false} PushedEntriesOk(sel: Selector, stack: seq<Entry>, dests: seq<nat>,
      todo: seq<Tree<nat>>, n: nat)
    requires stack != [] && EntriesOk(sel, stack, dests, todo)
    ensures var last := |stack| - 1;
            var kids := todo[last].kids;
            EntriesOk(sel, stack[..last] + Entries(Select(sel, stack[last].instruction), n),
                      dests[..last] + Allocated(n, |kids|), todo[..last] + kids)
  {
    var last := |stack| - 1;
    EntriesBelow(sel, stack, dests, todo, last);
    SelectedEntriesOk(sel, stack[last].instruction, n);
    EntriesTogether(sel, stack[..last], dests[..last], todo[..last],
                    Entries(Select(sel, stack[last].instruction), n), Allocated(n, |todo[last].kids|), todo[last].kids);
  }

  // ---------------------------------------------------------------- the loop, on the objects

  /** An instruction waiting on the stack, and the cell it was given. */
  datatype Pending = Pending(instruction: Instruction, cell: nat)

  /** The entries are the stacked instructions in their present state. */
  ghost predicate Shown(stack: seq<Pending>, entries: seq<Entry>)
    reads set k, x | 0 <= k < |stack| && x in stack[k].instruction.Repr :: x
  {
    |stack| == |entries| && forall k :: 0 <= k < |stack| ==>
      stack[k].instruction.Valid() && entries[k] == Entry(stack[k].instruction.View(), stack[k].cell)
  }

  /** The selector applied to an instruction. */
  method Selected(instruction: Instruction, sel: Selector) returns (selected: seq<Instruction>)
    requires instruction.Valid() && WellFormed(instruction.View())
    ensures forall k :: 0 <= k < |selected| ==> selected[k] in instruction.children
    ensures instruction.Views(selected) == Select(sel, instruction.View())
  {
    match sel
    case ChildInstructions =>
      instruction.ViewsOfChildren();
      selected := instruction.children;
    case NextInstructions => selected := instruction.NextInstructions();
  }

  /** The worklist builds goal, and its entries unfold to what their cells are waiting for. */
  ghost predicate Growing(sel: Selector, cells: seq<Cell<nat>>, open: map<nat, Tree<nat>>, dests: seq<nat>,
                          todo: seq<Tree<nat>>, entries: seq<Entry>, goal: Tree<nat>)
  {
    Working(cells, open, dests, todo, goal) && EntriesOk(sel, entries, dests, todo)
  }

  /** One iteration, seen from the values: the top entry is replaced by entries for its children. */
  lemma {:induction false} Grow(sel: Selector, cells: seq<Cell<nat>>, open: map<nat, Tree<nat>>, dests: seq<nat>,
                                todo: seq<Tree<nat>>, entries: seq<Entry>, goal: Tree<nat>)
    returns (open': map<nat, Tree<nat>>, dests': seq<nat>, todo': seq<Tree<nat>>)
    requires Growing(sel, cells, open, dests, todo, entries, goal) && entries != []
    ensures var last := |entries| - 1;
            var n, x := entries[last].instruction, entries[last].cell;
            && WellFormed(n) && x < |cells| && cells[x].kids == []
            && Growing(sel, Expand(cells, x, Items(Unfold(sel, n).kids)), open', dests', todo',
                       entries[..last] + Entries(Select(sel, n), |cells|), goal)
    ensures WeightAll(todo') < WeightAll(todo)
  {
    var last := |entries| - 1;
    var kids := todo[last].kids;
    assert EntryOk(sel, entries[last], dests[last], todo[last]);
    Iterate(cells, open, dests, todo, goal);
    PushedEntriesOk(sel, entries, dests, todo, |cells|);
    open', dests', todo' :=
      Reopen(open, dests[last], |cells|), dests[..last] + Allocated(|cells|, |kids|), todo[..last] + kids;
  }

  lemma {:induction false} Grown(sel: Selector, cells: seq<Cell<nat>>, open: map<nat, Tree<nat>>, dests: seq<nat>,
                                 todo: seq<Tree<nat>>, goal: Tree<nat>)
    requires Growing(sel, cells, open, dests, todo, [], goal)
    ensures Linked(cells) && cells != [] && Built(cells, map[], 0) == goal
  {
    Finish(cells, open, goal);
  }

  lemma {:induction false} StartGrowing(sel: Selector, n: Node)
    requires WellFormed(n)
    ensures var goal := Unfold(sel, n);
            Growing(sel, [Cell(n.id, [])], map[0 := goal], [0], [goal], [Entry(n, 0)], goal)
  {
    Begin(Unfold(sel, n));
  }

  /** CreateInstructionTree: the cells it allocates form exactly the recursive unfolding of the
      selector, with the order of the children kept. */
  method CreateInstructionTree(root: Instruction, sel: Selector) returns (cells: seq<Cell<nat>>)
    requires root.Valid() && WellFormed(root.View())
    ensures Linked(cells) && cells != [] && Built(cells, map[], 0) == Unfold(sel, root.View())
  {
    ghost var goal := Unfold(sel, root.View());
    cells := [Cell(root.id, [])];
    var stack := [Pending(root, 0)];
    ghost var open, dests, todo, entries := map[0 := goal], [0], [goal], [Entry(root.View(), 0)];
    StartGrowing(sel, root.View());
    while stack != []
      invariant Shown(stack, entries)
      invariant Growing(sel, cells, open, dests, todo, entries, goal)
      decreases WeightAll(todo)
    {
      open, dests, todo := Grow(sel, cells, open, dests, todo, entries, goal);
      cells, stack, entries := ExpandTop(cells, stack, entries, sel);
    }
    Grown(sel, cells, open, dests, todo, goal);
  }

  /** The body of the loop: the instruction on top of the stack gives way to those selected below it. */
  method ExpandTop(cells: seq<Cell<nat>>, stack: seq<Pending>, ghost entries: seq<Entry>, sel: Selector)
    returns (newCells: seq<Cell<nat>>, newStack: seq<Pending>, ghost newEntries: seq<Entry>)
    requires Shown(stack, entries) && entries != []
    requires var top := entries[|entries| - 1];
             WellFormed(top.instruction) && top.cell < |cells| && cells[top.cell].kids == []
    ensures var top := entries[|entries| - 1];
      && newCells == Expand(cells, top.cell, Items(Unfold(sel, top.instruction).kids))
      && newEntries == entries[..|entries| - 1] + Entries(Select(sel, top.instruction), |cells|)
    ensures Shown(newStack, newEntries)
  {
    var last := |stack| - 1;
    newCells, newStack, newEntries := AppendSelected(cells, stack[..last], entries[..last], stack[last], sel);
  }

  /** The first i selected instructions were appended. */
  ghost predicate Appended(sel: Selector, n: Node, x: nat, i: nat, cells: seq<Cell<nat>>, entries: seq<Entry>,
                           newCells: seq<Cell<nat>>, newEntries: seq<Entry>)
    requires WellFormed(n) && x < |cells| && i <= |Select(sel, n)|
  {
    && newCells == Expand(cells, x, Items(Unfold(sel, n).kids)[..i])
    && newEntries == entries + Entries(Select(sel, n)[..i], |cells|)
  }

  lemma {:induction false} AppendedNone(sel: Selector, n: Node, x: nat, cells: seq<Cell<nat>>, entries: seq<Entry>)
    requires WellFormed(n) && x < |cells| && cells[x].kids == []
    ensures Appended(sel, n, x, 0, cells, entries, cells, entries)
  {
    ExpandNothing(cells, x);
    assert Items(Unfold(sel, n).kids)[..0] == [] && Entries(Select(sel, n)[..0], |cells|) == [];
  }

  lemma {:induction false} AppendedNext(sel: Selector, n: Node, x: nat, i: nat, cells: seq<Cell<nat>>,
      entries: seq<Entry>,
                                        newCells: seq<Cell<nat>>, newEntries: seq<Entry>)
    requires WellFormed(n) && x < |cells| && i < |Select(sel, n)|
    requires Appended(sel, n, x, i, cells, entries, newCells, newEntries)
    ensures x < |newCells|
    ensures Appended(sel, n, x, i + 1, cells, entries, Append(newCells, x, Select(sel, n)[i].id),
                     newEntries + [Entry(Select(sel, n)[i], |newCells|)])
  {
    SelectedItem(sel, n, i);
    AppendNext(cells, x, Items(Unfold(sel, n).kids), i);
    EntriesNext(Select(sel, n), i, |cells|);
  }

  lemma {:induction false} AppendedAll(sel: Selector, n: Node, x: nat, cells: seq<Cell<nat>>, entries: seq<Entry>,
                                       newCells: seq<Cell<nat>>, newEntries: seq<Entry>)
    requires WellFormed(n) && x < |cells| && Appended(sel, n, x, |Select(sel, n)|, cells, entries, newCells, newEntries)
    ensures newCells == Expand(cells, x, Items(Unfold(sel, n).kids))
    ensures newEntries == entries + Entries(Select(sel, n), |cells|)
  {
    assert Items(Unfold(sel, n).kids)[..|Select(sel, n)|] == Items(Unfold(sel, n).kids);
    assert Select(sel, n)[..|Select(sel, n)|] == Select(sel, n);
  }

  /** The inner loop: every selected instruction becomes a child and goes on the stack. */
  method AppendSelected(cells: seq<Cell<nat>>, stack: seq<Pending>, ghost entries: seq<Entry>, entry: Pending,
      sel: Selector)
    returns (newCells: seq<Cell<nat>>, newStack: seq<Pending>, ghost newEntries: seq<Entry>)
    requires entry.instruction.Valid() && WellFormed(entry.instruction.View()) && Shown(stack, entries)
    requires entry.cell < |cells| && cells[entry.cell].kids == []
    ensures newCells == Expand(cells, entry.cell, Items(Unfold(sel, entry.instruction.View()).kids))
    ensures newEntries == entries + Entries(Select(sel, entry.instruction.View()), |cells|)
    ensures Shown(newStack, newEntries)
  {
    ghost var n, x := entry.instruction.View(), entry.cell;
    newCells, newStack, newEntries := cells, stack, entries;
    var selected := Selected(entry.instruction, sel);
    AppendedNone(sel, n, x, cells, entries);
    for i := 0 to |selected|
      invariant Appended(sel, n, x, i, cells, entries, newCells, newEntries)
      invariant Shown(newStack, newEntries)
    {
      AppendedNext(sel, n, x, i, cells, entries, newCells, newEntries);
      assert Select(sel, n)[i] == selected[i].View();
      newStack := newStack + [Pending(selected[i], |newCells|)];
      newEntries := newEntries + [Entry(Select(sel, n)[i], |newCells|)];
      newCells := Append(newCells, entry.cell, selected[i].id);
    }
    AppendedAll(sel, n, x, cells, entries, newCells, newEntries);
  }

  lemma {:induction false} SelectedItem(sel: Selector, n: Node, i: nat)
    requires WellFormed(n) && i < |Select(sel, n)|
    ensures |Unfold(sel, n).kids| == |Select(sel, n)|
    ensures Items(Unfold(sel, n).kids)[i] == Select(sel, n)[i].id
  {
    assert Unfold(sel, n).kids[i] == Unfold(sel, Select(sel, n)[i]);
  }

  lemma {:induction false} EntriesNext(nodes: seq<Node>, i: nat, n: nat)
    requires i < |nodes|
    ensures Entries(nodes[..i + 1], n) == Entries(nodes[..i], n) + [Entry(nodes[i], n + i)]
  {
  }

  // ---------------------------------------------------------------- the next instructions

  /** The same tree in the form the flattening loops use. */
  function Plain(t: Tree<nat>): Trees.Tree
    decreases t
  {
    Trees.Tree(t.item, PlainAll(t.kids))
  }

  function PlainAll(ts: seq<Tree<nat>>): (r: seq<Trees.Tree>)
    ensures |r| == |ts|
    decreases ts
  {
    seq(|ts|, i requires 0 <= i < |ts| => Plain(ts[i]))
  }

  /** Built with NextInstructions, the tree is the one the prediction is read from. */
  lemma {:induction false} UnfoldIsNextTree(n: Node)
    requires WellFormed(n)
    ensures Plain(Unfold(NextInstructions, n)) == Prediction.NextTree(n)
    decreases n
  {
    var next := Prediction.NextInstructions(n);
    var t := Unfold(NextInstructions, n);
    assert t.kids == UnfoldAll(NextInstructions, n, next);
    forall i | 0 <= i < |next| ensures Plain(t.kids[i]) == Prediction.NextTree(next[i]) {
      UnfoldIsNextTree(next[i]);
    }
    assert Plain(t).kids == Prediction.NextTree(n).kids;
  }

  /** The tree that finished cells hold. */
  function TreeAt(cells: seq<Cell<nat>>, i: nat): Trees.Tree
    requires Linked(cells) && i < |cells|
    decreases |cells| - i
  {
    Trees.Tree(cells[i].item, TreesAt(cells, i, cells[i].kids))
  }

  function TreesAt(cells: seq<Cell<nat>>, i: nat, kids: seq<nat>): (r: seq<Trees.Tree>)
    requires Linked(cells) && i < |cells| && forall k :: 0 <= k < |kids| ==> i < kids[k] < |cells|
    ensures |r| == |kids|
    decreases |cells| - i, 0
  {
    seq(|kids|, k requires 0 <= k < |kids| => TreeAt(cells, kids[k]))
  }

  lemma {:induction false} TreeAtIsBuilt(cells: seq<Cell<nat>>, i: nat)
    requires Linked(cells) && i < |cells|
    ensures TreeAt(cells, i) == Plain(Built(cells, map[], i))
    decreases |cells| - i
  {
    var kids := cells[i].kids;
    forall k | 0 <= k < |kids| ensures TreeAt(cells, kids[k]) == Plain(Built(cells, map[], kids[k])) {
      TreeAtIsBuilt(cells, kids[k]);
    }
    assert TreesAt(cells, i, kids) == PlainAll(BuiltAll(cells, map[], i, kids));
  }
}
