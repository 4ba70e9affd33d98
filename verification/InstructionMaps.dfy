/** The numbering of a procedure's instructions. */
module InstructionMaps {
  import opened Workspaces
  import opened Engine
  import opened InstructionObject
  import opened InstructionTrees
  import opened Indices
  import Mirror
  import Traversal
  import Trees

  // ---------------------------------------------------------------- how often an instruction occurs

  /** The instructions of a tree, each as often as it occurs. */
  ghost function Bag(n: Node): multiset<nat> {
    multiset{n.id} + BagAll(n.kids)
  }

  ghost function BagAll(kids: seq<Node>): multiset<nat> {
    if kids == [] then multiset{} else Bag(kids[0]) + BagAll(kids[1..])
  }

  ghost function TreeBag(t: Trees.Tree): multiset<nat>
    decreases t
  {
    multiset{t.id} + TreeBagAll(t.kids)
  }

  ghost function TreeBagAll(ts: seq<Trees.Tree>): multiset<nat>
    decreases ts
  {
    if ts == [] then multiset{} else TreeBag(ts[0]) + TreeBagAll(ts[1..])
  }

  /** Nothing occurs twice. */
  ghost predicate Single(bag: multiset<nat>) {
    forall x :: bag[x] <= 1
  }

  lemma {:induction false} TreeBagAppend(ts: seq<Trees.Tree>, us: seq<Trees.Tree>)
    ensures TreeBagAll(ts + us) == TreeBagAll(ts) + TreeBagAll(us)
  {
    if ts == [] {
      assert ts + us == us;
    } else {
      assert (ts + us)[1..] == ts[1..] + us;
      TreeBagAppend(ts[1..], us);
    }
  }

  lemma {:induction false} BagByLevel(ts: seq<Trees.Tree>)
    ensures TreeBagAll(ts) == multiset(Trees.Ids(ts)) + TreeBagAll(Trees.Below(ts))
  {
    if ts != [] {
      BagByLevel(ts[1..]);
      TreeBagAppend(ts[0].kids, Trees.Below(ts[1..]));
      IdsHead(ts);
    }
  }

  lemma {:induction false} IdsHead(ts: seq<Trees.Tree>)
    requires ts != []
    ensures multiset(Trees.Ids(ts)) == multiset{ts[0].id} + multiset(Trees.Ids(ts[1..]))
  {
    assert Trees.Ids(ts) == [ts[0].id] + Trees.Ids(ts[1..]);
  }

  /** Flattening keeps every occurrence. */
  lemma {:induction false} BreadthBag(ts: seq<Trees.Tree>)
    ensures multiset(Trees.Ids(Trees.Breadth(ts))) == TreeBagAll(ts)
    decreases Trees.WeightAll(ts)
  {
    Traversal.BreadthStep(ts);
    if ts != [] {
      Trees.BelowIsLighter(ts);
      BreadthBag(Trees.Below(ts));
      BagByLevel(ts);
      Traversal.IdsAppend(ts, Trees.Breadth(Trees.Below(ts)));
    }
  }

  /** CreateFullInstructionTree, as the flattening loops see it. */
  function FullTree(n: Node): Trees.Tree
    requires WellFormed(n)
  {
    Plain(Unfold(ChildInstructions, n))
  }

  lemma {:induction false} SameBags(kids: seq<Node>, ts: seq<Trees.Tree>)
    requires |kids| == |ts| && forall i :: 0 <= i < |kids| ==> TreeBag(ts[i]) == Bag(kids[i])
    ensures TreeBagAll(ts) == BagAll(kids)
  {
    if kids != [] {
      SameBags(kids[1..], ts[1..]);
    }
  }

  lemma {:induction false} FullTreeKids(n: Node, i: nat)
    requires WellFormed(n) && i < |n.kids|
    ensures |FullTree(n).kids| == |n.kids| && FullTree(n).id == n.id
    ensures FullTree(n).kids[i] == FullTree(n.kids[i])
  {
    var t := Unfold(ChildInstructions, n);
    assert t.kids == UnfoldAll(ChildInstructions, n, n.kids);
    assert FullTree(n).kids == PlainAll(t.kids);
  }

  lemma {:induction false} FullTreeBag(n: Node)
    requires WellFormed(n)
    ensures TreeBag(FullTree(n)) == Bag(n)
    decreases n
  {
    var kids := FullTree(n).kids;
    assert kids == PlainAll(Unfold(ChildInstructions, n).kids);
    forall i | 0 <= i < |n.kids| ensures TreeBag(kids[i]) == Bag(n.kids[i]) {
      FullTreeKids(n, i);
      FullTreeBag(n.kids[i]);
    }
    SameBags(n.kids, kids);
  }

  lemma {:induction false} BagIds(n: Node)
    ensures forall x :: x in Bag(n) <==> x in Mirror.Ids(n)
    ensures Single(Bag(n)) <==> Mirror.Distinct(n)
    decreases n, 0
  {
    BagAllIds(n.kids);
    assert Mirror.Ids(n) == {n.id} + Mirror.IdsAll(n.kids);
    if Single(Bag(n)) {
      assert forall x :: BagAll(n.kids)[x] <= Bag(n)[x];
      assert Bag(n)[n.id] <= 1 && n.id !in BagAll(n.kids);
      NotBelowAny(n);
    }
    if Mirror.Distinct(n) {
      Mirror.NotBelow(n);
    }
  }

  lemma {:induction false} NotBelowAny(n: Node)
    requires n.id !in Mirror.IdsAll(n.kids) && Mirror.DistinctAll(n.kids)
    ensures Mirror.Distinct(n)
  {
  }

  lemma {:induction false} BagAllIds(kids: seq<Node>)
    ensures forall x :: x in BagAll(kids) <==> x in Mirror.IdsAll(kids)
    ensures Single(BagAll(kids)) <==> Mirror.DistinctAll(kids)
    decreases kids
  {
    if kids != [] {
      BagIds(kids[0]);
      BagAllIds(kids[1..]);
      Mirror.IdsAllTail(kids);
      DistinctTail(kids);
      SingleSum(Bag(kids[0]), BagAll(kids[1..]));
    }
  }

  lemma {:induction false} SingleSum(a: multiset<nat>, b: multiset<nat>)
    ensures Single(a + b) <==> Single(a) && Single(b) && forall x :: x in a ==> x !in b
  {
    if Single(a + b) {
      forall x ensures a[x] <= 1 && b[x] <= 1 && (x in a ==> x !in b) {
        assert (a + b)[x] <= 1;
      }
    }
  }

  lemma {:induction false} DistinctTail(kids: seq<Node>)
    requires kids != []
    ensures Mirror.DistinctAll(kids) <==>
      && Mirror.Distinct(kids[0]) && Mirror.DistinctAll(kids[1..])
      && Mirror.Ids(kids[0]) !! Mirror.IdsAll(kids[1..])
  {
    var rest := kids[1..];
    if Mirror.DistinctAll(kids) {
      Mirror.ResetHeadApart(kids);
      forall i, j | 0 <= i < j < |rest| ensures Mirror.Ids(rest[i]) !! Mirror.Ids(rest[j]) {
        assert Mirror.Ids(kids[i + 1]) !! Mirror.Ids(kids[j + 1]);
      }
    }
    if Mirror.Distinct(kids[0]) && Mirror.DistinctAll(rest) && Mirror.Ids(kids[0]) !! Mirror.IdsAll(rest) {
      forall i, j | 0 <= i < j < |kids| ensures Mirror.Ids(kids[i]) !! Mirror.Ids(kids[j]) {
        assert kids[j] == rest[j - 1];
        if i == 0 {
          assert forall x :: x in Mirror.Ids(rest[j - 1]) ==> x in Mirror.IdsAll(rest);
        } else {
          assert kids[i] == rest[i - 1];
        }
      }
      forall i | 0 <= i < |kids| ensures Mirror.Distinct(kids[i]) {
        assert i > 0 ==> kids[i] == rest[i - 1];
      }
    }
  }

  lemma {:induction false} ListBag(list: seq<nat>)
    ensures Indices.NoDuplicates(list) <==> Single(multiset(list))
    ensures forall x :: x in list <==> x in multiset(list)
  {
    if list != [] {
      var rest := list[1..];
      ListBag(rest);
      assert list == [list[0]] + rest;
      SingleSum(multiset{list[0]}, multiset(rest));
      if Indices.NoDuplicates(list) {
        forall j | 0 <= j < |rest| ensures rest[j] != list[0] { assert rest[j] == list[j + 1]; }
        forall i, j | 0 <= i < j < |rest| ensures rest[i] != rest[j] { assert list[i + 1] != list[j + 1]; }
      }
      if Indices.NoDuplicates(rest) && list[0] !in rest {
        forall i, j | 0 <= i < j < |list| ensures list[i] != list[j] { assert list[j] == rest[j - 1]; }
      }
    }
  }

  // ---------------------------------------------------------------- the map

  /** The instructions of a procedure in the order in which they are numbered. */
  function Order(n: Node): seq<nat>
    requires WellFormed(n)
  {
    Trees.Ids(Trees.Breadth([FullTree(n)]))
  }

  lemma {:induction false} OrderBag(n: Node)
    requires WellFormed(n)
    ensures multiset(Order(n)) == Bag(n)
  {
    BreadthBag([FullTree(n)]);
    FullTreeBag(n);
    assert [FullTree(n)][1..] == [];
  }

  /** The list of all instructions names each of them, and no instruction twice if they differ. */
  lemma {:induction false} OrderIds(n: Node)
    requires WellFormed(n)
    ensures Indices.NoDuplicates(Order(n)) <==> Mirror.Distinct(n)
    ensures Members(Order(n)) == Mirror.Ids(n)
  {
    OrderBag(n);
    ListBag(Order(n));
    BagIds(n);
  }

  /** m numbers the instructions of n from 0 on, in the order of their levels. */
  ghost predicate MapsTree(m: map<nat, nat>, n: Node)
    requires WellFormed(n)
  {
    m.Keys == Mirror.Ids(n) && Indexes(m) && Numbers(m, Order(n))
  }

  /** InitializeMap: a bijection from the instructions of the tree to 0 .. n-1; refused exactly if an
      instruction occurs twice. */
  method InitializeInstructionMap(root: Instruction) returns (r: Option<map<nat, nat>>)
    requires root.Valid() && WellFormed(root.View())
    ensures r.Some? <==> Mirror.Distinct(root.View())
    ensures r.Some? ==> MapsTree(r.value, root.View())
  {
    ghost var n := root.View();
    var cells := CreateInstructionTree(root, ChildInstructions);
    TreeAtIsBuilt(cells, 0);
    var list := Traversal.FlattenBFS(TreeAt(cells, 0));
    r := InitializeMap(list);
    OrderIds(n);
    if r.Some? {
      NumbersKeys(r.value, list);
      ReverseOfNumbers(r.value, list, list);
    }
  }

  lemma {:induction false} NumbersKeys(m: map<nat, nat>, list: seq<nat>)
    requires Numbers(m, list)
    ensures m.Keys == Members(list) && Reverses(list, m)
  {
  }

  /** GetOrderedInstructions: the reverse of the map is the list it was made from. */
  method GetOrderedInstructions(m: map<nat, nat>, ghost n: Node) returns (r: Option<seq<nat>>)
    requires WellFormed(n) && MapsTree(m, n)
    ensures r == Some(Order(n))
  {
    r := GetReverseMap(m);
    ReverseOfNumbers(m, Order(n), r.value);
  }
}
