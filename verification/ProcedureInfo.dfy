/** The info tree of a procedure: made from its instructions and their numbering, it always survives
    being serialised and read back. */
module ProcedureInfo {
  import opened Workspaces
  import opened Engine
  import opened Worklist
  import opened InfoTrees
  import opened InstructionMaps
  import Indices
  import Mirror

  /** What an instruction was declared with: its type and its attributes. */
  datatype Texts = Texts(kind: string, attributes: seq<Attribute>)

  /** Categories: 0 action, 1 decorator, 2 compound. */
  function CategoryOf(op: Op): Uint32 {
    if op.Action? then 0 else if IsDecorator(op) then 1 else 2
  }

  /** The categories allow just the children that the kinds of instructions can have. */
  lemma {:induction false} CategoriesFit(op: Op, k: nat)
    ensures Allowed(CategoryOf(op), k) <==> k == 0 || ArityOk(op, k)
  {
  }

  /** CreateInstructionInfoNode. */
  function InfoOf(n: Node, m: map<nat, Uint32>, texts: nat -> Texts): Info {
    Info(texts(n.id).kind, CategoryOf(n.op), if n.id in m then m[n.id] else 0, texts(n.id).attributes)
  }

  function InfoTree(n: Node, m: map<nat, Uint32>, texts: nat -> Texts): Tree<Info>
    decreases n
  {
    Tree(InfoOf(n, m, texts), InfosBelow(n, m, texts))
  }

  function InfosBelow(n: Node, m: map<nat, Uint32>, texts: nat -> Texts): (r: seq<Tree<Info>>)
    ensures |r| == |n.kids|
    decreases n, 0
  {
    seq(|n.kids|, i requires 0 <= i < |n.kids| => InfoTree(n.kids[i], m, texts))
  }

  function InfosOf(ns: seq<Node>, m: map<nat, Uint32>, texts: nat -> Texts): (r: seq<Tree<Info>>)
    ensures |r| == |ns| && forall i :: 0 <= i < |r| ==> r[i] == InfoTree(ns[i], m, texts)
  {
    seq(|ns|, i requires 0 <= i < |ns| => InfoTree(ns[i], m, texts))
  }

  /** Every node of the info tree shows the type, attributes and number of its instruction, and a category
      that tells its kind; the children are those of the instruction, in order. */
  lemma {:induction false} InfoShows(n: Node, m: map<nat, Uint32>, texts: nat -> Texts)
    requires n.id in m
    ensures var t := InfoTree(n, m, texts);
      && t.item.kind == texts(n.id).kind && t.item.attributes == texts(n.id).attributes && t.item.index == m[n.id]
      && (t.item.category == 0 <==> n.op.Action?)
      && (t.item.category == 1 <==> n.op.Inverter? || n.op.ForceSuccess? || n.op.Repeat? || n.op.For?)
      && t.item.category <= 2
      && |t.kids| == |n.kids| && forall i :: 0 <= i < |n.kids| ==> t.kids[i] == InfoTree(n.kids[i], m, texts)
  {
  }

  lemma {:induction false} InfoKids(n: Node, m: map<nat, Uint32>, texts: nat -> Texts)
    ensures InfoTree(n, m, texts) == Tree(InfoOf(n, m, texts), InfosOf(n.kids, m, texts))
  {
    assert InfosBelow(n, m, texts) == InfosOf(n.kids, m, texts);
  }

  /** Every instruction of the tree has a number. */
  predicate Known(n: Node, m: map<nat, Uint32>) {
    n.id in m && forall i :: 0 <= i < |n.kids| ==> Known(n.kids[i], m)
  }

  predicate AllKnown(ns: seq<Node>, m: map<nat, Uint32>) {
    forall i :: 0 <= i < |ns| ==> Known(ns[i], m)
  }

  /** The instructions themselves have numbers. */
  predicate AllFound(ns: seq<Node>, m: map<nat, Uint32>) {
    forall i :: 0 <= i < |ns| ==> ns[i].id in m
  }

  predicate AllWellFormed(ns: seq<Node>) {
    forall i :: 0 <= i < |ns| ==> WellFormed(ns[i])
  }

  // ---------------------------------------------------------------- building it

  lemma {:induction false} KidsAllowed(n: Node)
    requires WellFormed(n)
    ensures Allowed(CategoryOf(n.op), |n.kids|) && AllWellFormed(n.kids)
  {
  }

  /** The infos of the children of one instruction, appended to cell x. */
  method AppendInfos(cells: seq<Cell<Info>>, x: nat, kids: seq<Node>, m: map<nat, Uint32>, texts: nat -> Texts)
    returns (ok: bool, r: seq<Cell<Info>>)
    requires x < |cells| && cells[x].kids == [] && Allowed(cells[x].item.category, |kids|)
    ensures ok <==> AllFound(kids, m)
    ensures ok ==> r == Expand(cells, x, Items(InfosOf(kids, m, texts)))
  {
    r := cells;
    ghost var items := Items(InfosOf(kids, m, texts));
    ExpandNothing(cells, x);
    assert items[..0] == [];
    for i := 0 to |kids|
      invariant forall j :: 0 <= j < i ==> kids[j].id in m
      invariant r == Expand(cells, x, items[..i])
    {
      if kids[i].id !in m {
        return false, r;
      }
      AppendNext(cells, x, items, i);
      assert items[i] == InfoOf(kids[i], m, texts);
      r := Append(r, x, InfoOf(kids[i], m, texts));
    }
    assert items[..|kids|] == items;
    return true, r;
  }

  lemma {:induction false} InfosPush(rest: seq<Node>, kids: seq<Node>, n: Node, m: map<nat, Uint32>,
      texts: nat -> Texts)
    ensures InfosOf(rest + kids, m, texts) == InfosOf(rest + [n], m, texts)[..|rest|] + InfosOf(kids, m, texts)
  {
  }

  /** Taking an instruction from the stack and putting its children there. */
  lemma {:induction false} InfosPop(ns: seq<Node>, m: map<nat, Uint32>, texts: nat -> Texts)
    requires ns != [] && AllFound(ns, m) && AllWellFormed(ns)
    ensures var n, rest := ns[|ns| - 1], ns[..|ns| - 1];
      && (AllKnown(ns, m) <==> AllKnown(rest + n.kids, m))
      && (AllFound(rest + n.kids, m) <==> AllFound(n.kids, m))
      && (AllKnown(rest + n.kids, m) ==> AllFound(n.kids, m))
      && AllWellFormed(rest + n.kids)
      && InfosOf(rest + n.kids, m, texts) == InfosOf(ns, m, texts)[..|ns| - 1] + InfosOf(n.kids, m, texts)
  {
    var n, rest := ns[|ns| - 1], ns[..|ns| - 1];
    assert ns == rest + [n];
    KnownTogether(rest, n.kids, m);
    KnownTogether(rest, [n], m);
    KidsAllowed(n);
    KnownAlone(n, m);
    InfosPush(rest, n.kids, n, m, texts);
  }

  lemma {:induction false} KnownAlone(n: Node, m: map<nat, Uint32>)
    ensures AllKnown([n], m) <==> n.id in m && AllKnown(n.kids, m)
    ensures AllFound([n], m) <==> n.id in m
    ensures AllKnown(n.kids, m) ==> AllFound(n.kids, m)
  {
    assert [n][0] == n;
  }

  lemma {:induction false} KnownTogether(a: seq<Node>, b: seq<Node>, m: map<nat, Uint32>)
    ensures AllKnown(a + b, m) <==> AllKnown(a, m) && AllKnown(b, m)
    ensures AllFound(a + b, m) <==> AllFound(a, m) && AllFound(b, m)
    ensures AllWellFormed(a) && AllWellFormed(b) ==> AllWellFormed(a + b)
  {
    assert forall i :: 0 <= i < |a| ==> a[i] == (a + b)[i];
    assert forall i :: 0 <= i < |b| ==> b[i] == (a + b)[|a| + i];
  }

  /** The cells and the stack of instructions whose infos still lack children. */
  ghost predicate Growing(cells: seq<Cell<Info>>, open: map<nat, Tree<Info>>, dests: seq<nat>, instructions: seq<Node>,
                          m: map<nat, Uint32>, texts: nat -> Texts, goal: Tree<Info>)
  {
    && AllFound(instructions, m) && AllWellFormed(instructions)
    && Working(cells, open, dests, InfosOf(instructions, m, texts), goal)
  }

  /** One iteration of the loop, provided the children of the top instruction have numbers. */
  lemma {:induction false} Grow(cells: seq<Cell<Info>>, open: map<nat, Tree<Info>>, dests: seq<nat>,
      instructions: seq<Node>,
                                m: map<nat, Uint32>, texts: nat -> Texts, goal: Tree<Info>)
    returns (open': map<nat, Tree<Info>>)
    requires Growing(cells, open, dests, instructions, m, texts, goal) && instructions != []
    ensures |dests| == |instructions|
    ensures var last := |instructions| - 1;
            var n, x := instructions[last], dests[last];
            && WellFormed(n) && x < |cells| && cells[x].kids == [] && Allowed(cells[x].item.category, |n.kids|)
            && (AllKnown(instructions, m) <==> AllKnown(instructions[..last] + n.kids, m))
            && (AllKnown(instructions, m) ==> AllFound(n.kids, m))
            && WeightAll(InfosOf(instructions[..last] + n.kids, m, texts)) < WeightAll(InfosOf(instructions, m, texts))
            && (AllFound(n.kids, m) ==>
                  Growing(Expand(cells, x, Items(InfosOf(n.kids, m, texts))), open',
                          dests[..last] + Allocated(|cells|, |n.kids|), instructions[..last] + n.kids, m, texts, goal))
  {
    var last := |instructions| - 1;
    var n := instructions[last];
    InfosPop(instructions, m, texts);
    Iterate(cells, open, dests, InfosOf(instructions, m, texts), goal);
    InfoKids(n, m, texts);
    KidsAllowed(n);
    open' := Reopen(open, dests[last], |cells|);
  }

  lemma {:induction false} Grown(cells: seq<Cell<Info>>, open: map<nat, Tree<Info>>, dests: seq<nat>,
                                 m: map<nat, Uint32>, texts: nat -> Texts, goal: Tree<Info>)
    requires Growing(cells, open, dests, [], m, texts, goal)
    ensures Linked(cells) && cells != [] && Built(cells, map[], 0) == goal
  {
    Finish(cells, open, goal);
  }

  lemma {:induction false} StartGrowing(root: Node, m: map<nat, Uint32>, texts: nat -> Texts)
    requires WellFormed(root) && root.id in m
    ensures var goal := InfoTree(root, m, texts);
            Growing([Cell(InfoOf(root, m, texts), [])], map[0 := goal], [0], [root], m, texts, goal)
  {
    var goal := InfoTree(root, m, texts);
    assert InfosOf([root], m, texts) == [goal];
    Begin(goal);
  }

  /** CreateInstructionInfoTree: fails exactly if an instruction of the tree has no number. */
  method CreateInstructionInfoTree(root: Node, m: map<nat, Uint32>, texts: nat -> Texts)
    returns (r: Option<seq<Cell<Info>>>)
    requires WellFormed(root)
    ensures r.Some? <==> Known(root, m)
    ensures r.Some? ==> Linked(r.value) && r.value != [] && Built(r.value, map[], 0) == InfoTree(root, m, texts)
  {
    if root.id !in m {
      return None;
    }
    ghost var goal := InfoTree(root, m, texts);
    var cells := [Cell(InfoOf(root, m, texts), [])];
    var instructions, dests := [root], [0];
    ghost var open := map[0 := goal];
    StartGrowing(root, m, texts);
    while instructions != []
      invariant Growing(cells, open, dests, instructions, m, texts, goal)
      invariant AllKnown(instructions, m) <==> Known(root, m)
      decreases WeightAll(InfosOf(instructions, m, texts))
    {
      open := Grow(cells, open, dests, instructions, m, texts, goal);
      var last := |instructions| - 1;
      var node, x := instructions[last], dests[last];
      var ok, expanded := AppendInfos(cells, x, node.kids, m, texts);
      if !ok {
        return None;
      }
      dests := dests[..last] + Allocated(|cells|, |node.kids|);
      instructions := instructions[..last] + node.kids;
      cells := expanded;
    }
    Grown(cells, open, dests, m, texts, goal);
    r := Some(cells);
  }

  // ---------------------------------------------------------------- its indices

  ghost function IndexBag(t: Tree<Info>): multiset<nat>
    decreases t
  {
    multiset{t.item.index as nat} + IndexBagAll(t.kids)
  }

  ghost function IndexBagAll(ts: seq<Tree<Info>>): multiset<nat>
    decreases ts
  {
    if ts == [] then multiset{} else IndexBag(ts[|ts| - 1]) + IndexBagAll(ts[..|ts| - 1])
  }

  lemma {:induction false} IndicesAppend(a: seq<Info>, b: seq<Info>)
    ensures IndicesOf(a + b) == IndicesOf(a) + IndicesOf(b)
  {
  }

  /** Flattening keeps every index. */
  lemma {:induction false} FlatBag(ts: seq<Tree<Info>>)
    ensures multiset(IndicesOf(Flat(ts))) == IndexBagAll(ts)
    decreases ts
  {
    if ts != [] {
      var last, rest := ts[|ts| - 1], ts[..|ts| - 1];
      FlatBag(last.kids);
      FlatBag(rest);
      IndicesAppend([last.item] + Flat(last.kids), Flat(rest));
      IndicesAppend([last.item], Flat(last.kids));
      assert IndicesOf([last.item]) == [last.item.index];
    }
  }

  lemma {:induction false} BagAllEnd(kids: seq<Node>)
    requires kids != []
    ensures BagAll(kids) == BagAll(kids[..|kids| - 1]) + Bag(kids[|kids| - 1])
  {
    if |kids| == 1 {
      assert kids[1..] == [] && kids[..0] == [];
    } else {
      BagAllEnd(kids[1..]);
      assert kids[1..][..|kids| - 2] == kids[..|kids| - 1][1..];
    }
  }

  /** Every index stands for one instruction, and occurs as often as that instruction. */
  ghost predicate Mirrors(indices: multiset<nat>, bag: multiset<nat>, m: map<nat, Uint32>) {
    && |indices| == |bag|
    && (forall x :: x in m ==> indices[m[x]] == bag[x])
    && (forall i :: i in indices ==> exists x :: x in m && m[x] == i)
  }

  lemma {:induction false} MirrorsSum(i: multiset<nat>, j: multiset<nat>, a: multiset<nat>, b: multiset<nat>,
      m: map<nat, Uint32>)
    requires Mirrors(i, a, m) && Mirrors(j, b, m)
    ensures Mirrors(i + j, a + b, m)
  {
  }

  lemma {:induction false} InfoMirrors(n: Node, m: map<nat, Uint32>, texts: nat -> Texts)
    requires Known(n, m) && Indices.Injective(m)
    ensures Mirrors(IndexBag(InfoTree(n, m, texts)), Bag(n), m)
    decreases n, 0
  {
    InfoKids(n, m, texts);
    InfosMirror(n.kids, m, texts);
    OneMirrors(n.id, m);
    MirrorsSum(multiset{m[n.id] as nat}, IndexBagAll(InfosOf(n.kids, m, texts)), multiset{n.id}, BagAll(n.kids), m);
  }

  lemma {:induction false} OneMirrors(id: nat, m: map<nat, Uint32>)
    requires id in m && Indices.Injective(m)
    ensures Mirrors(multiset{m[id] as nat}, multiset{id}, m)
  {
  }

  lemma {:induction false} InfosEnd(kids: seq<Node>, m: map<nat, Uint32>, texts: nat -> Texts)
    requires kids != []
    ensures IndexBagAll(InfosOf(kids, m, texts)) ==
      IndexBag(InfoTree(kids[|kids| - 1], m, texts)) + IndexBagAll(InfosOf(kids[..|kids| - 1], m, texts))
  {
    assert InfosOf(kids, m, texts)[..|kids| - 1] == InfosOf(kids[..|kids| - 1], m, texts);
  }

  lemma {:induction false} InfosMirror(kids: seq<Node>, m: map<nat, Uint32>, texts: nat -> Texts)
    requires AllKnown(kids, m) && Indices.Injective(m)
    ensures Mirrors(IndexBagAll(InfosOf(kids, m, texts)), BagAll(kids), m)
    decreases kids
  {
    if kids != [] {
      var last, rest := kids[|kids| - 1], kids[..|kids| - 1];
      InfoMirrors(last, m, texts);
      InfosMirror(rest, m, texts);
      BagAllEnd(kids);
      InfosEnd(kids, m, texts);
      MirrorsSum(IndexBag(InfoTree(last, m, texts)), IndexBagAll(InfosOf(rest, m, texts)), Bag(last), BagAll(rest), m);
    }
  }

  lemma {:induction false} IdsKnown(n: Node, m: map<nat, Uint32>)
    requires Mirror.Ids(n) <= m.Keys
    ensures Known(n, m)
    decreases n
  {
    forall i | 0 <= i < |n.kids| ensures Known(n.kids[i], m) {
      assert forall x :: x in Mirror.Ids(n.kids[i]) ==> x in Mirror.Ids(n);
      IdsKnown(n.kids[i], m);
    }
  }

  /** The indices of a procedure's info tree are a permutation of 0 .. n-1. */
  lemma {:induction false} InfoIndicesOk(n: Node, m: map<nat, Uint32>, texts: nat -> Texts)
    requires WellFormed(n) && MapsTree(m, n)
    ensures Known(n, m) && IndicesOk(InfoTree(n, m, texts))
  {
    var t := InfoTree(n, m, texts);
    var indices := IndicesOf(Flat([t]));
    IdsKnown(n, m);
    InfoMirrors(n, m, texts);
    FlatBag([t]);
    assert [t][..0] == [];
    assert multiset(indices) == IndexBag(t);
    OrderBag(n);
    MirroredPermutation(indices, Order(n), m);
  }

  lemma {:induction false} MirroredPermutation(indices: seq<nat>, order: seq<nat>, m: map<nat, Uint32>)
    requires Mirrors(multiset(indices), multiset(order), m) && Indices.Indexes(m) && Indices.Numbers(m, order)
    ensures Indices.Permutation(indices)
  {
    ListBag(indices);
    ListBag(order);
    assert Indices.NoDuplicates(order) by {
      forall i, j | 0 <= i < j < |order| ensures order[i] != order[j] {
        assert m[order[i]] == i && m[order[j]] == j;
      }
    }
    forall i ensures multiset(indices)[i] <= 1 {
      if i in multiset(indices) {
        var x :| x in m && m[x] == i;
        assert multiset(indices)[m[x]] == multiset(order)[x];
      }
    }
    forall k | 0 <= k < |indices| ensures indices[k] < |indices| {
      assert indices[k] in multiset(indices);
      var x :| x in m && m[x] == indices[k];
    }
  }

  // ---------------------------------------------------------------- the whole way

  lemma {:induction false} InfoFitsFormat(n: Node, m: map<nat, Uint32>, texts: nat -> Texts)
    requires WellFormed(n) && forall id :: DistinctNames(texts(id).attributes)
    ensures NamesOk(InfoTree(n, m, texts)) && AritiesOk(InfoTree(n, m, texts))
    decreases n
  {
    InfoKids(n, m, texts);
    KidsAllowed(n);
    forall i | 0 <= i < |n.kids|
      ensures NamesOk(InfoTree(n.kids[i], m, texts)) && AritiesOk(InfoTree(n.kids[i], m, texts))
    {
      InfoFitsFormat(n.kids[i], m, texts);
    }
  }

  /** Whatever the procedure, the info tree made from its numbering is accepted by every check when it
      is serialised and read back, and comes back as it was. */
  lemma {:induction false} ProcedureInfoRoundTrips(n: Node, m: map<nat, Uint32>, texts: nat -> Texts)
    requires WellFormed(n) && MapsTree(m, n) && forall id :: DistinctNames(texts(id).attributes)
    ensures var t := InfoTree(n, m, texts);
      && Known(n, m) && NamesOk(t) && AritiesOk(t) && IndicesOk(t)
      && Parses(Encode(t)) && IndicesOk(Decode(Encode(t))) && Decode(Encode(t)) == t
  {
    InfoIndicesOk(n, m, texts);
    InfoFitsFormat(n, m, texts);
    RoundTrip(InfoTree(n, m, texts));
  }
}
