/** Instruction info trees and their serialised form. */
module InfoTrees {
  import opened Workspaces
  import opened Worklist
  import opened Indices
  import Voting

  type Uint32 = Voting.Uint32

  datatype Attribute = Attribute(name: string, value: string)

  /** The data of one instruction. Categories: 0 action, 1 decorator, 2 compound. */
  datatype Info = Info(kind: string, category: Uint32, index: Uint32, attributes: seq<Attribute>)

  /** Structured values; a struct is a list of named members. */
  datatype AnyValue =
    | Text(s: string)
    | Unsigned32(n: Uint32)
    | Struct(members: seq<Member>)
    | OtherValue(id: nat)

  datatype Member = Member(name: string, value: AnyValue)

  /** Reading a member by name. */
  function Field(members: seq<Member>, name: string): Option<AnyValue> {
    if members == [] then None
    else if members[0].name == name then Some(members[0].value)
    else Field(members[1..], name)
  }

  // ---------------------------------------------------------------- names of children

  function Digit(n: nat): char
    requires n < 10
  {
    ['0', '1', '2', '3', '4', '5', '6', '7', '8', '9'][n]
  }

  /** Decimal notation. */
  function ToString(n: nat): (s: string)
    ensures s != []
  {
    if n < 10 then [Digit(n)] else ToString(n / 10) + [Digit(n % 10)]
  }

  const CHILD_PREFIX := "child_"

  function ChildName(i: nat): string {
    CHILD_PREFIX + ToString(i)
  }

  lemma {:induction false} ToStringInjective(m: nat, n: nat)
    requires ToString(m) == ToString(n)
    ensures m == n
    decreases m
  {
    var s, t := ToString(m), ToString(n);
    assert s[|s| - 1] == Digit(m % 10) && t[|t| - 1] == Digit(n % 10);
    if m >= 10 && n >= 10 {
      assert s[..|s| - 1] == ToString(m / 10) && t[..|t| - 1] == ToString(n / 10);
      ToStringInjective(m / 10, n / 10);
    }
  }

  lemma {:induction false} ChildNameInjective(i: nat, j: nat)
    ensures ChildName(i) == ChildName(j) <==> i == j
  {
    if ChildName(i) == ChildName(j) {
      assert ChildName(i)[|CHILD_PREFIX|..] == ToString(i) && ChildName(j)[|CHILD_PREFIX|..] == ToString(j);
      ToStringInjective(i, j);
    }
  }

  // ---------------------------------------------------------------- one node

  predicate DistinctNames(attributes: seq<Attribute>) {
    forall i, j :: 0 <= i < j < |attributes| ==> attributes[i].name != attributes[j].name
  }

  function EncodeAttributes(attributes: seq<Attribute>): (r: seq<Member>)
    ensures |r| == |attributes|
    ensures forall i :: 0 <= i < |r| ==> r[i] == Member(attributes[i].name, Text(attributes[i].value))
  {
    seq(|attributes|, i requires 0 <= i < |attributes| => Member(attributes[i].name, Text(attributes[i].value)))
  }

  /** ToAnyValueNode. */
  function EncodeNode(info: Info): seq<Member> {
    [Member("type", Text(info.kind)),
     Member("category", Unsigned32(info.category)),
     Member("index", Unsigned32(info.index)),
     Member("attributes", Struct(EncodeAttributes(info.attributes)))]
  }

  predicate IsText(v: Option<AnyValue>) {
    v.Some? && v.value.Text?
  }

  predicate IsUnsigned32(v: Option<AnyValue>) {
    v.Some? && v.value.Unsigned32?
  }

  predicate AllTexts(members: seq<Member>) {
    forall i :: 0 <= i < |members| ==> IsText(Field(members, members[i].name))
  }

  predicate NamedAsChildren(members: seq<Member>) {
    forall i :: 0 <= i < |members| ==> members[i].name == ChildName(i)
  }

  /** ValidateInstructionInfoAnyValue. */
  predicate ValidNode(v: AnyValue) {
    && v.Struct?
    && IsText(Field(v.members, "type"))
    && IsUnsigned32(Field(v.members, "category"))
    && IsUnsigned32(Field(v.members, "index"))
    && (var a := Field(v.members, "attributes"); a.Some? && a.value.Struct? && AllTexts(a.value.members))
    && (var c := Field(v.members, "children"); c.Some? ==> c.value.Struct? && NamedAsChildren(c.value.members))
  }

  /** The attributes are read by name. */
  function DecodeAttributes(members: seq<Member>): (r: seq<Attribute>)
    requires AllTexts(members)
    ensures |r| == |members|
    ensures forall i :: 0 <= i < |r| ==> r[i] == Attribute(members[i].name, Field(members, members[i].name).value.s)
  {
    seq(|members|, i requires 0 <= i < |members| => Attribute(members[i].name, Field(members, members[i].name).value.s))
  }

  /** ToInstructionInfoNode. */
  function DecodeNode(v: AnyValue): Info
    requires ValidNode(v)
  {
    Info(Field(v.members, "type").value.s, Field(v.members, "category").value.n, Field(v.members, "index").value.n,
         DecodeAttributes(Field(v.members, "attributes").value.members))
  }

  lemma {:induction false} FieldIsMember(members: seq<Member>, name: string)
    requires Field(members, name).Some?
    ensures exists j :: 0 <= j < |members| && members[j].value == Field(members, name).value
  {
    if members[0].name != name {
      FieldIsMember(members[1..], name);
      var j :| 0 <= j < |members[1..]| && members[1..][j].value == Field(members[1..], name).value;
      assert members[j + 1].value == members[1..][j].value;
    }
  }

  lemma {:induction false} MemberHasField(members: seq<Member>, i: nat)
    requires i < |members|
    ensures Field(members, members[i].name).Some?
  {
    if members[0].name != members[i].name {
      MemberHasField(members[1..], i - 1);
    }
  }

  lemma {:induction false} FieldAt(members: seq<Member>, i: nat)
    requires i < |members| && forall j :: 0 <= j < i ==> members[j].name != members[i].name
    ensures Field(members, members[i].name) == Some(members[i].value)
  {
    if i > 0 {
      FieldAt(members[1..], i - 1);
    }
  }

  /** Member i is the first of that name. */
  predicate FirstNamed(members: seq<Member>, name: string, i: nat) {
    i < |members| && members[i].name == name && forall j :: 0 <= j < i ==> members[j].name != name
  }

  /** A name stands for the first member that has it, and for nothing if none has. */
  lemma {:induction false} FieldIsFirst(members: seq<Member>, name: string, v: AnyValue)
    ensures Field(members, name) == Some(v) <==> exists i: nat :: FirstNamed(members, name, i) && members[i].value == v
    decreases |members|
  {
    if i: nat :| FirstNamed(members, name, i) {
      FieldAt(members, i);
      forall j: nat | FirstNamed(members, name, j) ensures j == i {
      }
    } else if Field(members, name).Some? {
      FirstOfSome(members, name);
    }
  }

  lemma {:induction false} FirstOfSome(members: seq<Member>, name: string)
    requires Field(members, name).Some?
    ensures exists i: nat :: FirstNamed(members, name, i)
    decreases |members|
  {
    if members[0].name == name {
      assert FirstNamed(members, name, 0);
    } else {
      FirstOfSome(members[1..], name);
      var i: nat :| FirstNamed(members[1..], name, i);
      assert forall j :: 0 < j < i + 1 ==> members[j] == members[1..][j - 1];
      assert FirstNamed(members, name, i + 1);
    }
  }

  /** The format of a node: a text as type, unsigned integers as category and index, a struct of texts as
      attributes, and as children, if there is such a member at all, a struct whose members are named as
      children are, in order. */
  lemma {:induction false} ValidNodeMeans(v: AnyValue)
    ensures ValidNode(v) <==>
      && v.Struct?
      && (exists s :: Field(v.members, "type") == Some(Text(s)))
      && (exists n :: Field(v.members, "category") == Some(Unsigned32(n)))
      && (exists n :: Field(v.members, "index") == Some(Unsigned32(n)))
      && (exists a: seq<Member> :: Field(v.members, "attributes") == Some(Struct(a))
            && forall i :: 0 <= i < |a| ==> exists s :: Field(a, a[i].name) == Some(Text(s)))
      && (Field(v.members, "children") == None
          || exists c: seq<Member> :: Field(v.members, "children") == Some(Struct(c))
               && forall i :: 0 <= i < |c| ==> c[i].name == "child_" + ToString(i))
  {
  }

  /** The value read under the name of member i. */
  function ValueAt(members: seq<Member>, i: nat): (r: AnyValue)
    requires i < |members|
    ensures r < Struct(members)
  {
    MemberHasField(members, i);
    FieldIsMember(members, members[i].name);
    Field(members, members[i].name).value
  }

  /** The serialised children, read by name. */
  function ChildValues(v: AnyValue): (r: seq<AnyValue>)
    requires ValidNode(v)
    ensures forall i :: 0 <= i < |r| ==> r[i] < v
  {
    var c := Field(v.members, "children");
    if c.None? then []
    else
      FieldIsMember(v.members, "children");
      assert c.value < v;
      seq(|c.value.members|, i requires 0 <= i < |c.value.members| => ValueAt(c.value.members, i))
  }

  // ---------------------------------------------------------------- whole trees

  /** ValidateAppend, asked for n children one after the other. */
  predicate Allowed(category: Uint32, n: nat) {
    n == 0 || category == 2 || (category == 1 && n == 1)
  }

  /** Whether a child can be appended to a node that has n. */
  predicate MayAppend(category: Uint32, n: nat) {
    if category == 0 then false
    else if category == 1 then n == 0
    else category == 2
  }

  lemma {:induction false} AppendOneByOne(category: Uint32, i: nat, n: nat)
    requires i < n && Allowed(category, i)
    ensures MayAppend(category, i) ==> Allowed(category, i + 1)
    ensures !MayAppend(category, i) ==> !Allowed(category, n)
  {
  }

  predicate AritiesOk(t: Tree<Info>)
    decreases t
  {
    Allowed(t.item.category, |t.kids|) && forall i :: 0 <= i < |t.kids| ==> AritiesOk(t.kids[i])
  }

  predicate NamesOk(t: Tree<Info>)
    decreases t
  {
    DistinctNames(t.item.attributes) && forall i :: 0 <= i < |t.kids| ==> NamesOk(t.kids[i])
  }

  /** The serialised form of a tree. */
  function Encode(t: Tree<Info>): AnyValue
    decreases t, 1
  {
    Struct(EncodeNode(t.item) + if t.kids == [] then [] else [Member("children", Struct(EncodeKids(t)))])
  }

  function EncodeKids(t: Tree<Info>): (r: seq<Member>)
    ensures |r| == |t.kids|
    decreases t, 0
  {
    seq(|t.kids|, i requires 0 <= i < |t.kids| => Member(ChildName(i), Encode(t.kids[i])))
  }

  const BLANK := Info("", 0, 0, [])

  /** What a value is read as, node by node. */
  function Decode(v: AnyValue): Tree<Info>
    decreases v, 1
  {
    if ValidNode(v) then Tree(DecodeNode(v), DecodeAll(v, ChildValues(v))) else Tree(BLANK, [])
  }

  function DecodeAll(v: AnyValue, values: seq<AnyValue>): (r: seq<Tree<Info>>)
    requires forall i :: 0 <= i < |values| ==> values[i] < v
    ensures |r| == |values|
    decreases v, 0
  {
    seq(|values|, i requires 0 <= i < |values| => Decode(values[i]))
  }

  /** Every node has the right format and at most as many children as its category allows. */
  predicate Parses(v: AnyValue)
    decreases v
  {
    && ValidNode(v)
    && Allowed(DecodeNode(v).category, |ChildValues(v)|)
    && forall i :: 0 <= i < |ChildValues(v)| ==> Parses(ChildValues(v)[i])
  }

  // ---------------------------------------------------------------- round trip

  lemma {:induction false} EncodedAttributes(attributes: seq<Attribute>)
    requires DistinctNames(attributes)
    ensures AllTexts(EncodeAttributes(attributes)) && DecodeAttributes(EncodeAttributes(attributes)) == attributes
  {
    var members := EncodeAttributes(attributes);
    forall i | 0 <= i < |members| ensures Field(members, members[i].name) == Some(Text(attributes[i].value)) {
      FieldAt(members, i);
    }
  }

  lemma {:induction false} EncodedFields(info: Info, rest: seq<Member>)
    requires rest == [] || (|rest| == 1 && rest[0].name == "children")
    ensures var m := EncodeNode(info) + rest;
      && Field(m, "type") == Some(Text(info.kind))
      && Field(m, "category") == Some(Unsigned32(info.category))
      && Field(m, "index") == Some(Unsigned32(info.index))
      && Field(m, "attributes") == Some(Struct(EncodeAttributes(info.attributes)))
      && Field(m, "children") == if rest == [] then None else Some(rest[0].value)
  {
    var m := EncodeNode(info) + rest;
    assert m[0].name == "type" && m[1].name == "category" && m[2].name == "index" && m[3].name == "attributes";
    assert "category" != "children" by { assert "category"[1] != "children"[1]; }
    FieldAt(m, 0);
    FieldAt(m, 1);
    FieldAt(m, 2);
    FieldAt(m, 3);
    if rest != [] {
      assert m[4] == rest[0];
      FieldAt(m, 4);
    } else {
      assert m == EncodeNode(info);
      NoField(m, "children");
    }
  }

  lemma {:induction false} NoField(members: seq<Member>, name: string)
    requires forall i :: 0 <= i < |members| ==> members[i].name != name
    ensures Field(members, name) == None
  {
    if members != [] {
      NoField(members[1..], name);
    }
  }

  lemma {:induction false} EncodedKids(t: Tree<Info>, i: nat)
    requires i < |t.kids|
    ensures ValueAt(EncodeKids(t), i) == Encode(t.kids[i])
  {
    var members := EncodeKids(t);
    forall j | 0 <= j < i ensures members[j].name != members[i].name {
      ChildNameInjective(i, j);
    }
    FieldAt(members, i);
  }

  /** One node survives the round trip, and its children are found again. */
  lemma {:induction false} EncodedNode(t: Tree<Info>)
    requires DistinctNames(t.item.attributes)
    ensures var v := Encode(t);
      && ValidNode(v) && DecodeNode(v) == t.item && |ChildValues(v)| == |t.kids|
      && forall i :: 0 <= i < |t.kids| ==> ChildValues(v)[i] == Encode(t.kids[i])
  {
    var rest := if t.kids == [] then [] else [Member("children", Struct(EncodeKids(t)))];
    EncodedFields(t.item, rest);
    EncodedAttributes(t.item.attributes);
    forall i | 0 <= i < |t.kids| ensures ValueAt(EncodeKids(t), i) == Encode(t.kids[i]) {
      EncodedKids(t, i);
    }
  }

  /** Reading back a serialised tree gives the tree; it is refused exactly if some node has more
      children than its category allows. */
  lemma {:induction false} DecodeOfEncode(t: Tree<Info>)
    requires NamesOk(t)
    ensures Decode(Encode(t)) == t
    ensures Parses(Encode(t)) <==> AritiesOk(t)
    decreases t
  {
    var v := Encode(t);
    EncodedNode(t);
    forall i | 0 <= i < |t.kids|
      ensures Decode(ChildValues(v)[i]) == t.kids[i] && (Parses(ChildValues(v)[i]) <==> AritiesOk(t.kids[i]))
    {
      DecodeOfEncode(t.kids[i]);
    }
    assert Decode(v).kids == t.kids;
  }

  // ---------------------------------------------------------------- flattening

  /** The nodes of some trees as the stack loop of Flatten visits them: the last tree first. */
  function Flat(ts: seq<Tree<Info>>): seq<Info>
    decreases ts
  {
    if ts == [] then []
    else
      var last := ts[|ts| - 1];
      [last.item] + Flat(last.kids) + Flat(ts[..|ts| - 1])
  }

  lemma {:induction false} FlatAppend(ts: seq<Tree<Info>>, us: seq<Tree<Info>>)
    ensures Flat(ts + us) == Flat(us) + Flat(ts)
  {
    if us == [] {
      assert ts + us == ts;
    } else {
      var last := us[|us| - 1];
      assert (ts + us)[..|ts + us| - 1] == ts + us[..|us| - 1];
      FlatAppend(ts, us[..|us| - 1]);
      Regroup(Flat(ts), [last.item], Flat(last.kids), Flat(us[..|us| - 1]));
    }
  }

  /** Every node is visited exactly once. */
  lemma {:induction false} FlatSize(ts: seq<Tree<Info>>)
    ensures |Flat(ts)| == WeightAll(ts)
    decreases ts
  {
    if ts != [] {
      FlatSize(ts[|ts| - 1].kids);
      FlatSize(ts[..|ts| - 1]);
    }
  }

  function IndicesOf(infos: seq<Info>): (r: seq<nat>)
    ensures |r| == |infos| && forall i :: 0 <= i < |r| ==> r[i] == infos[i].index
  {
    seq(|infos|, i requires 0 <= i < |infos| => infos[i].index)
  }

  predicate IndicesOk(t: Tree<Info>) {
    Permutation(IndicesOf(Flat([t])))
  }

  /** The trees that some cells hold. */
  ghost function Held(cells: seq<Cell<Info>>, ids: seq<nat>): (r: seq<Tree<Info>>)
    requires Linked(cells) && Within(ids, |cells|)
    ensures |r| == |ids| && forall i :: 0 <= i < |r| ==> r[i] == Built(cells, map[], ids[i])
  {
    seq(|ids|, i requires 0 <= i < |ids| => Built(cells, map[], ids[i]))
  }

  predicate Within(ids: seq<nat>, n: nat) {
    forall i :: 0 <= i < |ids| ==> ids[i] < n
  }

  lemma {:induction false} HeldAppend(cells: seq<Cell<Info>>, ids: seq<nat>, more: seq<nat>)
    requires Linked(cells) && Within(ids, |cells|) && Within(more, |cells|)
    ensures Within(ids + more, |cells|) && Held(cells, ids + more) == Held(cells, ids) + Held(cells, more)
  {
  }

  lemma {:induction false} HeldKids(cells: seq<Cell<Info>>, id: nat)
    requires Linked(cells) && id < |cells|
    ensures Within(cells[id].kids, |cells|)
    ensures Built(cells, map[], id) == Tree(cells[id].item, Held(cells, cells[id].kids))
  {
    assert BuiltAll(cells, map[], id, cells[id].kids) == Held(cells, cells[id].kids);
  }

  lemma {:induction false} HeldPop(cells: seq<Cell<Info>>, rest: seq<nat>, id: nat, visited: seq<Info>)
    requires Linked(cells) && Within(rest, |cells|) && id < |cells|
    ensures Within(rest + [id], |cells|) && Within(rest + cells[id].kids, |cells|)
    ensures visited + Flat(Held(cells, rest + [id])) ==
      visited + [cells[id].item] + Flat(Held(cells, rest + cells[id].kids))
    ensures WeightAll(Held(cells, rest + cells[id].kids)) < WeightAll(Held(cells, rest + [id]))
  {
    var t := Built(cells, map[], id);
    var ts := Held(cells, rest);
    HeldKids(cells, id);
    HeldAppend(cells, rest, [id]);
    HeldAppend(cells, rest, cells[id].kids);
    assert Held(cells, [id]) == [t];
    FlatPop(ts, t, visited);
    WeightAppend(ts, t.kids);
    WeightAppend(ts, [t]);
    assert WeightAll([t]) == WeightAll([t][..0]) + Weight(t);
  }

  lemma {:induction false} FlatPop(ts: seq<Tree<Info>>, t: Tree<Info>, visited: seq<Info>)
    ensures visited + Flat(ts + [t]) == visited + [t.item] + Flat(ts + t.kids)
  {
    FlatAppend(ts, t.kids);
    assert (ts + [t])[..|ts|] == ts;
    Regroup(visited, [t.item], Flat(t.kids), Flat(ts));
  }

  lemma {:induction false} Regroup(a: seq<Info>, b: seq<Info>, c: seq<Info>, d: seq<Info>)
    ensures a + (b + c + d) == a + b + (c + d)
    ensures b + c + (d + a) == b + c + d + a
  {
  }

  /** Flatten. */
  method Flatten(cells: seq<Cell<Info>>) returns (result: seq<Info>)
    requires Linked(cells) && cells != []
    ensures result == Flat([Built(cells, map[], 0)])
  {
    result := [];
    var stack: seq<nat> := [0];
    assert Held(cells, [0]) == [Built(cells, map[], 0)];
    while stack != []
      invariant Within(stack, |cells|)
      invariant result + Flat(Held(cells, stack)) == Flat([Built(cells, map[], 0)])
      decreases WeightAll(Held(cells, stack))
    {
      var id, rest := stack[|stack| - 1], stack[..|stack| - 1];
      assert stack == rest + [id];
      HeldPop(cells, rest, id, result);
      stack := rest;
      result := result + [cells[id].item];
      stack := stack + cells[id].kids;
    }
  }

  // ---------------------------------------------------------------- indices

  /** ValidateInstructionInfoTree: it accepts exactly the trees whose indices are a permutation. */
  method ValidateInstructionInfoTree(cells: seq<Cell<Info>>) returns (ok: bool)
    requires Linked(cells) && cells != []
    ensures ok <==> IndicesOk(Built(cells, map[], 0))
  {
    var infos := Flatten(cells);
    ok := ValidateIndices(IndicesOf(infos));
  }

  /** These are the nodes of a tree, each at its index. */
  predicate InOrder(ordered: seq<Info>, t: Tree<Info>) {
    var infos := Flat([t]);
    && |ordered| == |infos|
    && (forall i :: 0 <= i < |ordered| ==> ordered[i].index == i)
    && (forall k :: 0 <= k < |infos| ==> infos[k].index < |ordered| && ordered[infos[k].index] == infos[k])
  }

  /** CreateOrderedInstructionInfo: it accepts exactly the same trees, and puts the nodes in order. */
  method CreateOrderedInstructionInfo(cells: seq<Cell<Info>>) returns (r: Option<seq<Info>>)
    requires Linked(cells) && cells != []
    ensures r.Some? <==> IndicesOk(Built(cells, map[], 0))
    ensures r.Some? ==> InOrder(r.value, Built(cells, map[], 0))
  {
    var infos := Flatten(cells);
    var positions := OrderByIndex(IndicesOf(infos));
    if positions.None? {
      return None;
    }
    r := Some(seq(|infos|, i requires 0 <= i < |infos| => infos[positions.value[i]]));
  }

  // ---------------------------------------------------------------- copying

  /** The children of node x of tree t, copied into cell x; refused when they are too many. */
  method CopyChildren(cells: seq<Cell<Info>>, x: nat, kids: seq<Tree<Info>>) returns (ok: bool, r: seq<Cell<Info>>)
    requires x < |cells| && cells[x].kids == []
    ensures ok <==> Allowed(cells[x].item.category, |kids|)
    ensures ok ==> r == Expand(cells, x, Items(kids))
  {
    r := cells;
    ExpandNothing(cells, x);
    assert Items(kids)[..0] == [];
    for i := 0 to |kids|
      invariant Allowed(cells[x].item.category, i)
      invariant r == Expand(cells, x, Items(kids)[..i])
    {
      AppendOneByOne(cells[x].item.category, i, |kids|);
      if !MayAppend(cells[x].item.category, |r[x].kids|) {
        return false, r;
      }
      AppendNext(cells, x, Items(kids), i);
      r := Append(r, x, kids[i].item);
    }
    assert Items(kids)[..|kids|] == Items(kids);
    return true, r;
  }

  predicate AllAritiesOk(ts: seq<Tree<Info>>) {
    forall i :: 0 <= i < |ts| ==> AritiesOk(ts[i])
  }

  lemma {:induction false} AritiesPop(ts: seq<Tree<Info>>)
    requires ts != []
    ensures var t, rest := ts[|ts| - 1], ts[..|ts| - 1];
      AllAritiesOk(ts) <==> Allowed(t.item.category, |t.kids|) && AllAritiesOk(rest + t.kids)
  {
    var t, rest := ts[|ts| - 1], ts[..|ts| - 1];
    if Allowed(t.item.category, |t.kids|) && AllAritiesOk(rest + t.kids) {
      assert forall i :: 0 <= i < |t.kids| ==> t.kids[i] == (rest + t.kids)[|rest| + i];
      assert forall i :: 0 <= i < |rest| ==> ts[i] == (rest + t.kids)[i];
    }
    if AllAritiesOk(ts) {
      assert AritiesOk(ts[|ts| - 1]);
    }
  }

  /** The copy constructor: the copy equals its source, whose nodes have as many children as their
      categories allow. */
  method Copy(source: Tree<Info>) returns (r: Option<seq<Cell<Info>>>)
    ensures r.Some? <==> AritiesOk(source)
    ensures r.Some? ==> Linked(r.value) && r.value != [] && Built(r.value, map[], 0) == source
  {
    var cells := [Cell(source.item, [])];
    var sources, dests := [source], [0];
    ghost var open := map[0 := source];
    Begin(source);
    while sources != []
      invariant Working(cells, open, dests, sources, source)
      invariant AllAritiesOk(sources) <==> AritiesOk(source)
      decreases WeightAll(sources)
    {
      Iterate(cells, open, dests, sources, source);
      AritiesPop(sources);
      var node, x := sources[|sources| - 1], dests[|dests| - 1];
      var ok, expanded := CopyChildren(cells, x, node.kids);
      if !ok {
        return None;
      }
      open := Reopen(open, x, |cells|);
      dests := dests[..|dests| - 1] + Allocated(|cells|, |node.kids|);
      sources := sources[..|sources| - 1] + node.kids;
      cells := expanded;
    }
    Finish(cells, open, source);
    r := Some(cells);
  }

  // ---------------------------------------------------------------- parsing

  predicate AllValid(values: seq<AnyValue>) {
    forall i :: 0 <= i < |values| ==> ValidNode(values[i])
  }

  predicate AllParse(values: seq<AnyValue>) {
    forall i :: 0 <= i < |values| ==> Parses(values[i])
  }

  /** The trees some values are read as. */
  function Decoded(values: seq<AnyValue>): (r: seq<Tree<Info>>)
    ensures |r| == |values| && forall i :: 0 <= i < |r| ==> r[i] == Decode(values[i])
  {
    seq(|values|, i requires 0 <= i < |values| => Decode(values[i]))
  }

  lemma {:induction false} ParsedNext(cells: seq<Cell<Info>>, x: nat, values: seq<AnyValue>, i: nat)
    requires x < |cells| && i < |values| && ValidNode(values[i])
    ensures var items := Items(Decoded(values));
      Expand(cells, x, items[..i + 1]) == Append(Expand(cells, x, items[..i]), x, DecodeNode(values[i]))
  {
    AppendNext(cells, x, Items(Decoded(values)), i);
  }

  /** One more child of cell x. */
  method ParseChild(cells: seq<Cell<Info>>, x: nat, value: AnyValue) returns (ok: bool, r: seq<Cell<Info>>)
    requires x < |cells|
    ensures ok <==> ValidNode(value) && MayAppend(cells[x].item.category, |cells[x].kids|)
    ensures ok ==> r == Append(cells, x, DecodeNode(value))
  {
    if !ValidNode(value) {
      return false, cells;
    }
    var child := DecodeNode(value);
    if !MayAppend(cells[x].item.category, |cells[x].kids|) {
      return false, cells;
    }
    return true, Append(cells, x, child);
  }

  /** The first i children were accepted and appended. */
  ghost predicate ParsedSoFar(cells: seq<Cell<Info>>, x: nat, values: seq<AnyValue>, i: nat, r: seq<Cell<Info>>)
    requires x < |cells| && i <= |values|
  {
    && Allowed(cells[x].item.category, i) && AllValid(values[..i])
    && r == Expand(cells, x, Items(Decoded(values))[..i])
  }

  lemma {:induction false} ParsedOneMore(cells: seq<Cell<Info>>, x: nat, values: seq<AnyValue>, i: nat,
      r: seq<Cell<Info>>)
    requires x < |cells| && i < |values| && ParsedSoFar(cells, x, values, i, r)
    ensures |r| > x && r[x].item == cells[x].item && |r[x].kids| == i
    ensures var accepted := ValidNode(values[i]) && MayAppend(cells[x].item.category, i);
      && (accepted ==> ParsedSoFar(cells, x, values, i + 1, Append(r, x, DecodeNode(values[i]))))
      && (!accepted ==> !AllValid(values) || !Allowed(cells[x].item.category, |values|))
  {
    AppendOneByOne(cells[x].item.category, i, |values|);
    ValidNext(values, i);
    if ValidNode(values[i]) {
      ParsedNext(cells, x, values, i);
    }
  }

  lemma {:induction false} ValidNext(values: seq<AnyValue>, i: nat)
    requires i < |values| && AllValid(values[..i])
    ensures ValidNode(values[i]) <==> AllValid(values[..i + 1])
    ensures !ValidNode(values[i]) ==> !AllValid(values)
  {
    assert values[..i + 1] == values[..i] + [values[i]];
    if AllValid(values[..i + 1]) {
      assert ValidNode(values[..i + 1][i]);
    }
  }

  lemma {:induction false} ParsedNothing(cells: seq<Cell<Info>>, x: nat, values: seq<AnyValue>)
    requires x < |cells| && cells[x].kids == []
    ensures ParsedSoFar(cells, x, values, 0, cells)
  {
    ExpandNothing(cells, x);
    assert Items(Decoded(values))[..0] == [];
  }

  lemma {:induction false} ParsedAll(cells: seq<Cell<Info>>, x: nat, values: seq<AnyValue>, r: seq<Cell<Info>>)
    requires x < |cells| && ParsedSoFar(cells, x, values, |values|, r)
    ensures AllValid(values) && Allowed(cells[x].item.category, |values|)
    ensures r == Expand(cells, x, Items(Decoded(values)))
  {
    var items := Items(Decoded(values));
    assert items[..|values|] == items && values[..|values|] == values;
  }

  /** The children of one value, parsed into cell x. */
  method ParseChildren(cells: seq<Cell<Info>>, x: nat, values: seq<AnyValue>) returns (ok: bool, r: seq<Cell<Info>>)
    requires x < |cells| && cells[x].kids == []
    ensures ok <==> AllValid(values) && Allowed(cells[x].item.category, |values|)
    ensures ok ==> r == Expand(cells, x, Items(Decoded(values)))
  {
    r := cells;
    ParsedNothing(cells, x, values);
    for i := 0 to |values|
      invariant ParsedSoFar(cells, x, values, i, r)
    {
      ParsedOneMore(cells, x, values, i, r);
      ok, r := ParseChild(r, x, values[i]);
      if !ok {
        return false, r;
      }
    }
    ParsedAll(cells, x, values, r);
    return true, r;
  }

  lemma {:induction false} DecodedNode(v: AnyValue)
    requires ValidNode(v)
    ensures Decode(v) == Tree(DecodeNode(v), Decoded(ChildValues(v)))
    ensures Parses(v) <==> Allowed(DecodeNode(v).category, |ChildValues(v)|) && AllParse(ChildValues(v))
  {
    assert Decode(v).kids == Decoded(ChildValues(v));
  }

  lemma {:induction false} ParsedAreValid(values: seq<AnyValue>)
    ensures AllParse(values) ==> AllValid(values)
  {
  }

  /** The values below the top of the stack and the children of the top. */
  function Below(values: seq<AnyValue>): seq<AnyValue>
    requires values != [] && AllValid(values)
  {
    values[..|values| - 1] + ChildValues(values[|values| - 1])
  }

  lemma {:induction false} DecodedBelow(values: seq<AnyValue>)
    requires values != [] && AllValid(values)
    ensures Decoded(Below(values)) == Decoded(values)[..|values| - 1] + Decoded(ChildValues(values[|values| - 1]))
  {
  }

  lemma {:induction false} ParsedBelow(values: seq<AnyValue>)
    requires values != [] && AllValid(values)
    ensures var v := values[|values| - 1];
      && (AllParse(values) <==>
        Allowed(DecodeNode(v).category, |ChildValues(v)|) && AllValid(ChildValues(v)) && AllParse(Below(values)))
      && (AllValid(ChildValues(v)) ==> AllValid(Below(values)))
  {
    var v, rest := values[|values| - 1], values[..|values| - 1];
    DecodedNode(v);
    ParsedTogether(rest, ChildValues(v));
    ParsedAreValid(ChildValues(v));
    assert values == rest + [v];
    ParsedTogether(rest, [v]);
    ParsedAlone(v);
  }

  lemma {:induction false} ParsedAlone(v: AnyValue)
    ensures AllParse([v]) <==> Parses(v)
  {
    assert [v][0] == v;
  }

  lemma {:induction false} ParsedTogether(a: seq<AnyValue>, b: seq<AnyValue>)
    ensures AllParse(a + b) <==> AllParse(a) && AllParse(b)
    ensures AllValid(a) && AllValid(b) ==> AllValid(a + b)
  {
    if AllParse(a + b) {
      assert forall i :: 0 <= i < |a| ==> a[i] == (a + b)[i];
      assert forall i :: 0 <= i < |b| ==> b[i] == (a + b)[|a| + i];
    }
  }

  /** The loop of ToInstructionInfoTree, up to the final validation. */
  method ParseTree(value: AnyValue) returns (r: Option<seq<Cell<Info>>>)
    ensures r.Some? <==> Parses(value)
    ensures r.Some? ==> Linked(r.value) && r.value != [] && Built(r.value, map[], 0) == Decode(value)
  {
    if !ValidNode(value) {
      return None;
    }
    ghost var goal := Decode(value);
    var cells := [Cell(DecodeNode(value), [])];
    var values, dests := [value], [0];
    ghost var open := map[0 := goal];
    Begin(goal);
    assert Decoded(values) == [goal];
    while values != []
      invariant AllValid(values)
      invariant Working(cells, open, dests, Decoded(values), goal)
      invariant AllParse(values) <==> Parses(value)
      decreases WeightAll(Decoded(values))
    {
      DecodedNode(values[|values| - 1]);
      DecodedBelow(values);
      ParsedBelow(values);
      Iterate(cells, open, dests, Decoded(values), goal);
      var node, x := values[|values| - 1], dests[|dests| - 1];
      var children := ChildValues(node);
      var ok, expanded := ParseChildren(cells, x, children);
      if !ok {
        return None;
      }
      open := Reopen(open, x, |cells|);
      dests := dests[..|dests| - 1] + Allocated(|cells|, |children|);
      values := values[..|values| - 1] + children;
      cells := expanded;
    }
    Finish(cells, open, goal);
    r := Some(cells);
  }

  /** ToInstructionInfoTree. */
  method ToInstructionInfoTree(value: AnyValue) returns (r: Option<seq<Cell<Info>>>)
    ensures r.Some? <==> Parses(value) && IndicesOk(Decode(value))
    ensures r.Some? ==> Linked(r.value) && r.value != [] && Built(r.value, map[], 0) == Decode(value)
  {
    r := ParseTree(value);
    if r.Some? {
      var ok := ValidateInstructionInfoTree(r.value);
      if !ok {
        r := None;
      }
    }
  }

  // ---------------------------------------------------------------- serialising

  /** The node structs of a tree, before the children are put into them. */
  function Structs(t: Tree<Info>): Tree<seq<Member>>
    decreases t, 1
  {
    Tree(EncodeNode(t.item), StructsOf(t))
  }

  function StructsOf(t: Tree<Info>): (r: seq<Tree<seq<Member>>>)
    ensures |r| == |t.kids|
    decreases t, 0
  {
    seq(|t.kids|, i requires 0 <= i < |t.kids| => Structs(t.kids[i]))
  }

  function AllStructs(ts: seq<Tree<Info>>): (r: seq<Tree<seq<Member>>>)
    ensures |r| == |ts| && forall i :: 0 <= i < |r| ==> r[i] == Structs(ts[i])
  {
    seq(|ts|, i requires 0 <= i < |ts| => Structs(ts[i]))
  }

  /** The value that a tree of node structs stands for: child i is member child_<i> of "children". */
  function Assembled(t: Tree<seq<Member>>): AnyValue
    decreases t, 1
  {
    Struct(t.item + if t.kids == [] then [] else [Member("children", Struct(AssembledKids(t)))])
  }

  function AssembledKids(t: Tree<seq<Member>>): (r: seq<Member>)
    ensures |r| == |t.kids|
    decreases t, 0
  {
    seq(|t.kids|, i requires 0 <= i < |t.kids| => Member(ChildName(i), Assembled(t.kids[i])))
  }

  lemma {:induction false} AssembledStructs(t: Tree<Info>)
    ensures Assembled(Structs(t)) == Encode(t)
    decreases t
  {
    forall i | 0 <= i < |t.kids| ensures Assembled(Structs(t).kids[i]) == Encode(t.kids[i]) {
      AssembledStructs(t.kids[i]);
    }
    assert AssembledKids(Structs(t)) == EncodeKids(t);
  }

  /** ToAnyValueNode; adding an attribute fails when its name is taken. */
  method ToAnyValueNode(info: Info) returns (r: Option<seq<Member>>)
    ensures r.Some? <==> DistinctNames(info.attributes)
    ensures r.Some? ==> r.value == EncodeNode(info)
  {
    var attributes: seq<Member> := [];
    for i := 0 to |info.attributes|
      invariant attributes == EncodeAttributes(info.attributes)[..i]
      invariant DistinctNames(info.attributes[..i])
    {
      var a := info.attributes[i];
      if exists j :: 0 <= j < |attributes| && attributes[j].name == a.name {
        return None;
      }
      assert info.attributes[..i + 1] == info.attributes[..i] + [a];
      attributes := attributes + [Member(a.name, Text(a.value))];
    }
    assert EncodeAttributes(info.attributes)[..|info.attributes|] == EncodeAttributes(info.attributes);
    assert info.attributes[..|info.attributes|] == info.attributes;
    r := Some([Member("type", Text(info.kind)),
               Member("category", Unsigned32(info.category)),
               Member("index", Unsigned32(info.index)),
               Member("attributes", Struct(attributes))]);
  }

  predicate AllDistinct(ts: seq<Tree<Info>>) {
    forall i :: 0 <= i < |ts| ==> DistinctNames(ts[i].item.attributes)
  }

  predicate AllNamesOk(ts: seq<Tree<Info>>) {
    forall i :: 0 <= i < |ts| ==> NamesOk(ts[i])
  }

  lemma {:induction false} NamesTogether(a: seq<Tree<Info>>, b: seq<Tree<Info>>)
    ensures AllNamesOk(a + b) <==> AllNamesOk(a) && AllNamesOk(b)
    ensures AllDistinct(a + b) <==> AllDistinct(a) && AllDistinct(b)
  {
    assert forall i :: 0 <= i < |a| ==> a[i] == (a + b)[i];
    assert forall i :: 0 <= i < |b| ==> b[i] == (a + b)[|a| + i];
  }

  /** Popping a tree whose own names are distinct and pushing its children. */
  lemma {:induction false} NamesPop(ts: seq<Tree<Info>>)
    requires ts != [] && AllDistinct(ts)
    ensures var t, rest := ts[|ts| - 1], ts[..|ts| - 1];
      && (AllNamesOk(ts) <==> AllNamesOk(rest + t.kids))
      && (AllDistinct(rest + t.kids) <==> AllDistinct(t.kids))
      && (AllNamesOk(rest + t.kids) ==> AllDistinct(t.kids))
      && AllStructs(rest + t.kids) == AllStructs(ts)[..|ts| - 1] + AllStructs(t.kids)
      && Structs(t) == Tree(EncodeNode(t.item), AllStructs(t.kids))
  {
    var t, rest := ts[|ts| - 1], ts[..|ts| - 1];
    NamesTogether(rest, t.kids);
    assert ts == rest + [t];
    NamesTogether(rest, [t]);
    NamesAlone(t);
    assert StructsOf(t) == AllStructs(t.kids);
  }

  lemma {:induction false} NamesAlone(t: Tree<Info>)
    ensures AllNamesOk([t]) <==> NamesOk(t)
    ensures NamesOk(t) <==> DistinctNames(t.item.attributes) && AllNamesOk(t.kids)
  {
    assert [t][0] == t;
  }

  /** The children of one tree, serialised into cell x. */
  method SerialiseChildren(cells: seq<Cell<seq<Member>>>, x: nat, kids: seq<Tree<Info>>)
    returns (ok: bool, r: seq<Cell<seq<Member>>>)
    requires x < |cells| && cells[x].kids == []
    ensures ok <==> AllDistinct(kids)
    ensures ok ==> r == Expand(cells, x, Items(AllStructs(kids)))
  {
    r := cells;
    ghost var items := Items(AllStructs(kids));
    ExpandNothing(cells, x);
    assert items[..0] == [];
    for i := 0 to |kids|
      invariant forall j :: 0 <= j < i ==> DistinctNames(kids[j].item.attributes)
      invariant r == Expand(cells, x, items[..i])
    {
      var child := ToAnyValueNode(kids[i].item);
      if child.None? {
        return false, r;
      }
      AppendNext(cells, x, items, i);
      assert items[i] == EncodeNode(kids[i].item);
      r := Append(r, x, child.value);
    }
    assert items[..|kids|] == items;
    return true, r;
  }

  /** ToAnyValueTree: fails exactly if some node has two attributes of the same name. */
  method ToAnyValueTree(source: Tree<Info>) returns (r: Option<seq<Cell<seq<Member>>>>)
    ensures r.Some? <==> NamesOk(source)
    ensures r.Some? ==> Linked(r.value) && r.value != [] && Assembled(Built(r.value, map[], 0)) == Encode(source)
  {
    var root := ToAnyValueNode(source.item);
    if root.None? {
      return None;
    }
    ghost var goal := Structs(source);
    AssembledStructs(source);
    NamesAlone(source);
    var cells := [Cell(root.value, [])];
    var sources, dests := [source], [0];
    ghost var open := map[0 := goal];
    Begin(goal);
    assert AllStructs(sources) == [goal];
    while sources != []
      invariant AllDistinct(sources)
      invariant Working(cells, open, dests, AllStructs(sources), goal)
      invariant AllNamesOk(sources) <==> NamesOk(source)
      decreases WeightAll(AllStructs(sources))
    {
      NamesPop(sources);
      Iterate(cells, open, dests, AllStructs(sources), goal);
      var node, x := sources[|sources| - 1], dests[|dests| - 1];
      var ok, expanded := SerialiseChildren(cells, x, node.kids);
      if !ok {
        return None;
      }
      open := Reopen(open, x, |cells|);
      dests := dests[..|dests| - 1] + Allocated(|cells|, |node.kids|);
      sources := sources[..|sources| - 1] + node.kids;
      cells := expanded;
    }
    Finish(cells, open, goal);
    r := Some(cells);
  }

  /** The round trip: a serialised tree is read back as the same tree, exactly if its nodes have as
      many children as their categories allow and its indices are a permutation. */
  lemma {:induction false} RoundTrip(t: Tree<Info>)
    requires NamesOk(t)
    ensures Decode(Encode(t)) == t
    ensures Parses(Encode(t)) && IndicesOk(Decode(Encode(t))) <==> AritiesOk(t) && IndicesOk(t)
  {
    DecodeOfEncode(t);
  }
}
