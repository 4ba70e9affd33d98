/** Index bookkeeping: lists and maps whose indices have to be a permutation of 0 .. n-1. */
module Indices {
  import opened Workspaces

  function Range(n: nat): (r: set<nat>)
    ensures forall i: nat :: i in r <==> i < n
  {
    if n == 0 then {} else Range(n - 1) + {n - 1}
  }

  lemma {:induction false} RangeSize(n: nat)
    ensures |Range(n)| == n
  {
    if n > 0 {
      RangeSize(n - 1);
      assert Range(n) == Range(n - 1) + {n - 1};
    }
  }

  function Image(m: map<nat, nat>): set<nat> {
    set k | k in m :: m[k]
  }

  predicate Injective(m: map<nat, nat>) {
    forall j, k :: j in m && k in m && j != k ==> m[j] != m[k]
  }

  /** The indices of m are exactly 0 .. |m|-1, one each. */
  predicate Indexes(m: map<nat, nat>) {
    Injective(m) && forall k :: k in m ==> m[k] < |m|
  }

  lemma {:induction false} ImageOfOneLess(m: map<nat, nat>, k: nat)
    requires k in m
    ensures Image(m) == Image(m - {k}) + {m[k]} && |m - {k}| == |m| - 1
  {
    var r := m - {k};
    assert m.Keys == r.Keys + {k};
    forall x | x in Image(m) ensures x in Image(r) + {m[k]} {
      var j :| j in m && m[j] == x;
      if j != k { assert j in r && r[j] == x; }
    }
    forall x | x in Image(r) + {m[k]} ensures x in Image(m) {
      if x in Image(r) {
        var j :| j in r && r[j] == x;
        assert j in m && m[j] == x;
      }
    }
  }

  /** Pigeonhole: an image is as large as its domain exactly if no two keys share a value. */
  lemma {:induction false} ImageSize(m: map<nat, nat>)
    ensures |Image(m)| <= |m| && (|Image(m)| == |m| <==> Injective(m))
    decreases |m|
  {
    if m == map[] {
      assert Image(m) == {};
    } else {
      var k :| k in m;
      ImageOfOneLess(m, k);
      var r := m - {k};
      ImageSize(r);
      InjectiveWithout(m, k);
    }
  }

  lemma {:induction false} InjectiveWithout(m: map<nat, nat>, k: nat)
    requires k in m
    ensures Injective(m) <==> Injective(m - {k}) && m[k] !in Image(m - {k})
  {
    var r := m - {k};
    if Injective(r) && m[k] !in Image(r) {
      forall i, j | i in m && j in m && i != j ensures m[i] != m[j] {
        if i == k {
          assert j in r && r[j] == m[j];
        } else if j == k {
          assert i in r && r[i] == m[i];
        } else {
          assert r[i] != r[j];
        }
      }
    }
  }

  /** Every index below the size is used exactly if the indices are a permutation. */
  lemma {:induction false} AllUsed(m: map<nat, nat>)
    requires forall k :: k in m ==> m[k] < |m|
    ensures Indexes(m) <==> forall i :: 0 <= i < |m| ==> i in Image(m)
  {
    ImageSize(m);
    RangeSize(|m|);
    assert Image(m) <= Range(|m|);
    if |Image(m)| == |m| {
      SameSizeSubset(Image(m), Range(|m|));
    }
    if forall i :: 0 <= i < |m| ==> i in Image(m) {
      assert Image(m) == Range(|m|);
    }
  }

  lemma {:induction false} SameSizeSubset(a: set<nat>, b: set<nat>)
    requires a <= b && |a| == |b|
    ensures a == b
  {
    if x :| x in b && x !in a {
      assert a <= b - {x};
      SubsetSize(a, b - {x});
    }
  }

  lemma {:induction false} SubsetSize(a: set<nat>, b: set<nat>)
    requires a <= b
    ensures |a| <= |b|
    decreases |a|
  {
    if x :| x in a {
      SubsetSize(a - {x}, b - {x});
    }
  }

  // ---------------------------------------------------------------- the reverse map

  /** r lists the keys of m by index. */
  predicate Reverses(r: seq<nat>, m: map<nat, nat>) {
    |r| == |m| && forall k :: k in m ==> m[k] < |r| && r[m[k]] == k
  }

  /** GetReverseMap: entries are visited in any order; it succeeds exactly for permutations. */
  method GetReverseMap(m: map<nat, nat>) returns (r: Option<seq<nat>>)
    ensures r.Some? <==> Indexes(m)
    ensures r.Some? ==> Reverses(r.value, m)
  {
    var result: array<Option<nat>> := new Option<nat>[|m|](_ => None);
    var rest := m.Keys;
    while rest != {}
      invariant rest <= m.Keys
      invariant forall k :: k in m && k !in rest ==> m[k] < |m|
      invariant forall i :: 0 <= i < |m| && result[i].Some? ==> result[i].value in m && m[result[i].value] == i
      invariant forall k :: k in m && k !in rest ==> result[m[k]].Some?
      decreases |rest|
    {
      var k :| k in rest;
      rest := rest - {k};
      if m[k] >= result.Length {
        return None;
      }
      result[m[k]] := Some(k);
    }
    r := AllFilled(result[..]);
    if r.Some? {
      Used(m, r.value);
    } else {
      NotUsed(m, result[..]);
    }
  }

  /** Looks for a null entry. */
  method AllFilled(result: seq<Option<nat>>) returns (r: Option<seq<nat>>)
    ensures r.None? <==> None in result
    ensures r.Some? ==> |r.value| == |result| && forall i :: 0 <= i < |result| ==> result[i] == Some(r.value[i])
  {
    var list := [];
    for i := 0 to |result|
      invariant |list| == i
      invariant forall j :: 0 <= j < i ==> result[j] == Some(list[j])
    {
      if result[i] == None {
        return None;
      }
      list := list + [result[i].value];
    }
    r := Some(list);
  }

  lemma {:induction false} NotUsed(m: map<nat, nat>, result: seq<Option<nat>>)
    requires |result| == |m| && None in result
    requires forall k :: k in m ==> m[k] < |m| && result[m[k]].Some?
    ensures !Indexes(m)
  {
    AllUsed(m);
    var i :| 0 <= i < |result| && result[i] == None;
    assert i !in Image(m);
  }

  lemma {:induction false} Used(m: map<nat, nat>, list: seq<nat>)
    requires |list| == |m| && (forall k :: k in m ==> m[k] < |m|)
    requires forall i :: 0 <= i < |list| ==> list[i] in m && m[list[i]] == i
    ensures Indexes(m) && Reverses(list, m)
  {
    AllUsed(m);
    forall i | 0 <= i < |m| ensures i in Image(m) {
      assert m[list[i]] == i;
    }
  }

  // ---------------------------------------------------------------- the instruction map

  predicate NoDuplicates(list: seq<nat>) {
    forall i, j :: 0 <= i < j < |list| ==> list[i] != list[j]
  }

  /** The positions of a list of instructions without duplicates. */
  predicate Numbers(m: map<nat, nat>, list: seq<nat>) {
    && |m| == |list|
    && (forall i :: 0 <= i < |list| ==> list[i] in m && m[list[i]] == i)
    && (forall k :: k in m ==> m[k] < |list| && list[m[k]] == k)
  }

  /** m is what numbering this list gives; a duplicate keeps its last number. */
  predicate Numbering(m: map<nat, nat>, list: seq<nat>) {
    && m.Keys == Members(list) && |m| <= |list|
    && (|m| == |list| <==> NoDuplicates(list))
    && (|m| == |list| ==> Numbers(m, list))
  }

  /** InitializeMap, on the flattened instruction tree; it refuses duplicates. */
  method InitializeMap(list: seq<nat>) returns (r: Option<map<nat, nat>>)
    ensures r.Some? <==> NoDuplicates(list)
    ensures r.Some? ==> Numbers(r.value, list)
  {
    var m: map<nat, nat> := map[];
    for i := 0 to |list|
      invariant Numbering(m, list[..i])
    {
      NumberNext(m, list, i);
      m := m[list[i] := i];
    }
    assert list[..|list|] == list;
    if |m| != |list| {
      return None;
    }
    r := Some(m);
  }

  function Members(list: seq<nat>): set<nat> {
    set x | x in list
  }

  lemma {:induction false} NumberNext(m: map<nat, nat>, list: seq<nat>, i: nat)
    requires i < |list| && Numbering(m, list[..i])
    ensures Numbering(m[list[i] := i], list[..i + 1])
  {
    MemberNext(list, i);
    var r := m[list[i] := i];
    assert r.Keys == m.Keys + {list[i]};
    assert |r| == |m| + if list[i] in m then 0 else 1;
    if |r| == i + 1 {
      NumbersLonger(m, list, i);
    }
  }

  lemma {:induction false} NumbersLonger(m: map<nat, nat>, list: seq<nat>, i: nat)
    requires i < |list| && Numbers(m, list[..i]) && list[i] !in m
    ensures Numbers(m[list[i] := i], list[..i + 1])
  {
    assert list[..i + 1] == list[..i] + [list[i]];
  }

  /** Numbering a list and reversing the map gives the list back: the map is a bijection. */
  lemma {:induction false} ReverseOfNumbers(m: map<nat, nat>, list: seq<nat>, r: seq<nat>)
    requires Numbers(m, list)
    ensures Indexes(m) && (Reverses(r, m) <==> r == list)
  {
    forall j, k | j in m && k in m && j != k ensures m[j] != m[k] {
      assert list[m[j]] == j && list[m[k]] == k;
    }
    if Reverses(r, m) {
      forall i | 0 <= i < |list| ensures r[i] == list[i] {
        assert m[list[i]] == i;
      }
    }
  }

  // ---------------------------------------------------------------- ordering nodes by index

  /** The indices are 0 .. n-1 in some order. */
  predicate Permutation(indices: seq<nat>) {
    NoDuplicates(indices) && forall i :: 0 <= i < |indices| ==> indices[i] < |indices|
  }

  function AsMap(indices: seq<nat>): (m: map<nat, nat>)
    ensures |m| == |indices|
    ensures forall k :: k in m <==> 0 <= k < |indices|
    ensures forall k :: k in m ==> m[k] == indices[k]
  {
    if indices == [] then map[] else AsMap(indices[..|indices| - 1])[|indices| - 1 := indices[|indices| - 1]]
  }

  lemma {:induction false} PermutationIndexes(indices: seq<nat>)
    ensures Permutation(indices) <==> Indexes(AsMap(indices))
  {
    var m := AsMap(indices);
    if Indexes(m) {
      forall i, j | 0 <= i < j < |indices| ensures indices[i] != indices[j] {
        assert i in m && j in m && m[i] != m[j];
      }
      forall i | 0 <= i < |indices| ensures indices[i] < |indices| {
        assert i in m;
      }
    }
  }

  /** The loops of CreateOrderedInstructionInfo: the positions of the flattened nodes, ordered by
      index. They succeed exactly if the indices are a permutation. */
  method OrderByIndex(indices: seq<nat>) returns (r: Option<seq<nat>>)
    ensures r.Some? <==> Permutation(indices)
    ensures r.Some? ==> |r.value| == |indices| && forall k :: 0 <= k < |indices| ==> r.value[indices[k]] == k
    ensures r.Some? ==> forall i :: 0 <= i < |r.value| ==> r.value[i] < |indices| && indices[r.value[i]] == i
  {
    var ok, placed := PlaceAll(indices);
    if !ok {
      return None;
    }
    r := AllFilled(placed);
    if r.Some? {
      FilledPermutation(indices, r.value);
    } else {
      UnfilledPermutation(indices, placed);
    }
  }

  lemma {:induction false} FilledPermutation(indices: seq<nat>, list: seq<nat>)
    requires |list| == |indices| && forall i :: 0 <= i < |indices| ==> indices[i] < |indices|
    requires forall i :: 0 <= i < |list| ==> list[i] < |indices| && indices[list[i]] == i
    ensures Permutation(indices) && forall k :: 0 <= k < |indices| ==> list[indices[k]] == k
  {
    var m := AsMap(indices);
    PermutationIndexes(indices);
    Used(m, list);
    forall k | 0 <= k < |indices| ensures list[indices[k]] == k {
      assert k in m;
    }
  }

  lemma {:induction false} UnfilledPermutation(indices: seq<nat>, placed: seq<Option<nat>>)
    requires |placed| == |indices| && None in placed
    requires forall k :: 0 <= k < |indices| ==> indices[k] < |indices| && placed[indices[k]].Some?
    ensures !Permutation(indices)
  {
    PermutationIndexes(indices);
    NotUsed(AsMap(indices), placed);
  }

  /** Writes every position to the entry its index stands for, unless an index is out of range. */
  method PlaceAll(indices: seq<nat>) returns (ok: bool, placed: seq<Option<nat>>)
    ensures ok <==> forall k :: 0 <= k < |indices| ==> indices[k] < |indices|
    ensures ok ==> |placed| == |indices| && (forall k :: 0 <= k < |indices| ==> placed[indices[k]].Some?)
    ensures ok ==> forall i :: 0 <= i < |placed| && placed[i].Some? ==>
      placed[i].value < |indices| && indices[placed[i].value] == i
  {
    var result: array<Option<nat>> := new Option<nat>[|indices|](_ => None);
    for k := 0 to |indices|
      invariant forall j :: 0 <= j < k ==> indices[j] < |indices| && result[indices[j]].Some?
      invariant forall i :: 0 <= i < |indices| && result[i].Some? ==>
        result[i].value < |indices| && indices[result[i].value] == i
    {
      if indices[k] >= result.Length {
        return false, [];
      }
      result[indices[k]] := Some(k);
    }
    return true, result[..];
  }

  /** The loop of ValidateInstructionInfoTree: it accepts exactly the same indices. */
  method ValidateIndices(indices: seq<nat>) returns (ok: bool)
    ensures ok <==> Permutation(indices)
  {
    var seen: set<nat> := {};
    for i := 0 to |indices|
      invariant seen == Members(indices[..i]) && |seen| <= i
      invariant |seen| == i <==> NoDuplicates(indices[..i])
      invariant forall j :: 0 <= j < i ==> indices[j] < |indices|
    {
      if indices[i] >= |indices| {
        return false;
      }
      MemberNext(indices, i);
      seen := seen + {indices[i]};
    }
    assert indices[..|indices|] == indices;
    return |seen| == |indices|;
  }

  lemma {:induction false} MemberNext(list: seq<nat>, i: nat)
    requires i < |list|
    ensures Members(list[..i + 1]) == Members(list[..i]) + {list[i]}
    ensures NoDuplicates(list[..i + 1]) <==> NoDuplicates(list[..i]) && list[i] !in Members(list[..i])
  {
    var prefix, longer := list[..i], list[..i + 1];
    assert longer == prefix + [list[i]];
    if NoDuplicates(longer) {
      assert forall j :: 0 <= j < i ==> longer[j] != longer[i];
      assert forall j, k :: 0 <= j < k < i ==> prefix[j] == longer[j] && prefix[k] == longer[k];
    }
  }
}
