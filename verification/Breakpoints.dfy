/** The list of breakpoints and the operations on it. */
module Breakpoints {
  import opened Workspaces

  datatype BreakpointStatus = Set | Released

  datatype Breakpoint = Breakpoint(instruction: nat, status: BreakpointStatus)

  /** Breakpoints are kept in the order in which they were set, one per instruction. */
  predicate OnePerInstruction(bps: seq<Breakpoint>) {
    forall i, j :: 0 <= i < j < |bps| ==> bps[i].instruction != bps[j].instruction
  }

  predicate Has(bps: seq<Breakpoint>, instruction: nat) {
    exists i :: 0 <= i < |bps| && bps[i].instruction == instruction
  }

  /** A breakpoint that stops the next execution of the instruction. */
  predicate Stops(bps: seq<Breakpoint>, instruction: nat) {
    exists i :: 0 <= i < |bps| && bps[i] == Breakpoint(instruction, Set)
  }

  function Without(bps: seq<Breakpoint>, instruction: nat): seq<Breakpoint> {
    if bps == [] then []
    else if bps[0].instruction == instruction then bps[1..]
    else [bps[0]] + Without(bps[1..], instruction)
  }

  function Release(b: Breakpoint, next: seq<nat>): Breakpoint {
    if b.instruction in next then b.(status := Released) else b
  }

  /** The list after a hit test: everything listed in next is released. */
  function ReleaseAll(bps: seq<Breakpoint>, next: seq<nat>): seq<Breakpoint> {
    seq(|bps|, i requires 0 <= i < |bps| => Release(bps[i], next))
  }

  /** The instructions a hit test stops at, in the order their breakpoints were set. */
  function Hits(bps: seq<Breakpoint>, next: seq<nat>): seq<nat> {
    if bps == [] then []
    else
      (if bps[0].instruction in next && bps[0].status == Set then [bps[0].instruction] else [])
      + Hits(bps[1..], next)
  }

  function Rearm(bps: seq<Breakpoint>): seq<Breakpoint> {
    seq(|bps|, i requires 0 <= i < |bps| => bps[i].(status := Set))
  }

  lemma {:induction false} HitsAppend(bps: seq<Breakpoint>, more: seq<Breakpoint>, next: seq<nat>)
    ensures Hits(bps + more, next) == Hits(bps, next) + Hits(more, next)
  {
    if bps == [] {
      assert bps + more == more;
    } else {
      assert (bps + more)[1..] == bps[1..] + more;
      HitsAppend(bps[1..], more, next);
      var first := if bps[0].instruction in next && bps[0].status == Set then [bps[0].instruction] else [];
      assert first + (Hits(bps[1..], next) + Hits(more, next)) == first + Hits(bps[1..], next) + Hits(more, next);
    }
  }

  /** A hit is exactly an armed breakpoint on a listed instruction. */
  lemma {:induction false} HitsAreStops(bps: seq<Breakpoint>, next: seq<nat>, x: nat)
    ensures x in Hits(bps, next) <==> x in next && Stops(bps, x)
  {
    if bps != [] {
      HitsAreStops(bps[1..], next, x);
      if Stops(bps[1..], x) {
        var i :| 0 <= i < |bps[1..]| && bps[1..][i] == Breakpoint(x, Set);
        assert bps[i + 1] == Breakpoint(x, Set);
      }
      if Stops(bps, x) {
        var i :| 0 <= i < |bps| && bps[i] == Breakpoint(x, Set);
        assert i > 0 ==> bps[1..][i - 1] == Breakpoint(x, Set);
      }
    }
  }

  /** A second test of the same instructions never stops. */
  lemma {:induction false} ReleasedDoNotStop(bps: seq<Breakpoint>, next: seq<nat>)
    ensures Hits(ReleaseAll(bps, next), next) == []
  {
    if Hits(ReleaseAll(bps, next), next) != [] {
      HitsAreStops(ReleaseAll(bps, next), next, Hits(ReleaseAll(bps, next), next)[0]);
    }
  }

  lemma {:induction false} WithoutHas(bps: seq<Breakpoint>, instruction: nat, x: nat)
    requires OnePerInstruction(bps)
    ensures OnePerInstruction(Without(bps, instruction))
    ensures Has(Without(bps, instruction), x) <==> Has(bps, x) && x != instruction
  {
    if bps != [] {
      WithoutHas(bps[1..], instruction, x);
      var rest := Without(bps[1..], instruction);
      assert Has(bps, x) <==> bps[0].instruction == x || Has(bps[1..], x) by { HasCons(bps, x); }
      if bps[0].instruction == instruction {
        forall i | 0 <= i < |bps[1..]| ensures bps[1..][i].instruction != instruction {
          assert bps[0].instruction != bps[i + 1].instruction;
        }
      } else {
        HasCons([bps[0]] + rest, x);
        assert ([bps[0]] + rest)[1..] == rest;
        forall i | 0 <= i < |rest| ensures rest[i].instruction != bps[0].instruction {
          assert Has(rest, rest[i].instruction);
          WithoutHas(bps[1..], instruction, rest[i].instruction);
          var j :| 0 <= j < |bps[1..]| && bps[1..][j].instruction == rest[i].instruction;
          assert bps[0].instruction != bps[j + 1].instruction;
        }
      }
    }
  }

  lemma {:induction false} HasCons(bps: seq<Breakpoint>, x: nat)
    requires bps != []
    ensures Has(bps, x) <==> bps[0].instruction == x || Has(bps[1..], x)
  {
    if Has(bps[1..], x) {
      var i :| 0 <= i < |bps[1..]| && bps[1..][i].instruction == x;
      assert bps[i + 1].instruction == x;
    }
    if Has(bps, x) {
      var i :| 0 <= i < |bps| && bps[i].instruction == x;
      assert i > 0 ==> bps[1..][i - 1].instruction == x;
    }
  }

  class BreakpointManager {
    const instructionList: set<nat>
    var breakpoints: seq<Breakpoint>

    ghost predicate Valid()
      reads this
    {
      OnePerInstruction(breakpoints) && forall i :: 0 <= i < |breakpoints| ==>
        breakpoints[i].instruction in instructionList
    }

    constructor (instructions: set<nat>)
      ensures Valid() && breakpoints == [] && instructionList == instructions
    {
      instructionList := instructions;
      breakpoints := [];
    }

    /** Fails for unknown instructions; otherwise tells whether the breakpoint is new. */
    method SetBreakpoint(instruction: nat) returns (r: Option<bool>)
      requires Valid()
      modifies this
      ensures Valid()
      ensures r.None? <==> instruction !in instructionList
      ensures r.Some? ==> (r.value <==> !old(Has(breakpoints, instruction)))
      ensures breakpoints ==
              if r == Some(true) then old(breakpoints) + [Breakpoint(instruction, Set)] else old(breakpoints)
    {
      if instruction !in instructionList {
        return None;
      }
      var i := Find(instruction);
      if i == |breakpoints| {
        breakpoints := breakpoints + [Breakpoint(instruction, Set)];
        return Some(true);
      }
      return Some(false);
    }

    /** std::find_if over the list. */
    method Find(instruction: nat) returns (i: nat)
      ensures i <= |breakpoints|
      ensures forall j :: 0 <= j < i ==> breakpoints[j].instruction != instruction
      ensures i < |breakpoints| ==> breakpoints[i].instruction == instruction
    {
      i := 0;
      while i < |breakpoints| && breakpoints[i].instruction != instruction
        invariant i <= |breakpoints|
        invariant forall j :: 0 <= j < i ==> breakpoints[j].instruction != instruction
      {
        i := i + 1;
      }
    }

    method RemoveBreakpoint(instruction: nat) returns (removed: bool)
      requires Valid()
      modifies this
      ensures Valid()
      ensures removed <==> old(Has(breakpoints, instruction))
      ensures breakpoints == Without(old(breakpoints), instruction)
    {
      var i := Find(instruction);
      WithoutAt(breakpoints, instruction, i);
      if i == |breakpoints| {
        return false;
      }
      breakpoints := breakpoints[..i] + breakpoints[i + 1..];
      return true;
    }

    method HandleBreakpoints(next: seq<nat>) returns (result: seq<nat>)
      requires Valid()
      modifies this
      ensures Valid()
      ensures result == Hits(old(breakpoints), next)
      ensures breakpoints == ReleaseAll(old(breakpoints), next)
    {
      result := [];
      ghost var before := breakpoints;
      for i := 0 to |breakpoints|
        invariant |breakpoints| == |before|
        invariant result == Hits(before[..i], next)
        invariant forall j :: 0 <= j < i ==> breakpoints[j] == Release(before[j], next)
        invariant forall j :: i <= j < |before| ==> breakpoints[j] == before[j]
      {
        assert before[..i + 1] == before[..i] + [before[i]];
        HitsAppend(before[..i], [before[i]], next);
        var breakpoint := breakpoints[i];
        if breakpoint.instruction in next && breakpoint.status == Set {
          result := result + [breakpoint.instruction];
          breakpoints := breakpoints[i := breakpoint.(status := Released)];
        }
      }
      assert before[..|before|] == before;
    }

    method ResetBreakpoints()
      requires Valid()
      modifies this
      ensures Valid() && breakpoints == Rearm(old(breakpoints))
    {
      ghost var before := breakpoints;
      for i := 0 to |breakpoints|
        invariant |breakpoints| == |before|
        invariant forall j :: 0 <= j < i ==> breakpoints[j] == before[j].(status := Set)
        invariant forall j :: i <= j < |before| ==> breakpoints[j] == before[j]
      {
        if breakpoints[i].status == Released {
          breakpoints := breakpoints[i := breakpoints[i].(status := Set)];
        }
      }
    }
  }

  lemma {:induction false} WithoutTail(bps: seq<Breakpoint>, instruction: nat)
    requires bps != [] && bps[0].instruction != instruction
    ensures Without(bps, instruction) == [bps[0]] + Without(bps[1..], instruction)
  {
  }

  lemma {:induction false} CutLater(bps: seq<Breakpoint>, i: nat)
    requires 0 < i <= |bps|
    ensures i < |bps| ==> [bps[0]] + (bps[1..][..i - 1] + bps[1..][i..]) == bps[..i] + bps[i + 1..]
    ensures [bps[0]] + bps[1..] == bps
  {
  }

  lemma {:induction false} WithoutAt(bps: seq<Breakpoint>, instruction: nat, i: nat)
    requires i <= |bps| && forall j :: 0 <= j < i ==> bps[j].instruction != instruction
    requires i < |bps| ==> bps[i].instruction == instruction
    ensures Without(bps, instruction) == if i < |bps| then bps[..i] + bps[i + 1..] else bps
  {
    if i > 0 {
      WithoutAt(bps[1..], instruction, i - 1);
      WithoutTail(bps, instruction);
      CutLater(bps, i);
    }
  }
}
