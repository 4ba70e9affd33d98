/** How a ParallelSequence decides: its thresholds, the vote over its children, and when the
    verdict does not depend on the schedule. */
module Voting {
  import opened ExecutionStatus
  import opened Workspaces

  const UINT32: nat := 0x1_0000_0000

  type Uint32 = n: nat | n < UINT32

  datatype Thresholds = Thresholds(success: Uint32, failure: Uint32)

  function Wrap(n: int): Uint32 {
    n % UINT32
  }

  function Min(m: nat, n: nat): nat {
    if n < m then n else m
  }

  /** InitThresholds for n children; both attributes are optional literals. */
  function ThresholdsOf(n: Uint32, successAttr: Option<Uint32>, failureAttr: Option<Uint32>): Thresholds {
    var s := Min(n, if successAttr.Some? then successAttr.value else n);
    var f := Min(n, if failureAttr.Some? then failureAttr.value else 1);
    if successAttr.Some? then Thresholds(s, Min(f, Wrap(Wrap(n - s) + 1)))
    else if failureAttr.Some? then Thresholds(Wrap(Wrap(n + 1) - f), f)
    else Thresholds(s, f)
  }

  /** The same thresholds in unbounded arithmetic. */
  function IdealThresholds(n: nat, successAttr: Option<Uint32>, failureAttr: Option<Uint32>): (nat, nat) {
    var s := Min(n, if successAttr.Some? then successAttr.value else n);
    var f := Min(n, if failureAttr.Some? then failureAttr.value else 1);
    if successAttr.Some? then (s, Min(f, n - s + 1))
    else if failureAttr.Some? then (n + 1 - f, f)
    else (s, f)
  }

  /** The only inputs for which 32-bit arithmetic changes a threshold. */
  predicate WrapsAround(n: Uint32, successAttr: Option<Uint32>, failureAttr: Option<Uint32>) {
    n + 1 == UINT32
    && if successAttr.Some? then successAttr.value == 0 && failureAttr != Some(0)
       else failureAttr == Some(0)
  }

  method InitThresholds(n: Uint32, successAttr: Option<Uint32>, failureAttr: Option<Uint32>)
    returns (successTh: Uint32, failureTh: Uint32)
    ensures Thresholds(successTh, failureTh) == ThresholdsOf(n, successAttr, failureAttr)
  {
    successTh := n;
    if successAttr.Some? {
      successTh := successAttr.value;
    }
    successTh := Min(n, successTh);
    failureTh := 1;
    if failureAttr.Some? {
      failureTh := failureAttr.value;
    }
    failureTh := Min(n, failureTh);
    if successAttr.Some? {
      failureTh := Min(failureTh, Wrap(Wrap(n - successTh) + 1));
    } else if failureAttr.Some? {
      successTh := Wrap(Wrap(n + 1) - failureTh);
    }
  }

  lemma {:induction false} WrapFits(n: int)
    requires 0 <= n < UINT32
    ensures Wrap(n) == n
  {
  }

  lemma {:induction false} WrapBelow(f: int)
    requires 0 < f < UINT32
    ensures Wrap(-f) == UINT32 - f
  {
  }

  /** The thresholds are the intended ones, except for 2^32 - 1 children and a zero threshold. */
  lemma {:induction false} ThresholdsAreIdeal(n: Uint32, successAttr: Option<Uint32>, failureAttr: Option<Uint32>)
    ensures var t := ThresholdsOf(n, successAttr, failureAttr);
            (t.success, t.failure) == IdealThresholds(n, successAttr, failureAttr)
            <==> !WrapsAround(n, successAttr, failureAttr)
  {
    var s := Min(n, if successAttr.Some? then successAttr.value else n);
    var f := Min(n, if failureAttr.Some? then failureAttr.value else 1);
    WrapFits(n - s);
    if n + 1 < UINT32 {
      WrapFits(n + 1);
      WrapFits(n + 1 - f);
      WrapFits(n - s + 1);
    } else {
      assert Wrap(n + 1) == 0;
      if s > 0 { WrapFits(n - s + 1); }
      if f > 0 { WrapBelow(f); }
    }
  }

  /** Together the thresholds never exceed n + 1, and they meet it unless a success threshold is given. */
  lemma {:induction false} ThresholdSum(n: Uint32, successAttr: Option<Uint32>, failureAttr: Option<Uint32>)
    requires n >= 1
    ensures var t := ThresholdsOf(n, successAttr, failureAttr);
            && t.success + t.failure <= n + 1
            && (successAttr.None? && !WrapsAround(n, successAttr, failureAttr) ==> t.success + t.failure == n + 1)
  {
    ThresholdsAreIdeal(n, successAttr, failureAttr);
    if WrapsAround(n, successAttr, failureAttr) {
      assert Wrap(n + 1) == 0;
      WrapFits(n);
    }
  }

  /** What the attributes ask for. A success threshold counts up to the number of children. A failure
      threshold is as large as it can be up to the attribute, the number of children and what the success
      threshold leaves; by default one failure is enough. Without a success threshold all children that
      may not fail have to succeed. */
  lemma {:induction false} ThresholdsMean(n: Uint32, successAttr: Option<Uint32>, failureAttr: Option<Uint32>)
    requires n >= 1 && !WrapsAround(n, successAttr, failureAttr)
    ensures var t := ThresholdsOf(n, successAttr, failureAttr);
      && (successAttr.Some? ==> t.success == if successAttr.value <= n then successAttr.value else n)
      && (successAttr.Some? && failureAttr.Some? ==>
            && t.failure <= failureAttr.value && t.failure <= n && t.success + t.failure <= n + 1
            && (t.failure == failureAttr.value || t.failure == n || t.success + t.failure == n + 1))
      && (successAttr.None? && failureAttr.Some? ==>
            t.failure == (if failureAttr.value <= n then failureAttr.value else n) && t.success == n + 1 - t.failure)
      && (failureAttr.None? ==> t.failure == 1)
      && (successAttr.None? && failureAttr.None? ==> t.success == n)
  {
    ThresholdsAreIdeal(n, successAttr, failureAttr);
  }

  // ---------------------------------------------------------------- the vote

  function Count(s: Status, ss: seq<Status>): nat {
    if ss == [] then 0 else (if ss[0] == s then 1 else 0) + Count(s, ss[1..])
  }

  /** CalculateCompoundStatus of a ParallelSequence. */
  function Vote(t: Thresholds, ss: seq<Status>): Status {
    if Count(Success, ss) >= t.success then Success
    else if Count(Failure, ss) >= t.failure then Failure
    else if NotFinished in ss then NotFinished
    else Running
  }

  lemma {:induction false} CountAppend(s: Status, ss: seq<Status>, last: Status)
    ensures Count(s, ss + [last]) == Count(s, ss) + if last == s then 1 else 0
  {
    if ss == [] {
      assert ss + [last] == [last];
    } else {
      assert (ss + [last])[1..] == ss[1..] + [last];
      CountAppend(s, ss[1..], last);
    }
  }

  method CalculateCompoundStatus(t: Thresholds, wrappers: seq<Status>) returns (r: Status)
    ensures r == Vote(t, wrappers)
  {
    var successes, failures := 0, 0;
    var notFinishedPresent := false;
    for i := 0 to |wrappers|
      invariant successes == Count(Success, wrappers[..i])
      invariant failures == Count(Failure, wrappers[..i])
      invariant notFinishedPresent <==> NotFinished in wrappers[..i]
    {
      assert wrappers[..i + 1] == wrappers[..i] + [wrappers[i]];
      CountAppend(Success, wrappers[..i], wrappers[i]);
      CountAppend(Failure, wrappers[..i], wrappers[i]);
      if wrappers[i] == Success {
        successes := successes + 1;
      }
      if wrappers[i] == Failure {
        failures := failures + 1;
      }
      if wrappers[i] == NotFinished {
        notFinishedPresent := true;
      }
    }
    assert wrappers[..|wrappers|] == wrappers;
    if successes >= t.success {
      return Success;
    }
    if failures >= t.failure {
      return Failure;
    }
    return if notFinishedPresent then NotFinished else Running;
  }

  /** The children that show a status. */
  function Showing(s: Status, ss: seq<Status>): set<nat> {
    set i | 0 <= i < |ss| && ss[i] == s
  }

  lemma {:induction false} CountIsNumber(s: Status, ss: seq<Status>)
    ensures Count(s, ss) == |Showing(s, ss)|
  {
    if ss != [] {
      var last := |ss| - 1;
      CountIsNumber(s, ss[..last]);
      CountAppend(s, ss[..last], ss[last]);
      assert ss[..last] + [ss[last]] == ss;
      ShowingNext(s, ss);
    }
  }

  lemma {:induction false} ShowingNext(s: Status, ss: seq<Status>)
    requires ss != []
    ensures var last := |ss| - 1;
            && last !in Showing(s, ss[..last])
            && Showing(s, ss) == Showing(s, ss[..last]) + if ss[last] == s then {last} else {}
  {
  }

  /** Enough successes decide first, also when there are enough failures; then enough failures; without
      either the vote is NotFinished as long as some child is. */
  lemma {:induction false} VoteDecides(t: Thresholds, ss: seq<Status>)
    ensures Vote(t, ss) == Success <==> |Showing(Success, ss)| >= t.success
    ensures Vote(t, ss) == Failure
      <==> |Showing(Success, ss)| < t.success && |Showing(Failure, ss)| >= t.failure
    ensures Vote(t, ss) == NotFinished
      <==> !IsFinished(Vote(t, ss)) && exists i :: 0 <= i < |ss| && ss[i] == NotFinished
    ensures Vote(t, ss) != NotStarted
  {
    CountIsNumber(Success, ss);
    CountIsNumber(Failure, ss);
  }

  predicate AllFinished(ss: seq<Status>) {
    forall i :: 0 <= i < |ss| ==> IsFinished(ss[i])
  }

  lemma {:induction false} CountFinished(ss: seq<Status>)
    ensures Count(Success, ss) + Count(Failure, ss) <= |ss|
    ensures AllFinished(ss) ==> Count(Success, ss) + Count(Failure, ss) == |ss|
  {
    if ss != [] {
      CountFinished(ss[1..]);
    }
  }

  /** Once all children are finished there is a verdict. */
  lemma {:induction false} VerdictWhenAllFinished(t: Thresholds, ss: seq<Status>)
    requires t.success + t.failure <= |ss| + 1 && AllFinished(ss)
    ensures IsFinished(Vote(t, ss))
  {
    CountFinished(ss);
  }

  /** As soon as too few children are left to reach the success threshold, the vote is a failure. */
  lemma {:induction false} FailureWhenUnreachable(t: Thresholds, ss: seq<Status>)
    requires t.success + t.failure <= |ss| + 1
    requires |ss| - Count(Failure, ss) < t.success
    ensures Vote(t, ss) == Failure
  {
    CountFinished(ss);
  }

  // ---------------------------------------------------------------- schedules

  /** The outcome every child will have. */
  type Outcomes = o: seq<Status> | forall i :: 0 <= i < |o| ==> IsFinished(o[i])

  /** The statuses of the children at one vote: a finished one shows its outcome. */
  predicate Shows(view: seq<Status>, o: Outcomes) {
    |view| == |o| && forall i :: 0 <= i < |view| && IsFinished(view[i]) ==> view[i] == o[i]
  }

  /** The statuses at the successive votes; none is finished at the first. */
  predicate Schedule(views: seq<seq<Status>>, o: Outcomes) {
    && (forall k :: 0 <= k < |views| ==> Shows(views[k], o))
    && (views != [] ==> forall i :: 0 <= i < |o| ==> !IsFinished(views[0][i]))
  }

  /** The first verdict. */
  function Decision(t: Thresholds, views: seq<seq<Status>>): Option<Status> {
    if views == [] then None
    else if IsFinished(Vote(t, views[0])) then Some(Vote(t, views[0]))
    else Decision(t, views[1..])
  }

  function Expected(t: Thresholds, o: Outcomes): Status {
    if Count(Success, o) >= t.success then Success else Failure
  }

  lemma {:induction false} ViewCounts(s: Status, view: seq<Status>, o: seq<Status>)
    requires IsFinished(s) && |view| == |o|
    requires forall i :: 0 <= i < |view| && IsFinished(view[i]) ==> view[i] == o[i]
    ensures Count(s, view) <= Count(s, o)
  {
    if view != [] {
      ViewCounts(s, view[1..], o[1..]);
    }
  }

  lemma {:induction false} VoteIsExpected(t: Thresholds, view: seq<Status>, o: Outcomes)
    requires Shows(view, o) && IsFinished(Vote(t, view)) && t.success + t.failure == |o| + 1
    ensures Vote(t, view) == Expected(t, o)
  {
    ViewCounts(Success, view, o);
    ViewCounts(Failure, view, o);
    CountFinished(o);
  }

  lemma {:induction false} NothingCounted(s: Status, view: seq<Status>)
    requires IsFinished(s) && forall i :: 0 <= i < |view| ==> !IsFinished(view[i])
    ensures Count(s, view) == 0
  {
    if view != [] {
      NothingCounted(s, view[1..]);
    }
  }

  lemma {:induction false} DecisionIsExpected(t: Thresholds, views: seq<seq<Status>>, o: Outcomes)
    requires t.success + t.failure == |o| + 1
    requires forall k :: 0 <= k < |views| ==> Shows(views[k], o)
    ensures Decision(t, views).Some? ==> Decision(t, views) == Some(Expected(t, o))
  {
    if views != [] {
      if IsFinished(Vote(t, views[0])) {
        VoteIsExpected(t, views[0], o);
      } else {
        DecisionIsExpected(t, views[1..], o);
      }
    }
  }

  /** When the verdict cannot depend on the schedule. */
  predicate ScheduleFree(t: Thresholds, n: nat) {
    t.success == 0 || t.failure == 0 || t.success + t.failure == n + 1
  }

  /** The decision such thresholds lead to. */
  function FreeDecision(t: Thresholds, o: Outcomes): Status {
    if t.failure == 0 && t.success > 0 then Failure else Expected(t, o)
  }

  /** With such thresholds every schedule of the same outcomes that reaches a verdict reaches this one. */
  lemma {:induction false} FreeVote(t: Thresholds, o: Outcomes, views: seq<seq<Status>>)
    requires ScheduleFree(t, |o|) && Schedule(views, o) && Decision(t, views).Some?
    ensures Decision(t, views) == Some(FreeDecision(t, o))
  {
    if t.success + t.failure == |o| + 1 {
      DecisionIsExpected(t, views, o);
      CountFinished(o);
    } else {
      NothingCounted(Success, views[0]);
    }
  }

  /** Thresholds for which the schedule matters can be asked for by attributes. */
  lemma {:induction false} ThresholdsAreAttributes(t: Thresholds, n: Uint32)
    requires t.success + t.failure <= n + 1 && !ScheduleFree(t, n)
    ensures ThresholdsOf(n, Some(t.success), Some(t.failure)) == t
  {
    WrapFits(n - t.success);
    WrapFits(n - t.success + 1);
  }

  /** Outcomes that begin with s successes and go on with failures. */
  function Split(n: nat, s: nat): (o: Outcomes) {
    seq(n, i => if i < s then Success else Failure)
  }

  function Only(keep: Status, o: Outcomes): seq<Status> {
    seq(|o|, i requires 0 <= i < |o| => if o[i] == keep then keep else Running)
  }

  lemma {:induction false} CountOnly(s: Status, o: Outcomes, from: nat)
    requires IsFinished(s) && from <= |o|
    ensures Count(s, Only(s, o)[from..]) == Count(s, o[from..])
    ensures Count(if s == Success then Failure else Success, Only(s, o)[from..]) == 0
    decreases |o| - from
  {
    if from < |o| {
      CountOnly(s, o, from + 1);
      assert Only(s, o)[from..][1..] == Only(s, o)[from + 1..] && o[from..][1..] == o[from + 1..];
    }
  }

  lemma {:induction false} CountSplit(n: nat, s: nat, from: nat)
    requires s <= n && from <= n
    ensures Count(Success, Split(n, s)[from..]) == if from < s then s - from else 0
    ensures Count(Failure, Split(n, s)[from..]) == if from < s then n - s else n - from
    decreases n - from
  {
    if from < n {
      CountSplit(n, s, from + 1);
      assert Split(n, s)[from..][1..] == Split(n, s)[from + 1..];
    }
  }

  /** One vote that sees only the successes, and one that sees only the failures. */
  lemma {:induction false} OnlyVotes(t: Thresholds, n: nat)
    requires t.success + t.failure <= n && t.success > 0 && t.failure > 0
    ensures var o := Split(n, t.success);
            Vote(t, Only(Success, o)) == Success && Vote(t, Only(Failure, o)) == Failure
  {
    var o := Split(n, t.success);
    CountOnly(Success, o, 0);
    CountOnly(Failure, o, 0);
    CountSplit(n, t.success, 0);
    assert o[0..] == o && Only(Success, o)[0..] == Only(Success, o) && Only(Failure, o)[0..] == Only(Failure, o);
  }
}
