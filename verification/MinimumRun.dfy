/** The 0/1 constraints that keep a controllable load on for its minimum run time. */
module MinimumRun {

  predicate Binary(s: seq<int>) {
    forall i :: 0 <= i < |s| ==> s[i] == 0 || s[i] == 1
  }

  function Min(a: int, b: int): int {
    if a < b then a else b
  }

  /** The constraints tying the start variable of one step to the on variables. */
  predicate EdgeConstraints(on: seq<int>, start: seq<int>, step: nat)
    requires step < |on| == |start|
  {
    if step == 0 then start[0] >= on[0] && start[0] <= on[0]
    else && start[step] >= on[step] - on[step - 1]
         && start[step] <= 1 - on[step - 1]
         && start[step] <= on[step]
  }

  predicate HoldConstraints(on: seq<int>, start: seq<int>, minimumOnSteps: nat, step: nat)
    requires step < |on| == |start|
  {
    if step + minimumOnSteps > |on| then start[step] == 0
    else forall hold :: step <= hold < Min(|on|, step + minimumOnSteps) ==> on[hold] >= start[step]
  }

  /** `on` and `start` satisfy every constraint of the load. */
  predicate Satisfies(on: seq<int>, start: seq<int>, minimumOnSteps: nat) {
    && |start| == |on| && Binary(on) && Binary(start)
    && forall step :: 0 <= step < |on| ==>
         EdgeConstraints(on, start, step) && HoldConstraints(on, start, minimumOnSteps, step)
  }

  /** One where the load goes from off (or the horizon start) to on, zero elsewhere. */
  function RisingEdges(on: seq<int>): (edges: seq<int>)
    ensures |edges| == |on|
    ensures forall i :: 0 <= i < |on| ==> edges[i] == if on[i] == 1 && (i == 0 || on[i - 1] == 0) then 1 else 0
  {
    seq(|on|, i requires 0 <= i < |on| => if on[i] == 1 && (i == 0 || on[i - 1] == 0) then 1 else 0)
  }

  /** The steps from `first` up to but excluding `end` are one maximal run of on-steps. */
  predicate MaximalRun(on: seq<int>, first: nat, end: nat) {
    && first < end <= |on|
    && (forall i :: first <= i < end ==> on[i] == 1)
    && (first == 0 || on[first - 1] == 0)
    && (end == |on| || on[end] == 0)
  }

  ghost predicate RunsLastAtLeast(on: seq<int>, minimumOnSteps: nat) {
    forall first: nat, end: nat :: MaximalRun(on, first, end) ==> end - first >= minimumOnSteps
  }

  lemma StartIsRisingEdge(on: seq<int>, start: seq<int>, minimumOnSteps: nat)
    requires Satisfies(on, start, minimumOnSteps)
    ensures start == RisingEdges(on)
  {
    forall i | 0 <= i < |on| ensures start[i] == RisingEdges(on)[i] {
      assert EdgeConstraints(on, start, i);
    }
  }

  lemma RunsAreLong(on: seq<int>, start: seq<int>, minimumOnSteps: nat)
    requires Satisfies(on, start, minimumOnSteps)
    ensures RunsLastAtLeast(on, minimumOnSteps)
  {
    StartIsRisingEdge(on, start, minimumOnSteps);
    forall first: nat, end: nat | MaximalRun(on, first, end) ensures end - first >= minimumOnSteps {
      assert start[first] == 1;
      assert HoldConstraints(on, start, minimumOnSteps, first);
    }
  }

  function RunEnd(on: seq<int>, i: nat): (end: nat)
    requires i < |on| && Binary(on) && on[i] == 1
    ensures i < end <= |on| && (forall k :: i <= k < end ==> on[k] == 1) && (end == |on| || on[end] == 0)
    decreases |on| - i
  {
    if i + 1 == |on| || on[i + 1] == 0 then i + 1 else RunEnd(on, i + 1)
  }

  lemma RisingEdgesSatisfy(on: seq<int>, minimumOnSteps: nat)
    requires Binary(on) && RunsLastAtLeast(on, minimumOnSteps)
    ensures Satisfies(on, RisingEdges(on), minimumOnSteps)
  {
    var start := RisingEdges(on);
    forall step | 0 <= step < |on| ensures HoldConstraints(on, start, minimumOnSteps, step) {
      if start[step] == 1 {
        assert MaximalRun(on, step, RunEnd(on, step));
      }
    }
  }

  /** The encoding is exact: a schedule satisfies the constraints for some start variables exactly
      when each of its runs, also one that touches the horizon end, lasts the minimum; and then
      the start variables are determined, as its rising edges. */
  lemma EncodingIsExact(on: seq<int>, minimumOnSteps: nat)
    ensures (exists start :: Satisfies(on, start, minimumOnSteps)) <==>
            Binary(on) && RunsLastAtLeast(on, minimumOnSteps)
    ensures forall start :: Satisfies(on, start, minimumOnSteps) ==> start == RisingEdges(on)
  {
    forall start | Satisfies(on, start, minimumOnSteps)
      ensures start == RisingEdges(on) && Binary(on) && RunsLastAtLeast(on, minimumOnSteps)
    {
      StartIsRisingEdge(on, start, minimumOnSteps);
      RunsAreLong(on, start, minimumOnSteps);
    }
    if Binary(on) && RunsLastAtLeast(on, minimumOnSteps) {
      RisingEdgesSatisfy(on, minimumOnSteps);
    }
  }

  // ---- Starts against on-steps -------------------------------------------------------

  function SumFrom(s: seq<int>, i: nat): int
    requires i <= |s|
    decreases |s| - i
  {
    if i == |s| then 0 else s[i] + SumFrom(s, i + 1)
  }

  lemma {:induction false} SumOfRun(on: seq<int>, first: nat, end: nat)
    requires first <= end <= |on| && forall i :: first <= i < end ==> on[i] == 1
    ensures SumFrom(on, first) == end - first + SumFrom(on, end)
    decreases end - first
  {
    if first < end {
      SumOfRun(on, first + 1, end);
    }
  }

  lemma {:induction false} NoEdgeInsideRun(on: seq<int>, i: nat, end: nat)
    requires 0 < i <= end <= |on| && forall k :: i - 1 <= k < end ==> on[k] == 1
    ensures SumFrom(RisingEdges(on), i) == SumFrom(RisingEdges(on), end)
    decreases end - i
  {
    if i < end {
      NoEdgeInsideRun(on, i + 1, end);
    }
  }

  lemma RunIsLong(on: seq<int>, minimumOnSteps: nat, i: nat)
    requires Binary(on) && RunsLastAtLeast(on, minimumOnSteps)
    requires i < |on| && on[i] == 1 && (i == 0 || on[i - 1] == 0)
    ensures RunEnd(on, i) - i >= minimumOnSteps
  {
    assert MaximalRun(on, i, RunEnd(on, i));
  }

  /** From any point between runs on, each start pays for `minimumOnSteps` on-steps. */
  lemma {:induction false} StartsPaidFrom(on: seq<int>, minimumOnSteps: nat, i: nat)
    requires Binary(on) && RunsLastAtLeast(on, minimumOnSteps)
    requires i <= |on| && (i == |on| || i == 0 || on[i - 1] == 0 || on[i] == 0)
    ensures minimumOnSteps * SumFrom(RisingEdges(on), i) <= SumFrom(on, i)
    decreases |on| - i
  {
    hide RunsLastAtLeast;
    var edges := RisingEdges(on);
    if i < |on| {
      if on[i] == 0 {
        StartsPaidFrom(on, minimumOnSteps, i + 1);
      } else {
        var end := RunEnd(on, i);
        assert end - i >= minimumOnSteps by {
          RunIsLong(on, minimumOnSteps, i);
        }
        StartsPaidFrom(on, minimumOnSteps, end);
        SumOfRun(on, i, end);
        NoEdgeInsideRun(on, i + 1, end);
        assert SumFrom(edges, i) == 1 + SumFrom(edges, end);
        OneMoreStart(minimumOnSteps, SumFrom(edges, end), end - i, SumFrom(on, end));
      }
    }
  }

  lemma OneMoreStart(minimum: nat, starts: int, length: int, rest: int)
    requires minimum * starts <= rest && minimum <= length
    ensures minimum * (1 + starts) <= length + rest
  {
    assert minimum * (1 + starts) == minimum + minimum * starts;
  }

  /** Every start buys a full minimum run: starts times minimum never exceed the on-steps. */
  lemma StartsTimesMinimum(on: seq<int>, start: seq<int>, minimumOnSteps: nat)
    requires Satisfies(on, start, minimumOnSteps)
    ensures minimumOnSteps * SumFrom(start, 0) <= SumFrom(on, 0)
  {
    StartIsRisingEdge(on, start, minimumOnSteps);
    RunsAreLong(on, start, minimumOnSteps);
    StartsPaidFrom(on, minimumOnSteps, 0);
  }

  // ---- From minutes to steps ---------------------------------------------------------

  function Ceil(x: real): int {
    -((-x).Floor)
  }

  function StepsFor(quotient: real): (steps: nat) {
    var steps := Ceil(quotient);
    if steps < 1 then 1 else steps
  }

  function MinimumOnSteps(minimumOnMinutes: real, stepMinutes: nat): nat
    requires stepMinutes > 0
  {
    StepsFor(minimumOnMinutes / stepMinutes as real)
  }

  /** A run of the computed number of steps lasts at least the minimum minutes, and a run of fewer
      (but some) steps does not. */
  lemma MinimumOnStepsIsLeast(minimumOnMinutes: real, stepMinutes: nat, steps: nat)
    requires stepMinutes > 0 && steps > 0
    ensures steps >= MinimumOnSteps(minimumOnMinutes, stepMinutes) <==>
            steps as real * stepMinutes as real >= minimumOnMinutes
  {
    hide StepsFor;
    StepsForIsLeast(minimumOnMinutes / stepMinutes as real, steps);
    QuotientCompare(steps as real, minimumOnMinutes, stepMinutes as real);
  }

  lemma StepsForIsLeast(quotient: real, steps: nat)
    requires steps > 0
    ensures steps >= StepsFor(quotient) <==> steps as real >= quotient
  {
    CeilIsLeast(quotient, steps);
  }

  lemma QuotientCompare(a: real, b: real, d: real)
    requires d > 0.0
    ensures a >= b / d <==> a * d >= b
  {
    var q := b / d;
    assert q * d == b;
    ScaleCompare(a, q, d);
  }

  lemma CeilIsLeast(x: real, n: int)
    ensures n >= Ceil(x) <==> n as real >= x
  {
    assert (-x).Floor as real <= -x < (-x).Floor as real + 1.0;
    if n < Ceil(x) {
      assert n <= Ceil(x) - 1;
    }
  }

  lemma ScaleCompare(a: real, b: real, d: real)
    requires d > 0.0
    ensures a >= b <==> a * d >= b * d
  {
  }
}
