/**
 The estimated time of a pipeline: for every time step, the slowest of the stages that are busy
 then (`estimate` in ProfiledWeightDecomposer.cpp, `estimateTime` in DPStaging.cpp).
 */
module Estimate {
  import opened Arithmetic

  function Sum(xs: seq<int>): int { if xs == [] then 0 else Sum(xs[..|xs| - 1]) + xs[|xs| - 1] }

  /** The largest element, or 0. */
  function MaxOf(xs: seq<int>): (m: int)
    ensures m >= 0 && forall i :: 0 <= i < |xs| ==> xs[i] <= m
  {
    if xs == [] then 0 else Max(MaxOf(xs[..|xs| - 1]), xs[|xs| - 1])
  }

  // ---------- the windows ----------

  function First(p: nat, t: nat): nat { if t + 1 < p then 0 else t + 1 - p }

  function End(n: nat, t: nat): nat { if n < t + 1 then n else t + 1 }

  /** The slowest stage at step `t` when `p` micro-batches follow each other through the stages. */
  function StepTime(vals: seq<int>, p: nat, t: nat): int
    requires p >= 1 && t < p + |vals| - 1
  {
    MaxOf(vals[First(p, t)..End(|vals|, t)])
  }

  /** The time of steps 0..n-1. */
  function Steps(vals: seq<int>, p: nat, n: nat): int
    requires p >= 1 && n <= p + |vals| - 1
  {
    if n == 0 then 0 else Steps(vals, p, n - 1) + StepTime(vals, p, n - 1)
  }

  function Windowed(vals: seq<int>, p: nat): int
    requires p >= 1
  {
    Steps(vals, p, p + |vals| - 1)
  }

  // ---------- bounds ----------

  function Times(k: nat, x: int): int { k * x }

  lemma OneMore(k: nat, x: int)
    requires k > 0
    ensures Times(k, x) == Times(k - 1, x) + x
  {
  }

  lemma StepsLast(vals: seq<int>, p: nat, n: nat)
    requires p >= 1 && 0 < n <= p + |vals| - 1
    ensures Steps(vals, p, n) == Steps(vals, p, n - 1) + StepTime(vals, p, n - 1)
  {
  }

  lemma StepHas(vals: seq<int>, p: nat, t: nat, i: nat)
    requires p >= 1 && t < p + |vals| - 1 && i < |vals| && i <= t <= i + p - 1
    ensures vals[i] <= StepTime(vals, p, t)
  {
    var window := vals[First(p, t)..End(|vals|, t)];
    assert window[i - First(p, t)] == vals[i];
  }

  lemma {:induction false} MaxOfIs(xs: seq<int>)
    ensures MaxOf(xs) == 0 || exists i :: 0 <= i < |xs| && xs[i] == MaxOf(xs)
  {
    if xs != [] {
      var front := xs[..|xs| - 1];
      MaxOfIs(front);
      if i :| 0 <= i < |front| && front[i] == MaxOf(front) { assert xs[i] == front[i]; }
    }
  }

  /** Stage `i` works on a micro-batch at step `t`: the first has reached it and the last has not left it. */
  predicate Busy(p: nat, i: nat, t: nat) { i <= t < i + p }

  /** A step takes as long as the slowest stage that is busy then, or no time. */
  lemma StepIs(vals: seq<int>, p: nat, t: nat)
    requires p >= 1 && t < p + |vals| - 1
    ensures StepTime(vals, p, t) >= 0
    ensures forall i :: 0 <= i < |vals| && Busy(p, i, t) ==> vals[i] <= StepTime(vals, p, t)
    ensures StepTime(vals, p, t) == 0 ||
            exists i :: 0 <= i < |vals| && Busy(p, i, t) && vals[i] == StepTime(vals, p, t)
  {
    forall i | 0 <= i < |vals| && Busy(p, i, t) ensures vals[i] <= StepTime(vals, p, t) { StepHas(vals, p, t, i); }
    var first := First(p, t);
    var window := vals[first..End(|vals|, t)];
    MaxOfIs(window);
    if i :| 0 <= i < |window| && window[i] == MaxOf(window) {
      assert vals[first + i] == window[i] && Busy(p, first + i, t);
    }
  }

  lemma StepAtMost(vals: seq<int>, p: nat, t: nat)
    requires p >= 1 && t < p + |vals| - 1
    ensures StepTime(vals, p, t) <= MaxOf(vals)
  {
    StepIs(vals, p, t);
  }

  /** A single micro-batch meets one stage after the other. */
  lemma {:induction false} OneMicroBatchSteps(vals: seq<int>, n: nat)
    requires n <= |vals| && forall i :: 0 <= i < |vals| ==> vals[i] >= 0
    ensures Steps(vals, 1, n) == Sum(vals[..n])
  {
    if n > 0 {
      OneMicroBatchSteps(vals, n - 1);
      assert vals[..n][..n - 1] == vals[..n - 1];
      hide StepTime;
      StepIs(vals, 1, n - 1);
      assert Busy(1, n - 1, n - 1);
    }
  }

  /** With one micro-batch the estimate is the sum of the stages. */
  lemma OneMicroBatch(vals: seq<int>)
    requires forall i :: 0 <= i < |vals| ==> vals[i] >= 0
    ensures Windowed(vals, 1) == Sum(vals)
  {
    OneMicroBatchSteps(vals, |vals|);
    assert vals[..|vals|] == vals;
  }

  lemma {:induction false} StepsAtMost(vals: seq<int>, p: nat, n: nat)
    requires p >= 1 && n <= p + |vals| - 1
    ensures Steps(vals, p, n) <= Times(n, MaxOf(vals))
  {
    if n == 0 {
      assert Times(0, MaxOf(vals)) == 0;
    } else {
      hide StepTime, MaxOf, Steps, Times;
      StepsAtMost(vals, p, n - 1);
      StepAtMost(vals, p, n - 1);
      StepsLast(vals, p, n);
      OneMore(n, MaxOf(vals));
    }
  }

  /** Up to the step at which the slowest stage `m` starts, each new stage counts at least once. */
  lemma {:induction false} FillAtLeast(vals: seq<int>, p: nat, n: nat)
    requires p >= 1 && n <= |vals|
    ensures Steps(vals, p, n) >= Sum(vals[..n])
  {
    if n > 0 {
      FillAtLeast(vals, p, n - 1);
      StepHas(vals, p, n - 1, n - 1);
      assert vals[..n][..n - 1] == vals[..n - 1];
    }
  }

  /** Then the slowest stage is busy for `p` steps. */
  lemma {:induction false} BusyAtLeast(vals: seq<int>, p: nat, m: nat, k: nat)
    requires p >= 1 && m < |vals| && k <= p
    ensures Steps(vals, p, m + k) >= Sum(vals[..m]) + Times(k, vals[m])
  {
    if k == 0 {
      FillAtLeast(vals, p, m);
    } else {
      hide StepTime, Sum, Steps, Times;
      BusyAtLeast(vals, p, m, k - 1);
      StepHas(vals, p, m + k - 1, m);
      StepsLast(vals, p, m + k);
      OneMore(k, vals[m]);
    }
  }

  lemma SumLast(vals: seq<int>, a: nat, b: nat)
    requires a < b <= |vals|
    ensures Sum(vals[a..b]) == Sum(vals[a..b - 1]) + vals[b - 1]
  {
    assert vals[a..b][..b - a - 1] == vals[a..b - 1];
  }

  /** And while the pipeline drains, each later stage counts once more. */
  lemma {:induction false} DrainAtLeast(vals: seq<int>, p: nat, m: nat, k: nat)
    requires p >= 1 && m < |vals| && m + 1 + k <= |vals|
    ensures Steps(vals, p, m + p + k) >= Sum(vals[..m]) + Times(p, vals[m]) + Sum(vals[m + 1..m + 1 + k])
  {
    if k == 0 {
      BusyAtLeast(vals, p, m, p);
    } else {
      hide StepTime, Sum, Steps, Times;
      DrainAtLeast(vals, p, m, k - 1);
      StepHas(vals, p, m + p + k - 1, m + k);
      StepsLast(vals, p, m + p + k);
      SumLast(vals, m + 1, m + 1 + k);
    }
  }

  lemma {:induction false} SumSplit(vals: seq<int>, m: nat, n: nat)
    requires m < n <= |vals|
    ensures Sum(vals[..n]) == Sum(vals[..m]) + vals[m] + Sum(vals[m + 1..n])
  {
    assert vals[..n][..n - 1] == vals[..n - 1];
    if m + 1 < n {
      SumSplit(vals, m, n - 1);
      assert vals[m + 1..n][..n - 1 - (m + 1)] == vals[m + 1..n - 1];
    }
  }

  /** For any stage times and any number of micro-batches, the estimate lies between one pass plus the slowest stage for
      every further micro-batch, and the slowest stage at every step. */
  lemma WindowedBounds(vals: seq<int>, p: nat)
    requires p >= 1 && |vals| >= 1 && forall i :: 0 <= i < |vals| ==> vals[i] >= 0
    ensures Sum(vals) + (p - 1) * MaxOf(vals) <= Windowed(vals, p) <= (|vals| + p - 1) * MaxOf(vals)
  {
    hide Sum, Windowed, MaxOf, Times;
    BoundsByTimes(vals, p);
    TimesIs(p - 1, MaxOf(vals));
    TimesIs(|vals| + p - 1, MaxOf(vals));
  }

  lemma TimesIs(k: nat, x: int)
    ensures Times(k, x) == k * x
  {
  }

  lemma BoundsByTimes(vals: seq<int>, p: nat)
    requires p >= 1 && |vals| >= 1 && forall i :: 0 <= i < |vals| ==> vals[i] >= 0
    ensures Sum(vals) + Times(p - 1, MaxOf(vals)) <= Windowed(vals, p) <= Times(|vals| + p - 1, MaxOf(vals))
  {
    hide Sum, Steps, MaxOf, Times;
    StepsAtMost(vals, p, p + |vals| - 1);
    var m := Slowest(vals);
    DrainAtLeast(vals, p, m, |vals| - 1 - m);
    SumSplit(vals, m, |vals|);
    assert vals[..|vals|] == vals && vals[m + 1..|vals|] == vals[m + 1..m + 1 + (|vals| - 1 - m)];
    OneMore(p, vals[m]);
  }

  lemma Slowest(vals: seq<int>) returns (m: nat)
    requires |vals| >= 1 && forall i :: 0 <= i < |vals| ==> vals[i] >= 0
    ensures m < |vals| && vals[m] == MaxOf(vals)
  {
    MaxOfIs(vals);
    m := 0;
    if i :| 0 <= i < |vals| && vals[i] == MaxOf(vals) { m := i; }
  }

  /** Both bounds are met when all stages take the same time. */
  lemma {:induction false} SumOfEqual(vals: seq<int>, x: int)
    requires x >= 0 && |vals| >= 1 && forall i :: 0 <= i < |vals| ==> vals[i] == x
    ensures Sum(vals) == |vals| * x && MaxOf(vals) == x
  {
    if |vals| > 1 {
      SumOfEqual(vals[..|vals| - 1], x);
      assert |vals| * x == (|vals| - 1) * x + x;
    } else {
      assert vals[..0] == [];
    }
  }

  lemma EqualStages(vals: seq<int>, p: nat, x: int)
    requires p >= 1 && x >= 0 && |vals| >= 1 && forall i :: 0 <= i < |vals| ==> vals[i] == x
    ensures Windowed(vals, p) == (|vals| + p - 1) * x
  {
    WindowedBounds(vals, p);
    SumOfEqual(vals, x);
    assert (|vals| + p - 1) * x == |vals| * x + (p - 1) * x;
  }

  // ---------- the loops ----------

  lemma MaxLast(vals: seq<int>, a: nat, b: nat)
    requires a < b <= |vals|
    ensures MaxOf(vals[a..b]) == Max(MaxOf(vals[a..b - 1]), vals[b - 1])
  {
    assert vals[a..b][..b - a - 1] == vals[a..b - 1];
  }

  /** The inner loop. */
  method StepLoop(vals: seq<int>, p: nat, t: nat) returns (stepTime: int)
    requires p >= 1 && t < p + |vals| - 1
    ensures stepTime == StepTime(vals, p, t)
  {
    stepTime := 0;
    for i := First(p, t) to End(|vals|, t)
      invariant stepTime == MaxOf(vals[First(p, t)..i])
    {
      MaxLast(vals, First(p, t), i + 1);
      stepTime := Max(stepTime, vals[i]);
    }
  }

  /** `estimate` of ProfiledWeightDecomposer.cpp. */
  method EstimateBlocks(vals: seq<int>, p: nat) returns (est: int)
    requires p >= 1
    ensures est == Windowed(vals, p)
  {
    hide StepTime;
    est := 0;
    for t := 0 to p + |vals| - 1
      invariant est == Steps(vals, p, t)
    {
      var stepTime := StepLoop(vals, p, t);
      est := est + stepTime;
    }
  }

  /** The inner loop of `estimateTime`. */
  method StepLoops(fwd: seq<int>, bwd: seq<int>, p: nat, t: nat) returns (maxFwd: int, maxBwd: int)
    requires p >= 1 && |fwd| == |bwd| && t < p + |fwd| - 1
    ensures maxFwd == StepTime(fwd, p, t) && maxBwd == StepTime(bwd, p, t)
  {
    var first, end := First(p, t), End(|fwd|, t);
    maxFwd, maxBwd := 0, 0;
    for i := first to end
      invariant maxFwd == MaxOf(fwd[first..i]) && maxBwd == MaxOf(bwd[first..i])
    {
      MaxLast(fwd, first, i + 1);
      MaxLast(bwd, first, i + 1);
      maxFwd, maxBwd := Max(maxFwd, fwd[i]), Max(maxBwd, bwd[i]);
    }
  }

  /** `estimateTime`: forward and backward steps together, and the slowest all-reduce at the end. */
  method EstimateTime(fwd: seq<int>, bwd: seq<int>, allReduce: seq<int>, p: nat) returns (time: int)
    requires p >= 1 && |fwd| == |bwd|
    ensures time == Windowed(fwd, p) + Windowed(bwd, p) + MaxOf(allReduce)
  {
    hide StepTime, MaxOf;
    time := 0;
    for t := 0 to p + |fwd| - 1
      invariant time == Steps(fwd, p, t) + Steps(bwd, p, t)
    {
      var maxFwd, maxBwd := StepLoops(fwd, bwd, p, t);
      time := time + maxFwd + maxBwd;
    }
    var maxAr := MaxLoop(allReduce);
    time := time + maxAr;
  }

  method MaxLoop(xs: seq<int>) returns (m: int)
    ensures m == MaxOf(xs)
  {
    m := 0;
    for i := 0 to |xs|
      invariant m == MaxOf(xs[..i])
    {
      assert xs[..i + 1][..i] == xs[..i];
      m := Max(m, xs[i]);
    }
    assert xs[..|xs|] == xs;
  }

  /** The estimate of a staging is at least one pass, plus the slowest forward and the slowest backward for every
      further micro-batch, and at most the slowest of both at every step, plus the all-reduce. */
  lemma EstimateTimeBounds(fwd: seq<int>, bwd: seq<int>, allReduce: seq<int>, p: nat)
    requires p >= 1 && |fwd| == |bwd| >= 1
    requires forall i :: 0 <= i < |fwd| ==> fwd[i] >= 0 && bwd[i] >= 0
    ensures var time := Windowed(fwd, p) + Windowed(bwd, p) + MaxOf(allReduce);
            && time >= Sum(fwd) + Sum(bwd) + (p - 1) * (MaxOf(fwd) + MaxOf(bwd)) + MaxOf(allReduce)
            && time <= (|fwd| + p - 1) * (MaxOf(fwd) + MaxOf(bwd)) + MaxOf(allReduce)
  {
    hide Windowed, Sum, MaxOf;
    WindowedBounds(fwd, p);
    WindowedBounds(bwd, p);
    Distribute(MaxOf(fwd), MaxOf(bwd), p - 1);
    Distribute(MaxOf(fwd), MaxOf(bwd), |fwd| + p - 1);
  }
}
