/**
 The search over nodes, stage numbers and micro-batch numbers around the dynamic program
 (`runDpComm`), and the choice of the solution with the least estimated time.
 */
module StageSearch {
  import opened Options
  import opened Arithmetic
  import opened Staging

  const LONG_MAX: int := 9223372036854775807

  datatype Settings = Settings(batchSize: nat, minPipeline: int, maxPipeline: int, pipelineNum: int, partitionNum: nat,
                               searchAll: bool,
                               minPipelineBs: nat, limitPot: bool, limitMoreThanBs: bool, devMem: int,
                               cost: (nat, nat, nat, nat, nat) -> Cost)
  {
    /** A configured number of micro-batches overrides the range. */
    function FirstPipeline(): (n: nat) {
      var m := if pipelineNum != 0 then pipelineNum else minPipeline;
      if m < 1 then 1 else m
    }

    function LastPipeline(): int {
      var m := if pipelineNum != 0 then pipelineNum else maxPipeline;
      if batchSize < m then batchSize else m
    }
  }

  datatype Solution = Solution(plan: seq<Stage>, replicaNum: nat, pipelineNum: nat, checkpointing: bool)

  function ProblemOf(c: Settings, layerNum: nat, stageNum: nat, devNum: nat, replicaNum: nat,
                     pipelineNum: nat): Problem {
    Problem(stageNum, layerNum, devNum, c.batchSize, replicaNum, pipelineNum, c.minPipelineBs, c.limitPot,
            c.limitMoreThanBs, c.devMem,
            (from: nat, to: nat, devs: nat) => c.cost(replicaNum, pipelineNum, from, to, devs))
  }

  /** Devices over all replicas of all stages. */
  function DevicesUsed(sol: Solution): nat { Devices(sol.plan) * sol.replicaNum }

  /** The devices of one replica on `used` nodes. */
  function GroupDevices(perNode: nat, used: nat): nat { perNode * used }

  /** The smallest number of stages that is tried on `used` nodes: one more than fits on a node less. */
  function FewestStages(perNode: nat, used: nat): nat
    requires used >= 1
  {
    perNode * (used - 1) + 1
  }

  lemma DeviceArithmetic(devNum: nat, perNode: nat, used: nat)
    requires 1 <= perNode <= devNum && 1 <= used <= devNum / perNode
    ensures devNum / perNode / used >= 1
    ensures GroupDevices(perNode, used) * (devNum / perNode / used) <= devNum
    ensures FewestStages(perNode, 1) == 1 && GroupDevices(perNode, 1) == perNode &&
            devNum / perNode / 1 == devNum / perNode
  {
    var total := devNum / perNode;
    assert perNode * used * (total / used) == perNode * (used * (total / used)) by {
      MulAssoc(perNode, used, total / used);
    }
    MulMonotone(perNode, used * (total / used), total);
  }

  // ---------- what is found at one combination of numbers ----------

  /** A number of stages, the devices of one replica, the number of replicas. */
  datatype Numbers = Numbers(stages: nat, group: nat, replicas: nat)

  ghost predicate Usable(layerNum: nat, n: Numbers) { n.stages <= layerNum && n.replicas > 0 }

  /** `k` is a permitted number of micro-batches: the first one, doubled, up to the last one. */
  ghost predicate Permitted(c: Settings, k: nat) {
    c.FirstPipeline() <= k <= c.LastPipeline() && exists e: nat :: k == c.FirstPipeline() * Pow2(e)
  }

  /** What the configuration permits: a configured number of micro-batches that the batch is large enough for, and
      otherwise the doublings of the minimum, or of one, up to the maximum and the batch size. */
  lemma PermittedIs(c: Settings, k: nat)
    ensures c.pipelineNum != 0 ==> (Permitted(c, k) <==> 1 <= k == c.pipelineNum <= c.batchSize)
    ensures c.pipelineNum == 0 ==>
              (Permitted(c, k) <==> k <= c.maxPipeline && k <= c.batchSize
                                    && exists e: nat :: k == Max(1, c.minPipeline) * Pow2(e))
  {
    if c.pipelineNum != 0 && Permitted(c, k) {
      var e: nat :| k == c.FirstPipeline() * Pow2(e);
    }
    if c.pipelineNum >= 1 { assert c.pipelineNum == c.FirstPipeline() * Pow2(0); }
    if c.pipelineNum == 0 && exists e: nat :: k == Max(1, c.minPipeline) * Pow2(e) {
      var e: nat :| k == Max(1, c.minPipeline) * Pow2(e);
      Pow2Grows(c.FirstPipeline(), 0, e);
    }
  }

  /** The ranges of stage numbers tile: every number that the devices allow belongs to the least number of nodes that
      has a device for each stage, and to no other. */
  lemma StageNumbersTile(perNode: nat, total: nat, s: nat)
    requires perNode >= 1
    ensures (exists used: nat :: 1 <= used <= total && HasStages(perNode, used, s)) <==> 1 <= s <= perNode * total
    ensures forall used: nat :: used >= 1 ==>
              (HasStages(perNode, used, s) <==> perNode * (used - 1) < s <= perNode * used)
    ensures forall a: nat, b: nat :: a >= 1 && b >= 1 && HasStages(perNode, a, s) && HasStages(perNode, b, s) ==> a == b
  {
    if 1 <= s <= perNode * total {
      var used := (s - 1) / perNode + 1;
      assert s - 1 == perNode * (used - 1) + (s - 1) % perNode;
      assert perNode * used == perNode * (used - 1) + perNode;
      if used > total { MulMonotone(perNode, total, used - 1); }
      assert HasStages(perNode, used, s);
    }
    forall used: nat | 1 <= used <= total && HasStages(perNode, used, s) ensures 1 <= s <= perNode * total {
      MulMonotone(perNode, used, total);
    }
    forall a: nat, b: nat | a >= 1 && b >= 1 && HasStages(perNode, a, s) && HasStages(perNode, b, s)
      ensures a == b
    {
      if a < b { MulMonotone(perNode, a, b - 1); }
      if b < a { MulMonotone(perNode, b, a - 1); }
    }
  }

  /** `s` stages are searched on `used` nodes, as far as there are layers for them. */
  predicate HasStages(perNode: nat, used: nat, s: nat)
    requires used >= 1
  {
    FewestStages(perNode, used) <= s <= GroupDevices(perNode, used)
  }

  function At(c: Settings, layerNum: nat, n: Numbers, k: nat): Problem {
    ProblemOf(c, layerNum, n.stages, n.group, n.replicas, k)
  }

  /** `plan` is the answer of the dynamic program; it is empty where there is none. */
  ghost predicate Answers(c: Settings, layerNum: nat, n: Numbers, k: nat, plan: seq<Stage>) {
    At(c, layerNum, n, k).Valid() && exists t, value :: AnswersBy(c, layerNum, n, k, plan, t, value)
  }

  ghost predicate AnswersBy(c: Settings, layerNum: nat, n: Numbers, k: nat, plan: seq<Stage>, t: Table, value: int)
    requires At(c, layerNum, n, k).Valid()
  {
    TableIs(At(c, layerNum, n, k), t) && Answer(At(c, layerNum, n, k), t, plan, value)
  }

  lemma OneAnswer(c: Settings, layerNum: nat, n: Numbers, k: nat, plan: seq<Stage>, plan': seq<Stage>)
    requires Answers(c, layerNum, n, k, plan) && Answers(c, layerNum, n, k, plan')
    ensures plan == plan'
  {
    hide TableIs, Answer;
    var t, value :| AnswersBy(c, layerNum, n, k, plan, t, value);
    var t', value' :| AnswersBy(c, layerNum, n, k, plan', t', value');
    AnswerIsOne(At(c, layerNum, n, k), t, t', plan, value, plan', value');
  }

  /** An answer is a plan at these numbers, and there is one if there is room for every stage and a device for each. */
  lemma AnswersMean(c: Settings, layerNum: nat, n: Numbers, k: nat, plan: seq<Stage>)
    requires Answers(c, layerNum, n, k, plan)
    ensures plan != [] ==>
              |plan| == n.stages && IsPlan(At(c, layerNum, n, k), plan, layerNum) && Devices(plan) == n.group
    ensures n.stages >= 1 && Roomy(At(c, layerNum, n, k)) ==> (plan != [] <==> n.stages <= n.group)
  {
    hide TableIs, Answer, Roomy, IsPlan, Least, NoneLaterCheaper;
    var t, value :| AnswersBy(c, layerNum, n, k, plan, t, value);
    AnswerMeans(At(c, layerNum, n, k), t, plan, value);
  }

  function SolutionOf(n: Numbers, k: nat, plan: seq<Stage>): Solution { Solution(plan, n.replicas, k, k > 1) }

  /** `sol` was found at the numbers `n`. */
  ghost predicate FoundAt(c: Settings, layerNum: nat, n: Numbers, sol: Solution) {
    && Usable(layerNum, n) && Permitted(c, sol.pipelineNum)
    && sol.plan != [] && sol == SolutionOf(n, sol.pipelineNum, sol.plan)
    && Answers(c, layerNum, n, sol.pipelineNum, sol.plan)
  }

  /** Whatever there is to find at the numbers `n` is among the solutions. */
  ghost predicate Covered(c: Settings, sols: seq<Solution>, layerNum: nat, n: Numbers) {
    forall k: nat :: Permitted(c, k) ==> CoveredAt(c, sols, layerNum, n, k)
  }

  ghost predicate CoveredAt(c: Settings, sols: seq<Solution>, layerNum: nat, n: Numbers, k: nat) {
    exists plan :: Answers(c, layerNum, n, k, plan) && (plan != [] ==> SolutionOf(n, k, plan) in sols)
  }

  /** A permitted combination that has room for every stage, and a device for each, has a solution. */
  lemma RoomIsFound(c: Settings, sols: seq<Solution>, layerNum: nat, n: Numbers, k: nat)
    requires Covered(c, sols, layerNum, n) && Permitted(c, k)
    requires 1 <= n.stages <= n.group && At(c, layerNum, n, k).Valid() && Roomy(At(c, layerNum, n, k))
    ensures exists i :: 0 <= i < |sols| && FoundAt(c, layerNum, n, sols[i]) && sols[i].pipelineNum == k
  {
    hide Roomy, Answers, Permitted;
    assert CoveredAt(c, sols, layerNum, n, k);
    var plan :| Answers(c, layerNum, n, k, plan) && (plan != [] ==> SolutionOf(n, k, plan) in sols);
    AnswersMean(c, layerNum, n, k, plan);
    var i :| 0 <= i < |sols| && sols[i] == SolutionOf(n, k, plan);
  }

  /** A solution covers all layers, fits memory and limits at its own replica and micro-batch numbers, uses a permitted
      number of micro-batches, and no more devices than there are. */
  ghost predicate Sound(c: Settings, layerNum: nat, devNum: nat, sol: Solution) {
    && sol.plan != [] && sol.replicaNum > 0 && Permitted(c, sol.pipelineNum)
    && (sol.checkpointing <==> sol.pipelineNum > 1)
    && |sol.plan| <= layerNum && sol.pipelineNum > 0
    && IsPlan(ProblemOf(c, layerNum, |sol.plan|, Devices(sol.plan), sol.replicaNum, sol.pipelineNum), sol.plan,
              layerNum)
    && DevicesUsed(sol) <= devNum
  }

  lemma FoundIsSound(c: Settings, layerNum: nat, devNum: nat, n: Numbers, sol: Solution)
    requires FoundAt(c, layerNum, n, sol) && n.group * n.replicas <= devNum
    ensures Sound(c, layerNum, devNum, sol) && |sol.plan| == n.stages && Devices(sol.plan) == n.group
  {
    hide Answers, IsPlan;
    AnswersMean(c, layerNum, n, sol.pipelineNum, sol.plan);
  }

  // ---------- the order of the solutions ----------

  /** The order of the loops over nodes, stage numbers and micro-batch numbers. */
  predicate Sooner(a: Solution, b: Solution) {
    || Devices(a.plan) < Devices(b.plan)
    || (Devices(a.plan) == Devices(b.plan)
        && (|a.plan| < |b.plan| || (|a.plan| == |b.plan| && a.pipelineNum < b.pipelineNum)))
  }

  ghost predicate InOrder(sols: seq<Solution>) { forall i, j :: 0 <= i < j < |sols| ==> Sooner(sols[i], sols[j]) }

  lemma NoneInOrder()
    ensures InOrder([])
  {
  }

  lemma OrderTogether(a: seq<Solution>, b: seq<Solution>)
    requires InOrder(a) && InOrder(b) && forall x, y :: x in a && y in b ==> Sooner(x, y)
    ensures InOrder(a + b)
  {
    hide Sooner;
    var all := a + b;
    forall i, j | 0 <= i < j < |all| ensures Sooner(all[i], all[j]) {
      if i < |a| <= j { assert a[i] in a && b[j - |a|] in b; }
    }
  }

  // ---------- one stage number: the loop over micro-batch numbers ----------

  ghost predicate CoveredTo(c: Settings, sols: seq<Solution>, layerNum: nat, n: Numbers, hi: nat) {
    forall e: nat :: e < hi ==> CoveredAt(c, sols, layerNum, n, c.FirstPipeline() * Pow2(e))
  }

  lemma CoveredAtMore(c: Settings, a: seq<Solution>, b: seq<Solution>, layerNum: nat, n: Numbers, k: nat)
    requires CoveredAt(c, a, layerNum, n, k) || CoveredAt(c, b, layerNum, n, k)
    ensures CoveredAt(c, a + b, layerNum, n, k)
  {
    hide Answers;
  }

  lemma CoveredMore(c: Settings, a: seq<Solution>, b: seq<Solution>, layerNum: nat, n: Numbers)
    requires Covered(c, a, layerNum, n) || Covered(c, b, layerNum, n)
    ensures Covered(c, a + b, layerNum, n)
  {
    hide CoveredAt, Permitted;
    forall k: nat | Permitted(c, k)
      ensures CoveredAt(c, a + b, layerNum, n, k)
    {
      CoveredAtMore(c, a, b, layerNum, n, k);
    }
  }

  lemma {:induction false} Pow2Grows(a: nat, e: nat, k: nat)
    requires e <= k
    ensures a * Pow2(e) <= a * Pow2(k)
  {
    if e < k {
      Pow2Grows(a, e, k - 1);
      MulMonotone(a, Pow2(k - 1), Pow2(k));
    }
  }

  /** Nothing beyond the last number of micro-batches is permitted. */
  lemma CoveredAll(c: Settings, sols: seq<Solution>, layerNum: nat, n: Numbers, hi: nat)
    requires CoveredTo(c, sols, layerNum, n, hi) && c.FirstPipeline() * Pow2(hi) > c.LastPipeline()
    ensures Covered(c, sols, layerNum, n)
  {
    hide CoveredAt;
    forall k: nat | Permitted(c, k) ensures CoveredAt(c, sols, layerNum, n, k) {
      var e: nat :| k == c.FirstPipeline() * Pow2(e);
      if e >= hi { Pow2Grows(c.FirstPipeline(), hi, e); }
    }
  }

  lemma DoublePow2(a: nat, e: nat)
    ensures a * Pow2(e) * 2 == a * Pow2(e + 1)
  {
    assert Pow2(e + 1) == 2 * Pow2(e);
    MulAssoc(a, Pow2(e), 2);
  }

  /** One number of micro-batches. */
  method SearchOne(c: Settings, layerNum: nat, n: Numbers, k: nat) returns (sols: seq<Solution>)
    requires Usable(layerNum, n) && k > 0 && Permitted(c, k)
    ensures CoveredAt(c, sols, layerNum, n, k) && InOrder(sols)
    ensures forall sol :: sol in sols ==> FoundAt(c, layerNum, n, sol) && sol.pipelineNum == k
  {
    hide TableIs, Answer, Permitted;
    var plan, value, t := DoRunDpComm(At(c, layerNum, n, k));
    assert AnswersBy(c, layerNum, n, k, plan, t, value);
    sols := if plan != [] then [SolutionOf(n, k, plan)] else [];
    assert plan != [] ==> sols[0] in sols;
  }

  /** The loop over micro-batch numbers, doubling. */
  method SearchPipelines(c: Settings, layerNum: nat, n: Numbers) returns (sols: seq<Solution>)
    requires Usable(layerNum, n)
    ensures Covered(c, sols, layerNum, n) && InOrder(sols)
    ensures forall sol :: sol in sols ==> FoundAt(c, layerNum, n, sol)
  {
    hide Covered, CoveredAt, FoundAt, InOrder, Permitted;
    sols := [];
    var k := c.FirstPipeline();
    ghost var e: nat := 0;
    assert InOrder([]) by { NoneInOrder(); }
    while k <= c.LastPipeline()
      invariant k == c.FirstPipeline() * Pow2(e) && k >= c.FirstPipeline() >= 1
      invariant CoveredTo(c, sols, layerNum, n, e) && InOrder(sols)
      invariant forall sol :: sol in sols ==> FoundAt(c, layerNum, n, sol) && sol.pipelineNum < k
      decreases c.LastPipeline() - k
    {
      IsPermitted(c, k, e);
      var more := SearchOne(c, layerNum, n, k);
      PipelineOrder(c, layerNum, n, sols, more, k);
      forall i: nat | i < e + 1 ensures CoveredAt(c, sols + more, layerNum, n, c.FirstPipeline() * Pow2(i)) {
        CoveredAtMore(c, sols, more, layerNum, n, c.FirstPipeline() * Pow2(i));
      }
      sols := sols + more;
      DoublePow2(c.FirstPipeline(), e);
      k := k * 2;
      e := e + 1;
    }
    CoveredAll(c, sols, layerNum, n, e);
  }

  lemma IsPermitted(c: Settings, k: nat, e: nat)
    requires c.FirstPipeline() <= k <= c.LastPipeline() && k == c.FirstPipeline() * Pow2(e)
    ensures Permitted(c, k)
  {
  }

  lemma PipelineOrder(c: Settings, layerNum: nat, n: Numbers, a: seq<Solution>, b: seq<Solution>, k: nat)
    requires InOrder(a) && InOrder(b)
    requires forall sol :: sol in a ==> FoundAt(c, layerNum, n, sol) && sol.pipelineNum < k
    requires forall sol :: sol in b ==> FoundAt(c, layerNum, n, sol) && sol.pipelineNum == k
    ensures InOrder(a + b)
  {
    hide InOrder, FoundAt;
    forall x, y | x in a && y in b ensures Sooner(x, y) {
      FoundNumbers(c, layerNum, n, x);
      FoundNumbers(c, layerNum, n, y);
    }
    OrderTogether(a, b);
  }

  lemma FoundNumbers(c: Settings, layerNum: nat, n: Numbers, sol: Solution)
    requires FoundAt(c, layerNum, n, sol)
    ensures |sol.plan| == n.stages && Devices(sol.plan) == n.group
  {
    hide Answers;
    AnswersMean(c, layerNum, n, sol.pipelineNum, sol.plan);
  }

  // ---------- one number of nodes: the loop over stage numbers ----------

  /** Everything up to stage number `hi` is covered. */
  ghost predicate StagesCovered(c: Settings, sols: seq<Solution>, layerNum: nat, group: nat, replicas: nat, low: nat,
                                hi: int) {
    forall s: nat :: low <= s <= hi ==> Covered(c, sols, layerNum, Numbers(s, group, replicas))
  }

  ghost predicate AllAt(c: Settings, layerNum: nat, group: nat, replicas: nat, low: nat, hi: int, sols: seq<Solution>) {
    forall sol :: sol in sols ==> AtStages(c, layerNum, group, replicas, low, hi, sol)
  }

  ghost predicate AtStages(c: Settings, layerNum: nat, group: nat, replicas: nat, low: nat, hi: int, sol: Solution) {
    low <= |sol.plan| <= hi && FoundAt(c, layerNum, Numbers(|sol.plan|, group, replicas), sol)
  }

  lemma StagesMore(c: Settings, layerNum: nat, group: nat, replicas: nat, low: nat, s: nat, a: seq<Solution>,
                   b: seq<Solution>)
    requires low <= s && InOrder(a) && InOrder(b)
    requires AllAt(c, layerNum, group, replicas, low, s - 1, a) &&
             StagesCovered(c, a, layerNum, group, replicas, low, s - 1)
    requires Covered(c, b, layerNum, Numbers(s, group, replicas))
    requires forall sol :: sol in b ==> FoundAt(c, layerNum, Numbers(s, group, replicas), sol)
    ensures InOrder(a + b) && StagesCovered(c, a + b, layerNum, group, replicas, low, s)
    ensures AllAt(c, layerNum, group, replicas, low, s, a + b)
    ensures forall sol :: sol in b ==> |sol.plan| == s
  {
    hide InOrder, Covered, FoundAt;
    forall sol | sol in b ensures |sol.plan| == s && Devices(sol.plan) == group {
      FoundNumbers(c, layerNum, Numbers(s, group, replicas), sol);
    }
    forall x, y | x in a && y in b ensures Sooner(x, y) {
      assert AtStages(c, layerNum, group, replicas, low, s - 1, x);
      FoundNumbers(c, layerNum, Numbers(|x.plan|, group, replicas), x);
    }
    OrderTogether(a, b);
    forall k: nat | low <= k <= s ensures Covered(c, a + b, layerNum, Numbers(k, group, replicas)) {
      CoveredMore(c, a, b, layerNum, Numbers(k, group, replicas));
    }
  }

  /** The loop over stage numbers. Without a full search it ends at the first one with a solution, `last`. */
  method SearchStages(c: Settings, layerNum: nat, group: nat, replicas: nat, low: nat, high: nat, already: bool)
    returns (sols: seq<Solution>, ghost last: int)
    requires low <= layerNum && high <= layerNum && replicas > 0 && (already ==> c.searchAll)
    ensures InOrder(sols) && AllAt(c, layerNum, group, replicas, low, last, sols)
    ensures StagesCovered(c, sols, layerNum, group, replicas, low, last)
    ensures if c.searchAll || sols == [] then last == Max(low - 1, high)
            else last <= high && forall sol :: sol in sols ==> |sol.plan| == last
  {
    hide InOrder, AtStages, Covered, FoundAt;
    sols := [];
    var stageNum := low;
    assert InOrder([]) by { NoneInOrder(); }
    while stageNum <= high
      invariant low <= stageNum <= Max(low, high + 1)
      invariant InOrder(sols) && AllAt(c, layerNum, group, replicas, low, stageNum - 1, sols)
      invariant StagesCovered(c, sols, layerNum, group, replicas, low, stageNum - 1)
      invariant !c.searchAll ==> sols == []
    {
      var more := SearchPipelines(c, layerNum, Numbers(stageNum, group, replicas));
      StagesMore(c, layerNum, group, replicas, low, stageNum, sols, more);
      NoneForZero(c, layerNum, Numbers(stageNum, group, replicas), more);
      ghost var before := sols;
      sols := sols + more;
      if !c.searchAll && (already || sols != []) && stageNum >= 1 {
        last := stageNum;
        return;
      }
      stageNum := stageNum + 1;
    }
    last := stageNum - 1;
  }

  /** No solution has no stages. */
  lemma NoneForZero(c: Settings, layerNum: nat, n: Numbers, sols: seq<Solution>)
    requires forall sol :: sol in sols ==> FoundAt(c, layerNum, n, sol)
    ensures n.stages == 0 ==> sols == []
  {
    hide Answers;
    if n.stages == 0 && sols != [] {
      assert sols[0] in sols;
      FoundNumbers(c, layerNum, n, sols[0]);
    }
  }

  // ---------- all numbers of nodes ----------

  /** The stage numbers that belong to `used` nodes; a configured number belongs to every node number that is not too
      large for it. */
  predicate Skipped(c: Settings, perNode: nat, used: nat)
    requires used >= 1
  {
    c.partitionNum != 0 && c.partitionNum < FewestStages(perNode, used)
  }

  function LowStage(c: Settings, layerNum: nat, perNode: nat, used: nat): nat
    requires used >= 1
  {
    Min(if c.partitionNum != 0 then c.partitionNum else FewestStages(perNode, used), layerNum)
  }

  function HighStage(c: Settings, layerNum: nat, perNode: nat, used: nat): nat
    requires used >= 1
  {
    Min(if c.partitionNum != 0 then c.partitionNum else GroupDevices(perNode, used), layerNum)
  }

  /** Everything that belongs to `used` nodes, up to stage number `hi`, is covered. */
  ghost predicate NodeCovered(c: Settings, sols: seq<Solution>, layerNum: nat, perNode: nat, total: nat, used: nat,
                              hi: int)
    requires 1 <= used <= total
  {
    !Skipped(c, perNode, used) ==>
      StagesCovered(c, sols, layerNum, GroupDevices(perNode, used), total / used, LowStage(c, layerNum, perNode, used),
                    hi)
  }

  ghost predicate NodesCovered(c: Settings, sols: seq<Solution>, layerNum: nat, perNode: nat, total: nat, upto: int)
    requires upto <= total
  {
    forall used: nat :: 1 <= used <= upto ==>
      NodeCovered(c, sols, layerNum, perNode, total, used, HighStage(c, layerNum, perNode, used))
  }

  /** `sol` was found on `used` nodes. */
  ghost predicate OnNodes(c: Settings, layerNum: nat, perNode: nat, total: nat, used: nat, sol: Solution)
    requires 1 <= used <= total
  {
    && !Skipped(c, perNode, used)
    && AtStages(c, layerNum, GroupDevices(perNode, used), total / used, LowStage(c, layerNum, perNode, used),
                HighStage(c, layerNum, perNode, used), sol)
  }

  ghost predicate AllOnNodes(c: Settings, layerNum: nat, perNode: nat, total: nat, upto: int, sols: seq<Solution>)
    requires upto <= total
  {
    forall sol :: sol in sols ==> SomeNodes(c, layerNum, perNode, total, upto, sol)
  }

  ghost predicate SomeNodes(c: Settings, layerNum: nat, perNode: nat, total: nat, upto: int, sol: Solution)
    requires upto <= total
  {
    exists used: nat :: 1 <= used <= upto && OnNodes(c, layerNum, perNode, total, used, sol)
  }

  /** Without a full search all solutions have the first numbers of nodes and stages that have any: everything that
      comes before is covered, so nothing was to be found there. */
  ghost predicate StoppedAt(c: Settings, sols: seq<Solution>, layerNum: nat, perNode: nat, total: nat, used: nat,
                            s: nat)
    requires 1 <= used <= total
  {
    && NodesCovered(c, sols, layerNum, perNode, total, used - 1)
    && NodeCovered(c, sols, layerNum, perNode, total, used, s)
    && forall sol :: sol in sols ==> OnNodes(c, layerNum, perNode, total, used, sol) && |sol.plan| == s
  }

  /** What the search collects. */
  ghost predicate Collected(c: Settings, sols: seq<Solution>, layerNum: nat, perNode: nat, total: nat) {
    && InOrder(sols) && AllOnNodes(c, layerNum, perNode, total, total, sols)
    && if c.searchAll || sols == [] then NodesCovered(c, sols, layerNum, perNode, total, total)
       else exists used: nat, s: nat :: 1 <= used <= total && StoppedAt(c, sols, layerNum, perNode, total, used, s)
  }

  /** Where all numbers of nodes are covered, every number of stages that there are devices and layers for is, on the
      least number of nodes that has a device for each. */
  lemma EveryStageNumber(c: Settings, sols: seq<Solution>, layerNum: nat, perNode: nat, total: nat, s: nat)
    returns (used: nat)
    requires perNode >= 1 && c.partitionNum == 0 && 1 <= s <= layerNum && s <= perNode * total
    requires NodesCovered(c, sols, layerNum, perNode, total, total)
    ensures 1 <= used <= total && perNode * (used - 1) < s <= perNode * used
    ensures Covered(c, sols, layerNum, Numbers(s, perNode * used, total / used))
  {
    hide Covered;
    StageNumbersTile(perNode, total, s);
    used :| 1 <= used <= total && HasStages(perNode, used, s);
    assert NodeCovered(c, sols, layerNum, perNode, total, used, HighStage(c, layerNum, perNode, used));
  }

  /** A configured number of stages is covered, as far as there are layers for it, on every number of nodes of which one
      less does not have a device for each. */
  lemma ConfiguredStages(c: Settings, sols: seq<Solution>, layerNum: nat, perNode: nat, total: nat, used: nat)
    requires perNode >= 1 && 1 <= used <= total && c.partitionNum > perNode * (used - 1)
    requires NodesCovered(c, sols, layerNum, perNode, total, total)
    ensures Covered(c, sols, layerNum, Numbers(Min(c.partitionNum, layerNum), perNode * used, total / used))
  {
    hide Covered;
    assert NodeCovered(c, sols, layerNum, perNode, total, used, HighStage(c, layerNum, perNode, used));
  }

  method SearchNode(c: Settings, layerNum: nat, perNode: nat, total: nat, used: nat, already: bool)
    returns (sols: seq<Solution>, ghost last: int)
    requires 1 <= perNode && 1 <= used <= total && total / used >= 1 && (already ==> c.searchAll)
    ensures InOrder(sols) && NodeCovered(c, sols, layerNum, perNode, total, used, last)
    ensures forall sol :: sol in sols ==> OnNodes(c, layerNum, perNode, total, used, sol)
    ensures if c.searchAll || sols == [] then last >= HighStage(c, layerNum, perNode, used)
            else last >= 0 && forall sol :: sol in sols ==> |sol.plan| == last
  {
    hide InOrder, FoundAt, StagesCovered, GroupDevices, FewestStages;
    var low, high := FewestStages(perNode, used), GroupDevices(perNode, used);
    if c.partitionNum != 0 {
      if c.partitionNum < low || high < low {
        Enough(perNode, used);
        assert InOrder([]) by { NoneInOrder(); }
        last := HighStage(c, layerNum, perNode, used);
        return [], last;
      }
      low, high := c.partitionNum, c.partitionNum;
    }
    sols, last :=
      SearchStages(c, layerNum, GroupDevices(perNode, used), total / used, Min(low, layerNum), Min(high, layerNum),
                   already);
    forall sol | sol in sols ensures OnNodes(c, layerNum, perNode, total, used, sol) && last >= 0 {
      assert AtStages(c, layerNum, GroupDevices(perNode, used), total / used, Min(low, layerNum), last, sol);
      Enough(perNode, used);
    }
    assert sols != [] ==> sols[0] in sols;
  }

  lemma Enough(perNode: nat, used: nat)
    requires perNode >= 1 && used >= 1
    ensures FewestStages(perNode, used) <= GroupDevices(perNode, used)
  {
    assert perNode * used == perNode * (used - 1) + perNode;
  }

  lemma NodesMore(c: Settings, layerNum: nat, perNode: nat, total: nat, used: nat, a: seq<Solution>, b: seq<Solution>)
    requires 1 <= perNode && 1 <= used <= total && InOrder(a) && InOrder(b)
    requires NodesCovered(c, a, layerNum, perNode, total, used - 1) &&
             AllOnNodes(c, layerNum, perNode, total, used - 1, a)
    requires forall sol :: sol in b ==> OnNodes(c, layerNum, perNode, total, used, sol)
    ensures InOrder(a + b) && NodesCovered(c, a + b, layerNum, perNode, total, used - 1)
    ensures AllOnNodes(c, layerNum, perNode, total, used, a + b)
  {
    hide InOrder, OnNodes, StagesCovered, Skipped, LowStage, HighStage;
    forall x, y | x in a && y in b ensures Sooner(x, y) {
      assert SomeNodes(c, layerNum, perNode, total, used - 1, x);
      var before: nat :| 1 <= before <= used - 1 && OnNodes(c, layerNum, perNode, total, before, x);
      NodeDevices(c, layerNum, perNode, total, before, x);
      NodeDevices(c, layerNum, perNode, total, used, y);
      MulMonotone(perNode, before, used - 1);
      assert perNode * used == perNode * (used - 1) + perNode;
    }
    OrderTogether(a, b);
    forall k: nat | 1 <= k <= used - 1
      ensures NodeCovered(c, a + b, layerNum, perNode, total, k, HighStage(c, layerNum, perNode, k))
    {
      assert NodeCovered(c, a, layerNum, perNode, total, k, HighStage(c, layerNum, perNode, k));
      NodeCoveredMore(c, a, b, layerNum, perNode, total, k, HighStage(c, layerNum, perNode, k));
    }
    forall sol | sol in a + b ensures SomeNodes(c, layerNum, perNode, total, used, sol) {
      if sol in a { assert SomeNodes(c, layerNum, perNode, total, used - 1, sol); }
    }
  }

  lemma NodeDevices(c: Settings, layerNum: nat, perNode: nat, total: nat, used: nat, sol: Solution)
    requires 1 <= used <= total && OnNodes(c, layerNum, perNode, total, used, sol)
    ensures Devices(sol.plan) == perNode * used
  {
    hide FoundAt, LowStage, HighStage, Skipped;
    FoundNumbers(c, layerNum, Numbers(|sol.plan|, GroupDevices(perNode, used), total / used), sol);
  }

  lemma NodeCoveredMore(c: Settings, a: seq<Solution>, b: seq<Solution>, layerNum: nat, perNode: nat, total: nat,
                        used: nat, hi: int)
    requires 1 <= used <= total
    requires NodeCovered(c, a, layerNum, perNode, total, used, hi) ||
             NodeCovered(c, b, layerNum, perNode, total, used, hi)
    ensures NodeCovered(c, a + b, layerNum, perNode, total, used, hi)
  {
    hide Covered, Skipped, LowStage;
    var group, replicas, low := GroupDevices(perNode, used), total / used, LowStage(c, layerNum, perNode, used);
    if !Skipped(c, perNode, used) {
      forall s: nat | low <= s <= hi ensures Covered(c, a + b, layerNum, Numbers(s, group, replicas)) {
        CoveredMore(c, a, b, layerNum, Numbers(s, group, replicas));
      }
    }
  }

  lemma CoveredFurther(c: Settings, sols: seq<Solution>, layerNum: nat, perNode: nat, total: nat, used: nat, last: int)
    requires 1 <= used <= total && NodesCovered(c, sols, layerNum, perNode, total, used - 1)
    requires NodeCovered(c, sols, layerNum, perNode, total, used, last) && last >= HighStage(c, layerNum, perNode, used)
    ensures NodesCovered(c, sols, layerNum, perNode, total, used)
  {
    hide Covered, Skipped, LowStage, HighStage;
  }

  /** The loop over the number of nodes that one replica uses. */
  method SearchNodes(c: Settings, layerNum: nat, devNum: nat, cudaDevices: nat) returns (sols: seq<Solution>)
    requires devNum >= 1 && cudaDevices >= 1
    ensures Collected(c, sols, layerNum, Min(devNum, cudaDevices), devNum / Min(devNum, cudaDevices))
  {
    var perNode := Min(devNum, cudaDevices);
    var total := devNum / perNode;
    sols := [];
    assert InOrder(sols) && AllOnNodes(c, layerNum, perNode, total, 0, sols);
    assert NodesCovered(c, sols, layerNum, perNode, total, 0);
    hide InOrder, AllOnNodes, NodesCovered, NodeCovered, OnNodes, HighStage;
    var used: nat := 1;
    while used <= total
      invariant 1 <= used <= total + 1
      invariant InOrder(sols) && AllOnNodes(c, layerNum, perNode, total, used - 1, sols)
      invariant NodesCovered(c, sols, layerNum, perNode, total, used - 1)
      invariant !c.searchAll ==> sols == []
      decreases total - used
    {
      DeviceArithmetic(devNum, perNode, used);
      ghost var last;
      var more;
      more, last := SearchNode(c, layerNum, perNode, total, used, sols != []);
      NodesMore(c, layerNum, perNode, total, used, sols, more);
      NodeCoveredMore(c, sols, more, layerNum, perNode, total, used, last);
      ghost var before := sols;
      sols := sols + more;
      if !c.searchAll && sols != [] {
        assert sols == more;
        assert StoppedAt(c, sols, layerNum, perNode, total, used, last);
        AllOnMore(c, layerNum, perNode, total, used, sols);
        return;
      }
      CoveredFurther(c, sols, layerNum, perNode, total, used, last);
      used := used + 1;
    }
  }

  lemma AllOnMore(c: Settings, layerNum: nat, perNode: nat, total: nat, upto: nat, sols: seq<Solution>)
    requires upto <= total && AllOnNodes(c, layerNum, perNode, total, upto, sols)
    ensures AllOnNodes(c, layerNum, perNode, total, total, sols)
  {
    hide OnNodes;
    forall sol | sol in sols ensures SomeNodes(c, layerNum, perNode, total, total, sol) {
      assert SomeNodes(c, layerNum, perNode, total, upto, sol);
    }
  }

  /** Every collected solution is sound. */
  lemma CollectedIsSound(c: Settings, sols: seq<Solution>, layerNum: nat, devNum: nat, cudaDevices: nat, sol: Solution)
    requires devNum >= 1 && cudaDevices >= 1 && sol in sols
    requires Collected(c, sols, layerNum, Min(devNum, cudaDevices), devNum / Min(devNum, cudaDevices))
    ensures Sound(c, layerNum, devNum, sol)
    ensures c.partitionNum != 0 ==> |sol.plan| == Min(c.partitionNum, layerNum)
  {
    hide Sound, FoundAt, InOrder, NodesCovered, StoppedAt;
    var perNode := Min(devNum, cudaDevices);
    var total := devNum / perNode;
    assert SomeNodes(c, layerNum, perNode, total, total, sol);
    var used: nat :| 1 <= used <= total && OnNodes(c, layerNum, perNode, total, used, sol);
    DeviceArithmetic(devNum, perNode, used);
    FoundIsSound(c, layerNum, devNum, Numbers(|sol.plan|, GroupDevices(perNode, used), total / used), sol);
  }

  /** The first solution with the least estimate. */
  ghost predicate IsBest(sols: seq<Solution>, estimate: Solution -> int, at: nat) {
    && at < |sols| && estimate(sols[at]) < LONG_MAX
    && (forall j :: 0 <= j < |sols| ==> estimate(sols[at]) <= estimate(sols[j]))
    && (forall j :: 0 <= j < at ==> estimate(sols[at]) < estimate(sols[j]))
  }

  /** The choice at the end; `None` is the default solution that is left when no estimate is below `LONG_MAX`. */
  method PickBest(sols: seq<Solution>, estimate: Solution -> int) returns (best: Option<nat>)
    ensures best.Some? <==> exists i :: 0 <= i < |sols| && estimate(sols[i]) < LONG_MAX
    ensures best.Some? ==> IsBest(sols, estimate, best.value)
  {
    best := None;
    var bestTime := LONG_MAX;
    for k := 0 to |sols|
      invariant bestTime <= LONG_MAX && forall j :: 0 <= j < k ==> bestTime <= estimate(sols[j])
      invariant best.None? ==> bestTime == LONG_MAX
      invariant best.Some? ==> bestTime < LONG_MAX && best.value < k && estimate(sols[best.value]) == bestTime
                               && forall j :: 0 <= j < best.value ==> bestTime < estimate(sols[j])
    {
      var time := estimate(sols[k]);
      if time < bestTime { bestTime, best := time, Some(k); }
    }
  }

  /** `runDpComm`; no solutions at all stands for its exception. */
  method RunDpComm(c: Settings, layerNum: nat, devNum: nat, cudaDevices: nat, estimate: Solution -> int)
    returns (sols: seq<Solution>, best: Option<nat>)
    requires devNum >= 1 && cudaDevices >= 1
    ensures Collected(c, sols, layerNum, Min(devNum, cudaDevices), devNum / Min(devNum, cudaDevices))
    ensures best.Some? <==> exists i :: 0 <= i < |sols| && estimate(sols[i]) < LONG_MAX
    ensures best.Some? ==> IsBest(sols, estimate, best.value) && Sound(c, layerNum, devNum, sols[best.value])
  {
    hide Sound, Collected;
    sols := SearchNodes(c, layerNum, devNum, cudaDevices);
    best := PickBest(sols, estimate);
    if best.Some? { CollectedIsSound(c, sols, layerNum, devNum, cudaDevices, sols[best.value]); }
  }
}
