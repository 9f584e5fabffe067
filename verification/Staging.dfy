/**
 The stage search of src/graph/DPStaging.cpp: a dynamic program over (stages, right boundary,
 devices) with pruning, and the backtracking that reads a plan out of its table.  Profiling,
 communication and memory costs are an arbitrary function.
 */
module Staging {
  import opened Arithmetic
  import S = Selection

  /** `LONG_MAX / 1024`, the marker of an infeasible state. */
  const ERROR_VAL: int := 9223372036854775807 / 1024

  datatype Cost = Cost(fwd: int, bwd: int, comm: int, mem: int)

  /** `cost(from, to, devs)` of layers `from..to` on `devs` devices of each replica. */
  datatype Problem = Problem(stageNum: nat, layerNum: nat, devNum: nat, batchSize: nat, replicaNum: nat,
                             pipelineNum: nat,
                             minPipelineBs: nat, limitPot: bool, limitMoreThanBs: bool, devMem: int,
                             cost: (nat, nat, nat) -> Cost)
  {
    predicate Valid() { replicaNum > 0 && pipelineNum > 0 && stageNum <= layerNum }
  }

  datatype Cell = Cell(eval: int, maxFwd: int, maxBwd: int, preBoundary: nat, preDevNum: nat)

  const INFEASIBLE := Cell(ERROR_VAL, ERROR_VAL, ERROR_VAL, 0, 0)
  const EMPTY := Cell(0, 0, 0, 0, 0)

  // ---------- device limits ----------

  function Pow2(e: nat): nat { if e == 0 then 1 else 2 * Pow2(e - 1) }

  ghost predicate IsPow2(x: nat) { exists e: nat :: Pow2(e) == x }

  lemma HalfOfPow2(x: nat)
    requires x > 1 && x % 2 == 0
    ensures IsPow2(x) <==> IsPow2(x / 2)
  {
    if e: nat :| Pow2(e) == x {
      assert e > 0 && Pow2(e - 1) == x / 2;
    }
    if e: nat :| Pow2(e) == x / 2 {
      assert Pow2(e + 1) == x;
    }
  }

  lemma OddPow2(x: nat)
    requires x != 1 && (x % 2 == 1 || x == 0)
    ensures !IsPow2(x)
  {
    forall e: nat ensures Pow2(e) != x {
      Pow2Positive(e);
      if e > 0 { DivModUnique(Pow2(e), 2, Pow2(e - 1), 0); }
    }
  }

  lemma {:induction false} Pow2Positive(e: nat)
    ensures Pow2(e) >= 1
  {
    if e > 0 { Pow2Positive(e - 1); }
  }

  method IsPowerOfTwo(n: nat) returns (r: bool)
    ensures r <==> IsPow2(n)
  {
    var x: nat := n;
    while x % 2 == 0 && x > 1
      invariant IsPow2(x) <==> IsPow2(n)
    {
      HalfOfPow2(x);
      x := x / 2;
    }
    if x == 1 { assert Pow2(0) == 1; } else { OddPow2(x); }
    return x == 1;
  }

  /** The enabled limits on the devices of one stage. */
  ghost predicate WithinLimits(p: Problem, devs: nat)
    requires p.Valid() && devs > 0
  {
    && (p.limitMoreThanBs ==> devs <= CeilDiv(p.batchSize, p.replicaNum * p.pipelineNum))
    && (p.limitPot ==> IsPow2(devs))
    && p.minPipelineBs <= CeilDiv(p.batchSize, p.replicaNum * p.pipelineNum * devs)
  }

  method CheckLimits(p: Problem, devs: nat) returns (ok: bool)
    requires p.Valid() && devs > 0
    ensures ok <==> WithinLimits(p, devs)
  {
    if p.limitMoreThanBs && CeilDiv(p.batchSize, p.replicaNum * p.pipelineNum) < devs { return false; }
    if p.limitPot {
      var pot := IsPowerOfTwo(devs);
      if !pot { return false; }
    }
    return p.minPipelineBs <= CeilDiv(p.batchSize, p.replicaNum * p.pipelineNum * devs);
  }

  // ---------- plans, independently of the table ----------

  /** Layers `from..to` on `devs` devices. */
  datatype Stage = Stage(from: nat, to: nat, devs: nat)

  function CostOf(p: Problem, st: Stage): Cost { p.cost(st.from, st.to, st.devs) }

  ghost predicate Fits(p: Problem, st: Stage)
    requires p.Valid()
  {
    st.from < st.to && st.devs > 0 && WithinLimits(p, st.devs) && CostOf(p, st).mem < p.devMem
  }

  function MaxFwd(p: Problem, plan: seq<Stage>): int {
    if plan == [] then 0 else Max(CostOf(p, plan[|plan| - 1]).fwd, MaxFwd(p, plan[..|plan| - 1]))
  }

  function MaxBwd(p: Problem, plan: seq<Stage>): int {
    if plan == [] then 0 else Max(CostOf(p, plan[|plan| - 1]).bwd, MaxBwd(p, plan[..|plan| - 1]))
  }

  /** `estimateEval`: communication counts for the step, not for what came before. */
  function StepValue(c: Cost, prevFwd: int, prevBwd: int): int {
    Max(c.fwd + c.comm, prevFwd) + Max(c.bwd + c.comm, prevBwd)
  }

  /** The value of a plan: the worst step, each step against the stages before it. */
  function PlanValue(p: Problem, plan: seq<Stage>): int {
    if plan == [] then 0
    else
      var front := plan[..|plan| - 1];
      Max(StepValue(CostOf(p, plan[|plan| - 1]), MaxFwd(p, front), MaxBwd(p, front)), PlanValue(p, front))
  }

  function Devices(plan: seq<Stage>): nat {
    if plan == [] then 0 else Devices(plan[..|plan| - 1]) + plan[|plan| - 1].devs
  }

  /** Where the first `i` stages end. */
  function EndBefore(plan: seq<Stage>, i: nat): nat
    requires i <= |plan|
  {
    if i == 0 then 0 else plan[i - 1].to
  }

  /** Non-empty contiguous stages that cover layers `0..layers`, each within memory and limits. */
  ghost predicate IsPlan(p: Problem, plan: seq<Stage>, layers: nat)
    requires p.Valid()
  {
    && (forall i :: 0 <= i < |plan| ==> Fits(p, plan[i]))
    && (forall i :: 0 <= i < |plan| ==> plan[i].from == EndBefore(plan, i))
    && layers == EndBefore(plan, |plan|)
  }

  lemma PlanSnoc(p: Problem, plan: seq<Stage>, st: Stage)
    requires p.Valid() && IsPlan(p, plan, st.from) && Fits(p, st)
    ensures IsPlan(p, plan + [st], st.to)
    ensures Devices(plan + [st]) == Devices(plan) + st.devs
    ensures MaxFwd(p, plan + [st]) == Max(CostOf(p, st).fwd, MaxFwd(p, plan))
    ensures MaxBwd(p, plan + [st]) == Max(CostOf(p, st).bwd, MaxBwd(p, plan))
    ensures PlanValue(p, plan + [st]) ==
              Max(StepValue(CostOf(p, st), MaxFwd(p, plan), MaxBwd(p, plan)), PlanValue(p, plan))
  {
    hide Fits, StepValue, Max;
    var longer := plan + [st];
    assert longer[..|plan|] == plan;
    forall i | 0 <= i < |longer| ensures longer[i].from == EndBefore(longer, i) {
      assert EndBefore(longer, i) == EndBefore(plan, i);
      assert i < |plan| ==> longer[i] == plan[i];
    }
  }

  /** When communication takes no negative time, a plan is worth at least its slowest forward and its slowest backward
      together. */
  lemma ValueAtLeastSlowest(p: Problem, plan: seq<Stage>)
    requires forall i :: 0 <= i < |plan| ==> CostOf(p, plan[i]).comm >= 0
    ensures PlanValue(p, plan) >= MaxFwd(p, plan) + MaxBwd(p, plan)
    ensures forall i :: 0 <= i < |plan| ==>
              CostOf(p, plan[i]).fwd <= MaxFwd(p, plan) && CostOf(p, plan[i]).bwd <= MaxBwd(p, plan)
  {
    SlowestIs(p, plan);
  }

  /** Without communication the value is exactly that. */
  lemma {:induction false} ValueWithoutComm(p: Problem, plan: seq<Stage>)
    requires forall i :: 0 <= i < |plan| ==> CostOf(p, plan[i]).comm == 0
    ensures PlanValue(p, plan) == MaxFwd(p, plan) + MaxBwd(p, plan)
  {
    if plan != [] {
      ValueWithoutComm(p, plan[..|plan| - 1]);
      assert CostOf(p, plan[|plan| - 1]).comm == 0;
    }
  }

  /** One stage is worth its forward and its backward time, with communication in both. */
  lemma OneStageValue(p: Problem, st: Stage)
    requires var c := CostOf(p, st); c.fwd + c.comm >= 0 && c.bwd + c.comm >= 0 && c.fwd + c.bwd + 2 * c.comm >= 0
    ensures PlanValue(p, [st]) == CostOf(p, st).fwd + CostOf(p, st).bwd + 2 * CostOf(p, st).comm
  {
    assert [st][..0] == [];
  }

  /** The value lies between what any one stage takes with its communication, and the slowest forward and backward
      times with the slowest communication added to both. */
  lemma {:induction false} ValueBounds(p: Problem, plan: seq<Stage>, comm: int)
    requires comm >= 0 && forall i :: 0 <= i < |plan| ==> 0 <= CostOf(p, plan[i]).comm <= comm
    ensures forall i :: 0 <= i < |plan| ==>
              CostOf(p, plan[i]).fwd + CostOf(p, plan[i]).bwd + 2 * CostOf(p, plan[i]).comm <= PlanValue(p, plan)
    ensures PlanValue(p, plan) <= MaxFwd(p, plan) + MaxBwd(p, plan) + 2 * comm
  {
    if plan != [] {
      var front := plan[..|plan| - 1];
      assert forall i :: 0 <= i < |front| ==> front[i] == plan[i];
      ValueBounds(p, front, comm);
    }
  }

  /** At step `j` stage `i` counts with its own times, and the stage of the step with its communication as well. */
  function FwdAt(p: Problem, plan: seq<Stage>, j: nat, i: nat): int
    requires i <= j < |plan|
  {
    CostOf(p, plan[i]).fwd + if i == j then CostOf(p, plan[j]).comm else 0
  }

  function BwdAt(p: Problem, plan: seq<Stage>, j: nat, i: nat): int
    requires i <= j < |plan|
  {
    CostOf(p, plan[i]).bwd + if i == j then CostOf(p, plan[j]).comm else 0
  }

  ghost predicate NonNegativeCosts(p: Problem, plan: seq<Stage>) {
    forall i :: 0 <= i < |plan| ==>
      CostOf(p, plan[i]).fwd >= 0 && CostOf(p, plan[i]).bwd >= 0 && CostOf(p, plan[i]).comm >= 0
  }

  /** Stages `i` and `k` are the slowest forward and backward at step `j`. */
  ghost predicate WorstStep(p: Problem, plan: seq<Stage>, j: nat, i: nat, k: nat)
    requires j < |plan| && i <= j && k <= j
  {
    && (forall x: nat :: x <= j ==> FwdAt(p, plan, j, x) <= FwdAt(p, plan, j, i))
    && (forall x: nat :: x <= j ==> BwdAt(p, plan, j, x) <= BwdAt(p, plan, j, k))
    && PlanValue(p, plan) == FwdAt(p, plan, j, i) + BwdAt(p, plan, j, k)
  }

  /** The last step is worth what its slowest stages take. */
  lemma LastStepIs(p: Problem, plan: seq<Stage>) returns (i: nat, k: nat)
    requires plan != [] && NonNegativeCosts(p, plan)
    ensures i < |plan| && k < |plan|
    ensures var j, front := |plan| - 1, plan[..|plan| - 1];
            && (forall x: nat :: x <= j ==> FwdAt(p, plan, j, x) <= FwdAt(p, plan, j, i))
            && (forall x: nat :: x <= j ==> BwdAt(p, plan, j, x) <= BwdAt(p, plan, j, k))
            && StepValue(CostOf(p, plan[j]), MaxFwd(p, front), MaxBwd(p, front)) ==
               FwdAt(p, plan, j, i) + BwdAt(p, plan, j, k)
  {
    var j, front := |plan| - 1, plan[..|plan| - 1];
    SlowestIs(p, front);
    i, k := j, j;
    var c := CostOf(p, plan[j]);
    if MaxFwd(p, front) > c.fwd + c.comm { i :| 0 <= i < |front| && CostOf(p, front[i]).fwd == MaxFwd(p, front); }
    if MaxBwd(p, front) > c.bwd + c.comm { k :| 0 <= k < |front| && CostOf(p, front[k]).bwd == MaxBwd(p, front); }
    assert forall x :: 0 <= x < |front| ==> front[x] == plan[x];
  }

  /** No step is worth more than the plan. */
  lemma {:induction false} StepAtMost(p: Problem, plan: seq<Stage>, j: nat, i: nat, k: nat)
    requires j < |plan| && i <= j && k <= j && NonNegativeCosts(p, plan)
    ensures FwdAt(p, plan, j, i) + BwdAt(p, plan, j, k) <= PlanValue(p, plan)
  {
    var front := plan[..|plan| - 1];
    hide StepValue, CostOf;
    if j < |front| {
      assert forall x :: 0 <= x < |front| ==> front[x] == plan[x];
      StepAtMost(p, front, j, i, k);
    } else {
      var i0, k0 := LastStepIs(p, plan);
    }
  }

  /** With costs that are not negative a plan is worth exactly its worst step: the slowest forward and the slowest
      backward among the stages so far, where the last of them counts with its communication. */
  lemma {:induction false} ValueIs(p: Problem, plan: seq<Stage>)
    requires plan != [] && NonNegativeCosts(p, plan)
    ensures forall j: nat, i: nat, k: nat :: j < |plan| && i <= j && k <= j ==>
              FwdAt(p, plan, j, i) + BwdAt(p, plan, j, k) <= PlanValue(p, plan)
    ensures exists j: nat, i: nat, k: nat :: j < |plan| && i <= j && k <= j && WorstStep(p, plan, j, i, k)
  {
    forall j: nat, i: nat, k: nat | j < |plan| && i <= j && k <= j
      ensures FwdAt(p, plan, j, i) + BwdAt(p, plan, j, k) <= PlanValue(p, plan)
    {
      StepAtMost(p, plan, j, i, k);
    }
    var front := plan[..|plan| - 1];
    var i0, k0 := LastStepIs(p, plan);
    hide StepValue, CostOf, FwdAt, BwdAt;
    if PlanValue(p, plan) == PlanValue(p, front) && front != [] {
      assert NonNegativeCosts(p, front) by { assert forall x :: 0 <= x < |front| ==> front[x] == plan[x]; }
      ValueIs(p, front);
      var j: nat, i: nat, k: nat :| j < |front| && i <= j && k <= j && WorstStep(p, front, j, i, k);
      WorstOfFront(p, plan, j, i, k);
    } else {
      StepAtMost(p, plan, |plan| - 1, i0, k0);
      assert WorstStep(p, plan, |plan| - 1, i0, k0);
    }
  }

  lemma WorstOfFront(p: Problem, plan: seq<Stage>, j: nat, i: nat, k: nat)
    requires plan != [] && j < |plan| - 1 && i <= j && k <= j && WorstStep(p, plan[..|plan| - 1], j, i, k)
    requires PlanValue(p, plan) == PlanValue(p, plan[..|plan| - 1])
    ensures WorstStep(p, plan, j, i, k)
  {
    var front := plan[..|plan| - 1];
    hide PlanValue, CostOf;
    forall x: nat | x <= j
      ensures FwdAt(p, plan, j, x) == FwdAt(p, front, j, x) && BwdAt(p, plan, j, x) == BwdAt(p, front, j, x)
    {
    }
  }

  lemma {:induction false} SlowestIs(p: Problem, plan: seq<Stage>)
    ensures forall i :: 0 <= i < |plan| ==>
              CostOf(p, plan[i]).fwd <= MaxFwd(p, plan) && CostOf(p, plan[i]).bwd <= MaxBwd(p, plan)
    ensures MaxFwd(p, plan) == 0 || exists i :: 0 <= i < |plan| && CostOf(p, plan[i]).fwd == MaxFwd(p, plan)
    ensures MaxBwd(p, plan) == 0 || exists i :: 0 <= i < |plan| && CostOf(p, plan[i]).bwd == MaxBwd(p, plan)
  {
    if plan != [] {
      var front := plan[..|plan| - 1];
      SlowestIs(p, front);
      assert forall i :: 0 <= i < |front| ==> front[i] == plan[i];
      forall i | 0 <= i < |plan|
        ensures CostOf(p, plan[i]).fwd <= MaxFwd(p, plan) && CostOf(p, plan[i]).bwd <= MaxBwd(p, plan)
      {
        assert i < |front| ==> front[i] == plan[i];
      }
    }
  }

  // ---------- the table ----------

  type Row = seq<seq<Cell>>

  /** `table[stage][boundary][used_dev]` */
  type Table = seq<Row>

  ghost predicate IsLevel(p: Problem, row: Row) {
    |row| == p.layerNum + 1 && forall b :: 0 <= b <= p.layerNum ==> |row[b]| == p.devNum + 1
  }

  ghost predicate Shaped(p: Problem, t: Table) {
    |t| == p.stageNum + 1 && forall s :: 0 <= s <= p.stageNum ==> IsLevel(p, t[s])
  }

  function NextCell(p: Problem, prev: Cell, st: Stage, preDevNum: nat): (cell: Cell)
    ensures cell.preBoundary == st.from && cell.preDevNum == preDevNum
  {
    var c := CostOf(p, st);
    Cell(Max(StepValue(c, prev.maxFwd, prev.maxBwd), prev.eval), Max(c.fwd, prev.maxFwd), Max(c.bwd, prev.maxBwd),
         st.from, preDevNum)
  }

  // ---------- steps ----------

  /** A step to (b, d) from state (bPrev, dPrev) of the level below. */
  datatype Move = Move(b: nat, d: nat, bPrev: nat, dPrev: nat)

  predicate IsMove(p: Problem, m: Move) { m.bPrev < m.b <= p.layerNum && m.dPrev < m.d <= p.devNum }

  function StageOf(m: Move): Stage
    requires m.dPrev <= m.d
  {
    Stage(m.bPrev, m.b, m.d - m.dPrev)
  }

  ghost predicate Limited(p: Problem, m: Move)
    requires p.Valid() && IsMove(p, m)
  {
    !WithinLimits(p, m.d - m.dPrev)
  }

  /** The step respects the limits and starts from a feasible state. */
  ghost predicate Open(p: Problem, row: Row, m: Move)
    requires p.Valid() && IsLevel(p, row) && IsMove(p, m)
  {
    !Limited(p, m) && row[m.bPrev][m.dPrev].eval < ERROR_VAL
  }

  ghost predicate InMemory(p: Problem, m: Move)
    requires IsMove(p, m)
  {
    CostOf(p, StageOf(m)).mem < p.devMem
  }

  /** The value of the step, and the state that it leads to. */
  ghost function StepAt(p: Problem, row: Row, m: Move): int
    requires IsLevel(p, row)
  {
    if IsMove(p, m) then StepValue(CostOf(p, StageOf(m)), row[m.bPrev][m.dPrev].maxFwd, row[m.bPrev][m.dPrev].maxBwd)
    else ERROR_VAL
  }

  ghost function CellAt(p: Problem, row: Row, m: Move): Cell
    requires IsLevel(p, row)
  {
    if IsMove(p, m) then NextCell(p, row[m.bPrev][m.dPrev], StageOf(m), m.dPrev) else INFEASIBLE
  }

  /** The loop over earlier device numbers gets as far as `hi`: no smaller one ran out of memory. */
  ghost predicate Tried(p: Problem, row: Row, s: nat, b: nat, d: nat, bPrev: nat, hi: nat)
    requires p.Valid() && IsLevel(p, row) && bPrev < b <= p.layerNum && hi <= d <= p.devNum
  {
    forall e: nat :: s - 1 <= e < hi && Open(p, row, Move(b, d, bPrev, e)) ==> InMemory(p, Move(b, d, bPrev, e))
  }

  /** The first stage starts from the empty state only. */
  ghost predicate InRange(p: Problem, s: nat, m: Move) {
    IsMove(p, m) && s - 1 <= m.bPrev && s - 1 <= m.dPrev && (s == 1 ==> m.bPrev == 0 && m.dPrev == 0)
  }

  /** A step that the search weighs. */
  ghost predicate Considered(p: Problem, row: Row, s: nat, m: Move)
    requires p.Valid() && IsLevel(p, row)
  {
    InRange(p, s, m) && Tried(p, row, s, m.b, m.d, m.bPrev, m.dPrev) && Open(p, row, m) && InMemory(p, m)
  }

  /** A step that the search leaves out because of a limit. */
  ghost predicate Passed(p: Problem, row: Row, s: nat, m: Move)
    requires p.Valid() && IsLevel(p, row)
  {
    InRange(p, s, m) && Tried(p, row, s, m.b, m.d, m.bPrev, m.dPrev) && Limited(p, m)
  }

  /** Leaving the loop when memory runs out loses nothing if fewer devices never need less memory. */
  lemma BreakLosesNothing(p: Problem, row: Row, s: nat, m: Move)
    requires p.Valid() && IsLevel(p, row) && InRange(p, s, m) && Open(p, row, m) && InMemory(p, m)
    requires forall i, j, k, k' :: k <= k' ==> p.cost(i, j, k).mem >= p.cost(i, j, k').mem
    ensures Considered(p, row, s, m)
  {
  }

  // ---------- what a state holds ----------

  ghost function Considering(p: Problem, row: Row, s: nat, b: nat, d: nat): S.Turn -> bool
    requires p.Valid() && IsLevel(p, row)
  {
    (x: S.Turn) => Considered(p, row, s, Move(b, d, x.0, x.1))
  }

  ghost function Passing(p: Problem, row: Row, s: nat, b: nat, d: nat): S.Turn -> bool
    requires p.Valid() && IsLevel(p, row)
  {
    (x: S.Turn) => Passed(p, row, s, Move(b, d, x.0, x.1))
  }

  /** The steps to (b, d): a step costs its value, and is worth the value of the state that it leads to. */
  ghost function Steps(p: Problem, row: Row, s: nat, b: nat, d: nat): S.Contest
    requires p.Valid() && IsLevel(p, row)
  {
    S.Contest(Considering(p, row, s, b, d),
              (x: S.Turn) => StepAt(p, row, Move(b, d, x.0, x.1)),
              (x: S.Turn) => CellAt(p, row, Move(b, d, x.0, x.1)).eval,
              ERROR_VAL)
  }

  ghost function Result(p: Problem, row: Row, b: nat, d: nat, records: seq<S.Turn>): Cell
    requires IsLevel(p, row)
  {
    if records == [] then INFEASIBLE
    else CellAt(p, row, Move(b, d, records[|records| - 1].0, records[|records| - 1].1))
  }

  /** What state (b, d) holds after the steps before `end`. */
  ghost predicate CellIs(p: Problem, row: Row, s: nat, b: nat, d: nat, end: S.Turn, cell: Cell)
    requires p.Valid() && IsLevel(p, row)
  {
    exists records :: S.Records(Steps(p, row, s, b, d), end, records) && cell == Result(p, row, b, d, records)
  }

  /** What it holds after all steps. */
  ghost predicate CellDone(p: Problem, row: Row, s: nat, b: nat, d: nat, cell: Cell)
    requires p.Valid() && IsLevel(p, row)
  {
    CellIs(p, row, s, b, d, (b, 0), cell)
  }

  ghost predicate CellFound(p: Problem, row: Row, s: nat, b: nat, d: nat)
    requires p.Valid() && IsLevel(p, row)
  {
    S.Some(Considering(p, row, s, b, d), (b, 0))
  }

  ghost predicate CellPassed(p: Problem, row: Row, s: nat, b: nat, d: nat)
    requires p.Valid() && IsLevel(p, row)
  {
    S.Some(Passing(p, row, s, b, d), (b, 0))
  }

  /** `m` is a considered step to (b, d). */
  ghost predicate StepTo(p: Problem, row: Row, s: nat, b: nat, d: nat, m: Move)
    requires p.Valid() && IsLevel(p, row)
  {
    m.b == b && m.d == d && Considered(p, row, s, m)
  }

  ghost predicate CellImproved(p: Problem, row: Row, s: nat, b: nat, d: nat)
    requires p.Valid() && IsLevel(p, row)
  {
    exists m :: StepTo(p, row, s, b, d, m) && StepAt(p, row, m) < ERROR_VAL
  }

  /** The order of the loops over earlier boundaries and device numbers. */
  predicate Earlier(m: Move, n: Move) { S.Earlier((m.bPrev, m.dPrev), (n.bPrev, n.dPrev)) }

  lemma StepEntered(p: Problem, row: Row, s: nat, b: nat, d: nat, m: Move)
    requires p.Valid() && IsLevel(p, row)
    ensures StepTo(p, row, s, b, d, m) <==>
            m == Move(b, d, m.bPrev, m.dPrev) && S.Entered(Steps(p, row, s, b, d), (b, 0), (m.bPrev, m.dPrev))
  {
    hide Tried, Open, InMemory;
  }

  lemma EnteredStep(p: Problem, row: Row, s: nat, b: nat, d: nat, x: S.Turn)
    requires p.Valid() && IsLevel(p, row) && S.Entered(Steps(p, row, s, b, d), (b, 0), x)
    ensures StepTo(p, row, s, b, d, Move(b, d, x.0, x.1))
  {
  }

  lemma WorthBelow(p: Problem, row: Row, s: nat, m: Move)
    requires p.Valid() && IsLevel(p, row) && Considered(p, row, s, m) && StepAt(p, row, m) < ERROR_VAL
    ensures CellAt(p, row, m).eval < ERROR_VAL
  {
  }

  /** A state is feasible exactly when some considered step to it is below the error value. It then holds what one of
      these steps leads to, and no step that comes after that one is cheaper than the state. */
  lemma LastRecord(p: Problem, row: Row, s: nat, b: nat, d: nat, cell: Cell) returns (m: Move)
    requires p.Valid() && IsLevel(p, row) && CellDone(p, row, s, b, d, cell)
    ensures cell.eval < ERROR_VAL <==> CellImproved(p, row, s, b, d)
    ensures cell.eval >= ERROR_VAL ==> cell == INFEASIBLE
    ensures cell.eval < ERROR_VAL ==>
              && StepTo(p, row, s, b, d, m) && cell == CellAt(p, row, m) && StepAt(p, row, m) < ERROR_VAL
              && forall x :: StepTo(p, row, s, b, d, x) && Earlier(m, x) ==> StepAt(p, row, x) >= cell.eval
  {
    var c := Steps(p, row, s, b, d);
    var records: seq<S.Turn> :| S.Records(c, (b, 0), records) && cell == Result(p, row, b, d, records);
    hide S.Records, StepTo, Considered, StepAt, CellAt;
    S.NoneRecorded(c, (b, 0), records);
    forall x | StepTo(p, row, s, b, d, x)
      ensures S.Entered(c, (b, 0), (x.bPrev, x.dPrev))
    {
      StepEntered(p, row, s, b, d, x);
    }
    forall x | S.Entered(c, (b, 0), x)
      ensures StepTo(p, row, s, b, d, Move(b, d, x.0, x.1))
    {
      EnteredStep(p, row, s, b, d, x);
    }
    if records == [] {
      m := Move(b, d, 0, 0);
      forall x | StepTo(p, row, s, b, d, x) ensures StepAt(p, row, x) >= ERROR_VAL { StepCost(p, row, s, b, d, x); }
    } else {
      var last: S.Turn := records[|records| - 1];
      m := Move(b, d, last.0, last.1);
      forall x | S.Entered(c, (b, 0), x) && c.cost(x) < c.start ensures c.worth(x) < c.start {
        StepIsConsidered(p, row, s, b, d, Move(b, d, x.0, x.1));
        WorthBelow(p, row, s, Move(b, d, x.0, x.1));
      }
      S.RecordsBelow(c, (b, 0), records, |records| - 1);
      S.RecordEntered(c, (b, 0), records, |records| - 1);
      forall x | StepTo(p, row, s, b, d, x) && Earlier(m, x) ensures StepAt(p, row, x) >= cell.eval {
        StepCost(p, row, s, b, d, x);
        S.LaterCostMore(c, (b, 0), records, (x.bPrev, x.dPrev));
      }
    }
  }

  lemma StepIsConsidered(p: Problem, row: Row, s: nat, b: nat, d: nat, m: Move)
    requires p.Valid() && IsLevel(p, row) && StepTo(p, row, s, b, d, m)
    ensures Considered(p, row, s, m)
  {
  }

  lemma StepCost(p: Problem, row: Row, s: nat, b: nat, d: nat, m: Move)
    requires p.Valid() && IsLevel(p, row) && StepTo(p, row, s, b, d, m)
    ensures Steps(p, row, s, b, d).cost((m.bPrev, m.dPrev)) == StepAt(p, row, m)
    ensures Steps(p, row, s, b, d).worth((m.bPrev, m.dPrev)) == CellAt(p, row, m).eval
  {
    hide Considered, StepAt, CellAt;
    assert m == Move(b, d, m.bPrev, m.dPrev);
  }

  /** There is no communication, and feasible states are worth their slowest forward and backward time together. */
  ghost predicate Plain(p: Problem, row: Row)
    requires IsLevel(p, row)
  {
    && (forall i, j, k :: p.cost(i, j, k).comm == 0)
    && forall b: nat, d: nat :: b <= p.layerNum && d <= p.devNum && row[b][d].eval < ERROR_VAL ==>
         row[b][d].eval == row[b][d].maxFwd + row[b][d].maxBwd
  }

  lemma PlainStep(p: Problem, row: Row, s: nat, m: Move)
    requires p.Valid() && IsLevel(p, row) && Plain(p, row) && Considered(p, row, s, m)
    ensures CellAt(p, row, m).eval == StepAt(p, row, m)
  {
    assert p.cost(m.bPrev, m.b, m.d - m.dPrev).comm == 0;
  }

  /** No considered step to (b, d) is cheaper than `value`, and one is as cheap unless there is none below the error
      value. */
  ghost predicate Least(p: Problem, row: Row, s: nat, b: nat, d: nat, value: int)
    requires p.Valid() && IsLevel(p, row)
  {
    && (forall x :: StepTo(p, row, s, b, d, x) ==> value <= StepAt(p, row, x))
    && (value < ERROR_VAL ==> exists x :: StepTo(p, row, s, b, d, x) && value == StepAt(p, row, x))
  }

  /** Without communication a state is worth the least of all considered steps to it. */
  lemma LeastStep(p: Problem, row: Row, s: nat, b: nat, d: nat, cell: Cell)
    requires p.Valid() && IsLevel(p, row) && Plain(p, row) && CellDone(p, row, s, b, d, cell)
    ensures Least(p, row, s, b, d, cell.eval)
  {
    var m := LastRecord(p, row, s, b, d, cell);
    if cell.eval < ERROR_VAL { PlainStep(p, row, s, m); }
    var c := Steps(p, row, s, b, d);
    var records: seq<S.Turn> :| S.Records(c, (b, 0), records) && cell == Result(p, row, b, d, records);
    hide S.Records, Considered, StepAt, CellAt, Plain;
    forall x | S.Entered(c, (b, 0), x) ensures c.worth(x) == c.cost(x) {
      PlainStep(p, row, s, Move(b, d, x.0, x.1));
    }
    forall x | StepTo(p, row, s, b, d, x) ensures cell.eval <= StepAt(p, row, x) {
      StepEntered(p, row, s, b, d, x);
      S.LastIsLeast(c, (b, 0), records, (x.bPrev, x.dPrev));
    }
  }

  // ---------- one state ----------

  /** A step that is not considered, or not cheaper, leaves the state as it is. */
  lemma StateKept(p: Problem, row: Row, s: nat, m: Move, cell: Cell)
    requires p.Valid() && IsLevel(p, row) && CellIs(p, row, s, m.b, m.d, (m.bPrev, m.dPrev), cell)
    requires Considered(p, row, s, m) ==> StepAt(p, row, m) >= cell.eval
    ensures CellIs(p, row, s, m.b, m.d, (m.bPrev, m.dPrev + 1), cell)
  {
    hide S.Records, Considered, StepAt, CellAt;
    var c, x := Steps(p, row, s, m.b, m.d), (m.bPrev, m.dPrev);
    var records :| S.Records(c, x, records) && cell == Result(p, row, m.b, m.d, records);
    assert m == Move(m.b, m.d, x.0, x.1);
    S.RecordKept(c, x, records);
  }

  /** A cheaper one that is considered replaces it. */
  lemma StateReplaced(p: Problem, row: Row, s: nat, m: Move, cell: Cell)
    requires p.Valid() && IsLevel(p, row) && CellIs(p, row, s, m.b, m.d, (m.bPrev, m.dPrev), cell)
    requires Considered(p, row, s, m) && StepAt(p, row, m) < cell.eval
    ensures CellIs(p, row, s, m.b, m.d, (m.bPrev, m.dPrev + 1), CellAt(p, row, m))
  {
    hide S.Records, Considered, StepAt, CellAt;
    var c, x := Steps(p, row, s, m.b, m.d), (m.bPrev, m.dPrev);
    var records :| S.Records(c, x, records) && cell == Result(p, row, m.b, m.d, records);
    assert m == Move(m.b, m.d, x.0, x.1);
    S.RecordAdded(c, x, records);
    assert CellAt(p, row, m) == Result(p, row, m.b, m.d, records + [x]);
  }

  /** One earlier state; `cell` is the state (b, d) so far. */
  method SearchStep(p: Problem, row: Row, s: nat, m: Move, cell: Cell)
    returns (cell': Cell, tooMuch: bool, found: bool, skipped: bool)
    requires p.Valid() && IsLevel(p, row) && InRange(p, s, m) && Tried(p, row, s, m.b, m.d, m.bPrev, m.dPrev)
    requires CellIs(p, row, s, m.b, m.d, (m.bPrev, m.dPrev), cell)
    ensures tooMuch <==> Open(p, row, m) && !InMemory(p, m)
    ensures found <==> Considered(p, row, s, m)
    ensures skipped <==> Passed(p, row, s, m)
    ensures CellIs(p, row, s, m.b, m.d, (m.bPrev, m.dPrev + 1), cell')
  {
    hide CellIs, WithinLimits, Tried, StepValue;
    cell', tooMuch, found, skipped := cell, false, false, false;
    var prev := row[m.bPrev][m.dPrev];
    var within := CheckLimits(p, m.d - m.dPrev);
    if within && prev.eval < ERROR_VAL && CostOf(p, StageOf(m)).mem < p.devMem {
      found := true;
      var stepValue := StepValue(CostOf(p, StageOf(m)), prev.maxFwd, prev.maxBwd);
      if cell.eval > stepValue {
        cell' := NextCell(p, prev, StageOf(m), m.dPrev);
        StateReplaced(p, row, s, m, cell);
      } else {
        StateKept(p, row, s, m, cell);
      }
    } else {
      skipped := !within;
      tooMuch := within && prev.eval < ERROR_VAL;
      StateKept(p, row, s, m, cell);
    }
  }

  /** No step between `end` and `end'` is weighed or left out. */
  lemma SkipQuiet(p: Problem, row: Row, s: nat, b: nat, d: nat, end: S.Turn, end': S.Turn, cell: Cell)
    requires p.Valid() && IsLevel(p, row) && CellIs(p, row, s, b, d, end, cell) && Quiet(p, row, s, b, d, end, end')
    ensures CellIs(p, row, s, b, d, end', cell)
    ensures S.Some(Considering(p, row, s, b, d), end) <==> S.Some(Considering(p, row, s, b, d), end')
    ensures S.Some(Passing(p, row, s, b, d), end) <==> S.Some(Passing(p, row, s, b, d), end')
  {
    hide S.Records, S.Quiet, S.Some;
    var records: seq<S.Turn> :| S.Records(Steps(p, row, s, b, d), end, records) &&
      cell == Result(p, row, b, d, records);
    S.SkipQuiet(Steps(p, row, s, b, d), end, end', records);
    S.SomeQuiet(Considering(p, row, s, b, d), end, end');
    S.SomeQuiet(Passing(p, row, s, b, d), end, end');
  }

  ghost predicate Quiet(p: Problem, row: Row, s: nat, b: nat, d: nat, end: S.Turn, end': S.Turn)
    requires p.Valid() && IsLevel(p, row)
  {
    S.Quiet(Considering(p, row, s, b, d), end, end') && S.Quiet(Passing(p, row, s, b, d), end, end')
  }

  lemma DevStart(p: Problem, row: Row, s: nat, b: nat, d: nat, bPrev: nat)
    requires p.Valid() && IsLevel(p, row) && 1 <= s <= d <= p.devNum && bPrev < b <= p.layerNum
    ensures Tried(p, row, s, b, d, bPrev, s - 1)
    ensures Quiet(p, row, s, b, d, (bPrev, 0), (bPrev, s - 1))
  {
  }

  lemma NotBeyond(p: Problem, row: Row, s: nat, b: nat, d: nat, bPrev: nat, hi: nat, e: nat)
    requires p.Valid() && IsLevel(p, row) && s >= 1 && bPrev < b <= p.layerNum && hi <= e && hi <= d <= p.devNum
    requires hi == d || (s == 1 && hi == 1) || !Tried(p, row, s, b, d, bPrev, hi)
    ensures !Considered(p, row, s, Move(b, d, bPrev, e)) && !Passed(p, row, s, Move(b, d, bPrev, e))
  {
    hide Open, InMemory, Limited;
  }

  /** Nothing is weighed beyond a step that ran out of memory, or beyond the empty state for the first stage. */
  lemma DevEnd(p: Problem, row: Row, s: nat, b: nat, d: nat, bPrev: nat, hi: nat)
    requires p.Valid() && IsLevel(p, row) && s >= 1 && bPrev < b <= p.layerNum && hi <= d <= p.devNum
    requires hi == d || (s == 1 && hi == 1) || !Tried(p, row, s, b, d, bPrev, hi)
    ensures Quiet(p, row, s, b, d, (bPrev, hi), (bPrev + 1, 0))
  {
    hide Considered, Passed, Tried;
    forall e: nat | hi <= e
      ensures !Considered(p, row, s, Move(b, d, bPrev, e)) && !Passed(p, row, s, Move(b, d, bPrev, e))
    {
      NotBeyond(p, row, s, b, d, bPrev, hi, e);
    }
  }

  lemma TriedOneMore(p: Problem, row: Row, s: nat, m: Move)
    requires p.Valid() && IsLevel(p, row) && InRange(p, s, m) && Tried(p, row, s, m.b, m.d, m.bPrev, m.dPrev)
    ensures Tried(p, row, s, m.b, m.d, m.bPrev, m.dPrev + 1) <==> !(Open(p, row, m) && !InMemory(p, m))
  {
    hide Open, InMemory;
    assert m == Move(m.b, m.d, m.bPrev, m.dPrev);
  }

  /** The loop over the devices of the earlier stages, for one earlier boundary. */
  method SearchDevs(p: Problem, row: Row, s: nat, b: nat, d: nat, bPrev: nat, cell: Cell)
    returns (cell': Cell, found: bool, skipped: bool)
    requires p.Valid() && IsLevel(p, row)
    requires 1 <= s <= d <= p.devNum && s - 1 <= bPrev < b <= p.layerNum && (s == 1 ==> bPrev == 0)
    requires CellIs(p, row, s, b, d, (bPrev, 0), cell)
    ensures CellIs(p, row, s, b, d, (bPrev + 1, 0), cell')
    ensures var considering := Considering(p, row, s, b, d);
            S.Some(considering, (bPrev + 1, 0)) <==> found || S.Some(considering, (bPrev, 0))
    ensures var passing := Passing(p, row, s, b, d);
            S.Some(passing, (bPrev + 1, 0)) <==> skipped || S.Some(passing, (bPrev, 0))
  {
    hide Open, InMemory, Limited, Tried, Quiet, CellIs, S.Some, Considered, Passed;
    ghost var considering, passing := Considering(p, row, s, b, d), Passing(p, row, s, b, d);
    cell', found, skipped := cell, false, false;
    DevStart(p, row, s, b, d, bPrev);
    SkipQuiet(p, row, s, b, d, (bPrev, 0), (bPrev, s - 1), cell);
    var dPrev: nat := s - 1;
    var limit := if s == 1 then 1 else d;
    ghost var reached: nat := dPrev;
    while dPrev < limit
      invariant s - 1 <= dPrev <= limit && reached == dPrev
      invariant Tried(p, row, s, b, d, bPrev, dPrev)
      invariant S.Some(considering, (bPrev, dPrev)) <==> found || S.Some(considering, (bPrev, 0))
      invariant S.Some(passing, (bPrev, dPrev)) <==> skipped || S.Some(passing, (bPrev, 0))
      invariant CellIs(p, row, s, b, d, (bPrev, dPrev), cell')
    {
      var m := Move(b, d, bPrev, dPrev);
      S.SomeNext(considering, (bPrev, dPrev));
      S.SomeNext(passing, (bPrev, dPrev));
      TriedOneMore(p, row, s, m);
      var tooMuch, isFound, isSkipped;
      cell', tooMuch, isFound, isSkipped := SearchStep(p, row, s, m, cell');
      found, skipped := found || isFound, skipped || isSkipped;
      reached := dPrev + 1;
      if tooMuch { break; }
      dPrev := dPrev + 1;
    }
    DevEnd(p, row, s, b, d, bPrev, reached);
    SkipQuiet(p, row, s, b, d, (bPrev, reached), (bPrev + 1, 0), cell');
  }

  lemma NoSteps(p: Problem, row: Row, s: nat, b: nat, d: nat)
    requires p.Valid() && IsLevel(p, row) && 1 <= s <= b <= p.layerNum
    ensures CellIs(p, row, s, b, d, (s - 1, 0), INFEASIBLE)
    ensures !S.Some(Considering(p, row, s, b, d), (s - 1, 0)) && !S.Some(Passing(p, row, s, b, d), (s - 1, 0))
  {
    S.NothingYet(Steps(p, row, s, b, d));
    assert Result(p, row, b, d, []) == INFEASIBLE;
    assert CellIs(p, row, s, b, d, (0, 0), INFEASIBLE);
    hide Tried, Open, InMemory, Limited, CellIs;
    assert Quiet(p, row, s, b, d, (0, 0), (s - 1, 0));
    SkipQuiet(p, row, s, b, d, (0, 0), (s - 1, 0), INFEASIBLE);
  }

  lemma LastSteps(p: Problem, row: Row, s: nat, b: nat, d: nat, limit: nat)
    requires p.Valid() && IsLevel(p, row) && s >= 1 && b >= 1 && limit == if s == 1 then 1 else b
    ensures Quiet(p, row, s, b, d, (limit, 0), (b, 0))
  {
    hide Tried, Open, InMemory, Limited;
  }

  /** The loop over the right boundaries of the earlier stages: the state (b, d). */
  method SearchCell(p: Problem, row: Row, s: nat, b: nat, d: nat) returns (cell: Cell, found: bool, skipped: bool)
    requires p.Valid() && IsLevel(p, row) && 1 <= s <= d <= p.devNum && s <= b <= p.layerNum
    ensures found <==> CellFound(p, row, s, b, d)
    ensures skipped <==> CellPassed(p, row, s, b, d)
    ensures CellDone(p, row, s, b, d, cell)
  {
    hide Quiet, CellIs, S.Some;
    cell, found, skipped := INFEASIBLE, false, false;
    NoSteps(p, row, s, b, d);
    var bPrev: nat := s - 1;
    var limit := if s == 1 then 1 else b;
    while bPrev < limit
      invariant s - 1 <= bPrev <= limit
      invariant found <==> S.Some(Considering(p, row, s, b, d), (bPrev, 0))
      invariant skipped <==> S.Some(Passing(p, row, s, b, d), (bPrev, 0))
      invariant CellIs(p, row, s, b, d, (bPrev, 0), cell)
    {
      var isFound, isSkipped;
      cell, isFound, isSkipped := SearchDevs(p, row, s, b, d, bPrev, cell);
      found, skipped := found || isFound, skipped || isSkipped;
      bPrev := bPrev + 1;
    }
    LastSteps(p, row, s, b, d, limit);
    SkipQuiet(p, row, s, b, d, (limit, 0), (b, 0), cell);
  }

  // ---------- which states are searched ----------

  /** No step to (b, d) is weighed, and none is left out because of a limit: the search gives up on fewer devices. */
  ghost predicate GivesUp(p: Problem, row: Row, s: nat, b: nat, d: nat)
    requires p.Valid() && IsLevel(p, row)
  {
    !CellFound(p, row, s, b, d) && !CellPassed(p, row, s, b, d)
  }

  ghost predicate KeepsOn(p: Problem, row: Row, s: nat, b: nat, d: int)
    requires p.Valid() && IsLevel(p, row)
  {
    forall e: nat :: d < e <= p.devNum ==> !GivesUp(p, row, s, b, e)
  }

  /** Device numbers are searched downwards to `minD`, and no further than where the search gives up. */
  ghost predicate Searched(p: Problem, row: Row, s: nat, b: nat, minD: nat, d: nat)
    requires p.Valid() && IsLevel(p, row)
  {
    Max(minD, s) <= d <= p.devNum && KeepsOn(p, row, s, b, d)
  }

  ghost predicate LastSearched(p: Problem, row: Row, s: nat, b: nat, minD: nat, d: nat)
    requires p.Valid() && IsLevel(p, row)
  {
    Searched(p, row, s, b, minD, d) && GivesUp(p, row, s, b, d)
  }

  /** The least device number for the next boundary: one more than where the search gave up. */
  ghost predicate NextMin(p: Problem, row: Row, s: nat, b: nat, minD: nat, minD': nat)
    requires p.Valid() && IsLevel(p, row)
  {
    if exists d: nat :: LastSearched(p, row, s, b, minD, d)
    then exists d: nat :: LastSearched(p, row, s, b, minD, d) && minD' == d + 1
    else minD' == minD
  }

  ghost predicate FoundDown(p: Problem, row: Row, s: nat, b: nat, minD: nat)
    requires p.Valid() && IsLevel(p, row)
  {
    exists d: nat :: Searched(p, row, s, b, minD, d) && CellFound(p, row, s, b, d)
  }

  /** The states of one boundary: what the search makes of those that it searches, and the others untouched. */
  ghost predicate StatesAre(p: Problem, row: Row, s: nat, b: nat, minD: nat, states: seq<Cell>)
    requires p.Valid() && IsLevel(p, row)
  {
    |states| == p.devNum + 1
    && forall d: nat :: d <= p.devNum ==> StateIs(p, row, s, b, d, Searched(p, row, s, b, minD, d), states[d])
  }

  ghost predicate StateIs(p: Problem, row: Row, s: nat, b: nat, d: nat, searched: bool, cell: Cell)
    requires p.Valid() && IsLevel(p, row)
  {
    if searched then CellDone(p, row, s, b, d, cell) else cell == INFEASIBLE
  }

  ghost predicate Untouched(states: seq<Cell>) { forall d :: 0 <= d < |states| ==> states[d] == INFEASIBLE }

  /** States above `d` hold what the search makes of them, the others are untouched. */
  ghost predicate StatesDown(p: Problem, row: Row, s: nat, b: nat, d: int, states: seq<Cell>)
    requires p.Valid() && IsLevel(p, row)
  {
    && |states| == p.devNum + 1
    && forall e: nat :: e <= p.devNum ==> StateIs(p, row, s, b, e, d < e, states[e])
  }

  /** And the search did not give up on them. */
  ghost predicate DownTo(p: Problem, row: Row, s: nat, b: nat, d: int, states: seq<Cell>)
    requires p.Valid() && IsLevel(p, row)
  {
    KeepsOn(p, row, s, b, d) && StatesDown(p, row, s, b, d, states)
  }

  ghost predicate FoundAbove(p: Problem, row: Row, s: nat, b: nat, d: int)
    requires p.Valid() && IsLevel(p, row)
  {
    exists e: nat :: d < e <= p.devNum && CellFound(p, row, s, b, e)
  }

  lemma DownStart(p: Problem, row: Row, s: nat, b: nat, states: seq<Cell>)
    requires p.Valid() && IsLevel(p, row) && |states| == p.devNum + 1 && Untouched(states)
    ensures DownTo(p, row, s, b, p.devNum, states) && !FoundAbove(p, row, s, b, p.devNum)
  {
  }

  lemma DownStep(p: Problem, row: Row, s: nat, b: nat, d: nat, before: seq<Cell>, cell: Cell)
    requires p.Valid() && IsLevel(p, row) && d <= p.devNum && DownTo(p, row, s, b, d, before)
    requires CellDone(p, row, s, b, d, cell)
    ensures StatesDown(p, row, s, b, d - 1, before[d := cell])
    ensures !GivesUp(p, row, s, b, d) ==> DownTo(p, row, s, b, d - 1, before[d := cell])
    ensures FoundAbove(p, row, s, b, d - 1) <==> FoundAbove(p, row, s, b, d) || CellFound(p, row, s, b, d)
  {
    hide GivesUp, CellDone, CellFound;
    var states := before[d := cell];
    forall e: nat | e <= p.devNum ensures StateIs(p, row, s, b, e, d - 1 < e, states[e]) {
      assert StateIs(p, row, s, b, e, d < e, before[e]);
    }
  }

  /** The loop ended at `low` without giving up. */
  lemma DownEnd(p: Problem, row: Row, s: nat, b: nat, minD: nat, low: int, states: seq<Cell>)
    requires p.Valid() && IsLevel(p, row) && DownTo(p, row, s, b, low - 1, states)
    requires low <= p.devNum + 1 && (low == p.devNum + 1 || low >= Max(minD, s)) && low - 1 < Max(minD, s)
    ensures StatesAre(p, row, s, b, minD, states) && NextMin(p, row, s, b, minD, minD)
    ensures FoundDown(p, row, s, b, minD) <==> FoundAbove(p, row, s, b, low - 1)
  {
    hide GivesUp, CellDone, CellFound;
    forall d: nat | d <= p.devNum ensures Searched(p, row, s, b, minD, d) <==> low - 1 < d { }
  }

  /** The loop gave up at `low`. */
  lemma DownGaveUp(p: Problem, row: Row, s: nat, b: nat, minD: nat, low: nat, states: seq<Cell>)
    requires p.Valid() && IsLevel(p, row) && Max(minD, s) <= low <= p.devNum
    requires KeepsOn(p, row, s, b, low) && GivesUp(p, row, s, b, low)
    requires StatesDown(p, row, s, b, low - 1, states)
    ensures StatesAre(p, row, s, b, minD, states) && NextMin(p, row, s, b, minD, low + 1)
    ensures FoundDown(p, row, s, b, minD) <==> FoundAbove(p, row, s, b, low - 1)
  {
    hide GivesUp, CellDone, CellFound;
    forall d: nat | d <= p.devNum ensures Searched(p, row, s, b, minD, d) <==> low - 1 < d { }
    assert LastSearched(p, row, s, b, minD, low);
  }

  /** The loop over device numbers, downwards, until a state has no solution and no limit was the reason. */
  method SearchDown(p: Problem, row: Row, s: nat, b: nat, minD: nat, blank: seq<Cell>)
    returns (states: seq<Cell>, found: bool, minD': nat)
    requires p.Valid() && IsLevel(p, row) && 1 <= s <= b <= p.layerNum && |blank| == p.devNum + 1 && Untouched(blank)
    ensures StatesAre(p, row, s, b, minD, states)
    ensures found <==> FoundDown(p, row, s, b, minD)
    ensures NextMin(p, row, s, b, minD, minD')
  {
    states, found, minD' := blank, false, minD;
    DownStart(p, row, s, b, blank);
    hide CellFound, CellPassed, CellDone, StatesAre, FoundDown, NextMin, FoundAbove, StateIs, KeepsOn, Untouched;
    var d := p.devNum;
    while d >= minD && d >= s
      invariant d <= p.devNum && (d == p.devNum || d + 1 >= Max(minD, s))
      invariant DownTo(p, row, s, b, d, states)
      invariant found <==> FoundAbove(p, row, s, b, d)
      invariant minD' == minD
      decreases d
    {
      var cell, isFound, isSkipped := SearchCell(p, row, s, b, d);
      DownStep(p, row, s, b, d, states, cell);
      states := states[d := cell];
      found := found || isFound;
      if !isFound && !isSkipped {
        minD' := d + 1;
        DownGaveUp(p, row, s, b, minD, d, states);
        return;
      }
      d := d - 1;
    }
    DownEnd(p, row, s, b, minD, d + 1, states);
  }

  // ---------- one level and all levels ----------

  function FirstBoundary(p: Problem, s: nat): nat { if s == p.stageNum then p.layerNum else s }

  lemma NextMinExists(p: Problem, row: Row, s: nat, b: nat, minD: nat)
    requires p.Valid() && IsLevel(p, row)
    ensures exists minD': nat :: NextMin(p, row, s, b, minD, minD')
  {
    hide LastSearched;
    if d: nat :| LastSearched(p, row, s, b, minD, d) {
      assert NextMin(p, row, s, b, minD, d + 1);
    } else {
      assert NextMin(p, row, s, b, minD, minD);
    }
  }

  /** There is one place at most where the search gives up. */
  lemma NextMinIsOne(p: Problem, row: Row, s: nat, b: nat, minD: nat, x: nat, y: nat)
    requires p.Valid() && IsLevel(p, row) && NextMin(p, row, s, b, minD, x) && NextMin(p, row, s, b, minD, y)
    ensures x == y
  {
    hide GivesUp;
  }

  /** The least device number at boundary number `i` of a level. */
  ghost function MinAt(p: Problem, row: Row, s: nat, i: nat): nat
    requires p.Valid() && IsLevel(p, row)
  {
    if i == 0 then 1
    else
      NextMinExists(p, row, s, FirstBoundary(p, s) + i - 1, MinAt(p, row, s, i - 1));
      var minD: nat :| NextMin(p, row, s, FirstBoundary(p, s) + i - 1, MinAt(p, row, s, i - 1), minD);
      minD
  }

  /** Some state of boundary number `i` has a solution. */
  ghost predicate Solved(p: Problem, row: Row, s: nat, i: nat)
    requires p.Valid() && IsLevel(p, row)
  {
    FoundDown(p, row, s, FirstBoundary(p, s) + i, MinAt(p, row, s, i))
  }

  ghost predicate SolvedTo(p: Problem, row: Row, s: nat, i: int)
    requires p.Valid() && IsLevel(p, row)
  {
    forall j: nat :: j < i ==> Solved(p, row, s, j)
  }

  /** Boundary number `i` of a level is searched: it is in range, and every earlier one has a solution. */
  ghost predicate Reached(p: Problem, row: Row, s: nat, i: nat)
    requires p.Valid() && IsLevel(p, row)
  {
    FirstBoundary(p, s) + i <= p.layerNum - p.stageNum + s && SolvedTo(p, row, s, i)
  }

  ghost predicate BoundaryIs(p: Problem, row: Row, s: nat, b: nat, states: seq<Cell>)
    requires p.Valid() && IsLevel(p, row)
  {
    var first := FirstBoundary(p, s);
    if b >= first && Reached(p, row, s, b - first)
    then StatesAre(p, row, s, b, MinAt(p, row, s, b - first), states)
    else Untouched(states)
  }

  /** The states of a level, given those of the level below. */
  ghost predicate LevelIs(p: Problem, row: Row, s: nat, level: Row)
    requires p.Valid() && IsLevel(p, row)
  {
    IsLevel(p, level) && forall b: nat :: b <= p.layerNum ==> BoundaryIs(p, row, s, b, level[b])
  }

  ghost predicate Blank(level: Row) { forall b :: 0 <= b < |level| ==> Untouched(level[b]) }

  ghost predicate Empty(p: Problem, level: Row) {
    IsLevel(p, level) && forall b, d :: 0 <= b <= p.layerNum && 0 <= d <= p.devNum ==> level[b][d] == EMPTY
  }

  /** Levels below `s` are done, the others blank. */
  ghost predicate TableTo(p: Problem, t: Table, s: nat)
    requires p.Valid()
  {
    && Shaped(p, t) && Empty(p, t[0])
    && (forall k: nat :: 1 <= k < s && k <= p.stageNum ==> LevelIs(p, t[k - 1], k, t[k]))
    && forall k: nat :: s <= k <= p.stageNum && 1 <= k ==> Blank(t[k])
  }

  ghost predicate TableIs(p: Problem, t: Table)
    requires p.Valid()
  {
    TableTo(p, t, p.stageNum + 1)
  }

  /** Boundaries below `b` are done, and each of them has a solution. */
  ghost predicate LevelTo(p: Problem, row: Row, s: nat, b: nat, minD: nat, level: Row)
    requires p.Valid() && IsLevel(p, row)
  {
    && IsLevel(p, level) && FirstBoundary(p, s) <= b && BoundariesTo(p, row, s, b, level)
    && minD == MinAt(p, row, s, b - FirstBoundary(p, s)) && SolvedTo(p, row, s, b - FirstBoundary(p, s))
  }

  lemma LevelStart(p: Problem, row: Row, s: nat, blank: Row)
    requires p.Valid() && IsLevel(p, row) && IsLevel(p, blank) && Blank(blank)
    ensures LevelTo(p, row, s, FirstBoundary(p, s), 1, blank)
  {
    hide Untouched;
  }

  /** One more boundary. */
  lemma LevelStep(p: Problem, row: Row, s: nat, b: nat, minD: nat, level: Row, states: seq<Cell>, minD': nat)
    requires p.Valid() && IsLevel(p, row) && LevelTo(p, row, s, b, minD, level) && b <= p.layerNum
    requires StatesAre(p, row, s, b, minD, states) && NextMin(p, row, s, b, minD, minD')
    ensures IsLevel(p, level[b := states]) && BoundariesTo(p, row, s, b + 1, level[b := states])
    ensures FoundDown(p, row, s, b, minD) ==> LevelTo(p, row, s, b + 1, minD', level[b := states])
  {
    hide NextMin, MinAt, FoundDown;
    MinStep(p, row, s, b - FirstBoundary(p, s), minD');
    hide StatesAre, Untouched;
    assert |states| == p.devNum + 1 by { StatesLength(p, row, s, b, minD, states); }
    var longer := level[b := states];
    forall k: nat | k <= p.layerNum ensures BoundaryTo(p, row, s, k, b + 1, longer[k]) {
      assert BoundaryTo(p, row, s, k, b, level[k]);
    }
  }

  lemma StatesLength(p: Problem, row: Row, s: nat, b: nat, minD: nat, states: seq<Cell>)
    requires p.Valid() && IsLevel(p, row) && StatesAre(p, row, s, b, minD, states)
    ensures |states| == p.devNum + 1
  {
  }

  /** One right boundary. */
  method SearchBoundary(p: Problem, row: Row, s: nat, b: nat, minD: nat, level: Row)
    returns (level': Row, found: bool, minD': nat)
    requires p.Valid() && IsLevel(p, row) && 1 <= s <= p.stageNum && LevelTo(p, row, s, b, minD, level)
    requires FirstBoundary(p, s) <= b <= p.layerNum - p.stageNum + s
    ensures if found then LevelTo(p, row, s, b + 1, minD', level') else LevelIs(p, row, s, level')
  {
    hide LevelTo, LevelIs, IsLevel, Untouched, StatesAre, NextMin, FoundDown, BoundariesTo;
    BoundaryFree(p, row, s, b, minD, level);
    var states;
    states, found, minD' := SearchDown(p, row, s, b, minD, level[b]);
    LevelStep(p, row, s, b, minD, level, states, minD');
    level' := level[b := states];
    if !found { LevelUnsolved(p, row, s, b, minD, level, level'); }
  }

  /** The loop over right boundaries; it stops at a boundary without any solution. */
  method SearchLevel(p: Problem, row: Row, s: nat, blank: Row) returns (level: Row)
    requires p.Valid() && IsLevel(p, row) && 1 <= s <= p.stageNum && IsLevel(p, blank) && Blank(blank)
    ensures LevelIs(p, row, s, level)
  {
    hide LevelTo, LevelIs, IsLevel, Blank;
    level := blank;
    var minD: nat := 1;
    var first, last := FirstBoundary(p, s), p.layerNum - p.stageNum + s;
    var b := first;
    LevelStart(p, row, s, blank);
    while b <= last
      invariant first <= b <= last + 1
      invariant LevelTo(p, row, s, b, minD, level)
    {
      var found;
      level, found, minD := SearchBoundary(p, row, s, b, minD, level);
      if !found { return; }
      b := b + 1;
    }
    LevelAll(p, row, s, b, minD, level);
  }

  lemma BoundaryFree(p: Problem, row: Row, s: nat, b: nat, minD: nat, level: Row)
    requires p.Valid() && IsLevel(p, row) && LevelTo(p, row, s, b, minD, level) && b <= p.layerNum
    ensures |level| == p.layerNum + 1 && |level[b]| == p.devNum + 1 && Untouched(level[b])
  {
    assert BoundaryTo(p, row, s, b, b, level[b]);
  }

  lemma LevelUnsolved(p: Problem, row: Row, s: nat, b: nat, minD: nat, before: Row, level: Row)
    requires p.Valid() && IsLevel(p, row) && 1 <= s <= p.stageNum && b <= p.layerNum - p.stageNum + s
    requires LevelTo(p, row, s, b, minD, before) && !FoundDown(p, row, s, b, minD)
    requires IsLevel(p, level) && BoundariesTo(p, row, s, b + 1, level)
    ensures LevelIs(p, row, s, level)
  {
    hide MinAt, FoundDown, BoundariesTo, LevelIs;
    assert !Solved(p, row, s, b - FirstBoundary(p, s));
    LevelEnd(p, row, s, b + 1, level);
  }

  lemma LevelAll(p: Problem, row: Row, s: nat, b: nat, minD: nat, level: Row)
    requires p.Valid() && IsLevel(p, row) && 1 <= s <= p.stageNum && LevelTo(p, row, s, b, minD, level)
    requires b == p.layerNum - p.stageNum + s + 1
    ensures LevelIs(p, row, s, level)
  {
    hide MinAt, Solved, BoundariesTo, LevelIs;
    assert SolvedTo(p, row, s, b - FirstBoundary(p, s) - 1);
    LevelEnd(p, row, s, b, level);
  }

  /** Boundaries below `b` are done, the others untouched. */
  ghost predicate BoundaryTo(p: Problem, row: Row, s: nat, k: nat, b: nat, states: seq<Cell>)
    requires p.Valid() && IsLevel(p, row)
  {
    var first := FirstBoundary(p, s);
    if first <= k < b then StatesAre(p, row, s, k, MinAt(p, row, s, k - first), states) else Untouched(states)
  }

  ghost predicate BoundariesTo(p: Problem, row: Row, s: nat, b: nat, level: Row)
    requires p.Valid() && IsLevel(p, row) && IsLevel(p, level)
  {
    forall k: nat :: k <= p.layerNum ==> BoundaryTo(p, row, s, k, b, level[k])
  }

  lemma MinStep(p: Problem, row: Row, s: nat, i: nat, minD: nat)
    requires p.Valid() && IsLevel(p, row)
    requires NextMin(p, row, s, FirstBoundary(p, s) + i, MinAt(p, row, s, i), minD)
    ensures minD == MinAt(p, row, s, i + 1)
  {
    hide NextMin;
    NextMinIsOne(p, row, s, FirstBoundary(p, s) + i, MinAt(p, row, s, i), minD, MinAt(p, row, s, i + 1));
  }

  lemma LevelEnd(p: Problem, row: Row, s: nat, b: nat, level: Row)
    requires p.Valid() && IsLevel(p, row) && IsLevel(p, level) && 1 <= s <= p.stageNum
    requires FirstBoundary(p, s) <= b <= p.layerNum + 1
    requires BoundariesTo(p, row, s, b, level)
    requires b <= p.layerNum - p.stageNum + s + 1 && SolvedTo(p, row, s, b - FirstBoundary(p, s) - 1)
    requires if b == p.layerNum - p.stageNum + s + 1 then true
             else b > FirstBoundary(p, s) && !Solved(p, row, s, b - FirstBoundary(p, s) - 1)
    ensures LevelIs(p, row, s, level)
  {
    hide StatesAre, Untouched, Solved, MinAt;
    forall k: nat | k <= p.layerNum ensures BoundaryIs(p, row, s, k, level[k]) {
      assert BoundaryTo(p, row, s, k, b, level[k]);
    }
  }

  method MakeTable(p: Problem) returns (t: Table)
    requires p.Valid()
    ensures TableTo(p, t, 1)
  {
    t := seq(p.stageNum + 1, s =>
           seq(p.layerNum + 1, b => seq(p.devNum + 1, d => if s == 0 then EMPTY else INFEASIBLE)));
  }

  lemma TableMore(p: Problem, t: Table, t': Table, s: nat, level: Row)
    requires p.Valid() && 1 <= s <= p.stageNum && TableTo(p, t, s)
    requires LevelIs(p, t[s - 1], s, level) && t' == t[s := level]
    ensures TableTo(p, t', s + 1)
  {
    assert IsLevel(p, level);
    hide LevelIs, Blank;
    assert Shaped(p, t');
    forall k: nat | 1 <= k < s + 1 && k <= p.stageNum ensures LevelIs(p, t'[k - 1], k, t'[k]) {
      assert k < s ==> LevelIs(p, t[k - 1], k, t[k]);
    }
  }

  /** The loop over levels. Together with the laws of `TableIs` this fixes every state. */
  method Fill(p: Problem) returns (t: Table)
    requires p.Valid()
    ensures TableIs(p, t)
  {
    t := MakeTable(p);
    hide LevelIs, Blank;
    var s: nat := 1;
    while s <= p.stageNum
      invariant 1 <= s <= p.stageNum + 1 && TableTo(p, t, s)
    {
      ghost var before := t;
      assert Blank(t[s]);
      var level := SearchLevel(p, t[s - 1], s, t[s]);
      t := t[s := level];
      TableMore(p, before, t, s, level);
      s := s + 1;
    }
  }

  // ---------- the table is determined ----------

  lemma CellIsOne(p: Problem, row: Row, s: nat, b: nat, d: nat, x: Cell, y: Cell)
    requires p.Valid() && IsLevel(p, row) && CellDone(p, row, s, b, d, x) && CellDone(p, row, s, b, d, y)
    ensures x == y
  {
    hide S.Records, Steps, CellAt;
    var c := Steps(p, row, s, b, d);
    var i: seq<S.Turn> :| S.Records(c, (b, 0), i) && x == Result(p, row, b, d, i);
    var j: seq<S.Turn> :| S.Records(c, (b, 0), j) && y == Result(p, row, b, d, j);
    S.RecordsAreOne(c, (b, 0), i, j);
  }

  lemma StatesAreOne(p: Problem, row: Row, s: nat, b: nat, minD: nat, x: seq<Cell>, y: seq<Cell>)
    requires p.Valid() && IsLevel(p, row) && StatesAre(p, row, s, b, minD, x) && StatesAre(p, row, s, b, minD, y)
    ensures x == y
  {
    hide Searched, CellIs;
    forall d: nat | d <= p.devNum ensures x[d] == y[d] {
      assert StateIs(p, row, s, b, d, Searched(p, row, s, b, minD, d), x[d]);
      assert StateIs(p, row, s, b, d, Searched(p, row, s, b, minD, d), y[d]);
      if Searched(p, row, s, b, minD, d) { CellIsOne(p, row, s, b, d, x[d], y[d]); }
    }
  }

  lemma LevelIsOne(p: Problem, row: Row, s: nat, x: Row, y: Row)
    requires p.Valid() && IsLevel(p, row) && LevelIs(p, row, s, x) && LevelIs(p, row, s, y)
    ensures x == y
  {
    hide StatesAre, Reached, MinAt;
    var first := FirstBoundary(p, s);
    forall b: nat | b <= p.layerNum ensures x[b] == y[b] {
      assert BoundaryIs(p, row, s, b, x[b]) && BoundaryIs(p, row, s, b, y[b]);
      if b >= first && Reached(p, row, s, b - first) {
        StatesAreOne(p, row, s, b, MinAt(p, row, s, b - first), x[b], y[b]);
      }
    }
  }

  lemma {:induction false} TablePrefix(p: Problem, x: Table, y: Table, s: nat)
    requires p.Valid() && TableIs(p, x) && TableIs(p, y) && s <= p.stageNum
    ensures x[s] == y[s]
  {
    hide LevelIs;
    if s == 0 {
      forall b | 0 <= b <= p.layerNum ensures x[0][b] == y[0][b] { }
    } else {
      TablePrefix(p, x, y, s - 1);
      assert LevelIs(p, x[s - 1], s, x[s]) && LevelIs(p, y[s - 1], s, y[s]);
      LevelIsOne(p, x[s - 1], s, x[s], y[s]);
    }
  }

  /** There is one table that the search can end with. */
  lemma TableIsOne(p: Problem, x: Table, y: Table)
    requires p.Valid() && TableIs(p, x) && TableIs(p, y)
    ensures x == y
  {
    forall s | 0 <= s <= p.stageNum ensures x[s] == y[s] { TablePrefix(p, x, y, s); }
  }

  // ---------- what every state of the table means ----------

  /** `cell` extends the plan of a feasible state of the level below by one stage. */
  ghost predicate Extends(p: Problem, cell: Cell, below: Row, s: nat, b: nat, d: nat)
    requires p.Valid() && IsLevel(p, below)
  {
    && cell.preBoundary <= p.layerNum && cell.preDevNum <= p.devNum && cell.preDevNum <= d
    && Fits(p, Stage(cell.preBoundary, b, d - cell.preDevNum))
    && (s == 1 ==> cell.preBoundary == 0 && cell.preDevNum == 0)
    && below[cell.preBoundary][cell.preDevNum].eval < ERROR_VAL
    && cell == NextCell(p, below[cell.preBoundary][cell.preDevNum], Stage(cell.preBoundary, b, d - cell.preDevNum),
                        cell.preDevNum)
  }

  ghost predicate CellOk(p: Problem, t: Table, s: nat, b: nat, d: nat)
    requires p.Valid() && Shaped(p, t) && s <= p.stageNum && b <= p.layerNum && d <= p.devNum
  {
    if s == 0 then t[0][b][d] == EMPTY else t[s][b][d].eval < ERROR_VAL ==> Extends(p, t[s][b][d], t[s - 1], s, b, d)
  }

  ghost predicate TableOk(p: Problem, t: Table)
    requires p.Valid()
  {
    Shaped(p, t) &&
    forall s: nat, b: nat, d: nat :: s <= p.stageNum && b <= p.layerNum && d <= p.devNum ==> CellOk(p, t, s, b, d)
  }

  /** A state was searched, or is infeasible. */
  lemma SearchedOr(p: Problem, t: Table, s: nat, b: nat, d: nat)
    requires p.Valid() && TableIs(p, t) && 1 <= s <= p.stageNum && b <= p.layerNum && d <= p.devNum
    ensures Shaped(p, t) && (CellDone(p, t[s - 1], s, b, d, t[s][b][d]) || t[s][b][d] == INFEASIBLE)
  {
    hide CellDone, Reached, MinAt, Searched;
    assert LevelIs(p, t[s - 1], s, t[s]);
    assert BoundaryIs(p, t[s - 1], s, b, t[s][b]);
    var first := FirstBoundary(p, s);
    if b >= first && Reached(p, t[s - 1], s, b - first) {
      var minD := MinAt(p, t[s - 1], s, b - first);
      assert StateIs(p, t[s - 1], s, b, d, Searched(p, t[s - 1], s, b, minD, d), t[s][b][d]);
    }
  }

  lemma CellIsOk(p: Problem, t: Table, s: nat, b: nat, d: nat)
    requires p.Valid() && TableIs(p, t) && s <= p.stageNum && b <= p.layerNum && d <= p.devNum
    ensures Shaped(p, t) && CellOk(p, t, s, b, d)
  {
    if s > 0 {
      SearchedOr(p, t, s, b, d);
      hide TableIs, CellDone, WithinLimits;
      if t[s][b][d].eval < ERROR_VAL { var m := LastRecord(p, t[s - 1], s, b, d, t[s][b][d]); }
    }
  }

  lemma TableIsOk(p: Problem, t: Table)
    requires p.Valid() && TableIs(p, t)
    ensures TableOk(p, t)
  {
    hide CellOk;
    forall s: nat, b: nat, d: nat | s <= p.stageNum && b <= p.layerNum && d <= p.devNum
      ensures Shaped(p, t) && CellOk(p, t, s, b, d)
    {
      CellIsOk(p, t, s, b, d);
    }
    CellIsOk(p, t, 0, 0, 0);
  }

  /** The first boundary of a level is searched down to the first state that gives up. */
  lemma FirstSearched(p: Problem, t: Table, s: nat, d: nat)
    requires p.Valid() && TableIs(p, t) && Shaped(p, t) && 1 <= s <= d <= p.devNum && s <= p.stageNum
    requires KeepsOn(p, t[s - 1], s, FirstBoundary(p, s), d)
    ensures CellDone(p, t[s - 1], s, FirstBoundary(p, s), d, t[s][FirstBoundary(p, s)][d])
  {
    hide CellDone, KeepsOn, Solved;
    var first := FirstBoundary(p, s);
    assert LevelIs(p, t[s - 1], s, t[s]);
    assert BoundaryIs(p, t[s - 1], s, first, t[s][first]);
    assert Reached(p, t[s - 1], s, 0) && MinAt(p, t[s - 1], s, 0) == 1;
    assert StateIs(p, t[s - 1], s, first, d, Searched(p, t[s - 1], s, first, 1, d), t[s][first][d]);
  }

  /** The state that is asked for is always searched. */
  lemma TargetDone(p: Problem, t: Table)
    requires p.Valid() && TableIs(p, t) && Shaped(p, t) && 1 <= p.stageNum <= p.devNum
    ensures CellDone(p, t[p.stageNum - 1], p.stageNum, p.layerNum, p.devNum, t[p.stageNum][p.layerNum][p.devNum])
  {
    FirstSearched(p, t, p.stageNum, p.devNum);
  }

  /** Everything on the way to (s, s, s) finds a solution below the error value. */
  ghost predicate Chained(p: Problem, t: Table, s: nat)
    requires p.Valid() && Shaped(p, t) && 1 <= s <= p.stageNum
  {
    s <= p.devNum && CellImproved(p, t[s - 1], s, s, s) && AllFound(p, t[s - 1], s)
  }

  ghost predicate AllFound(p: Problem, row: Row, s: nat)
    requires p.Valid() && IsLevel(p, row)
  {
    forall d: nat :: s <= d <= p.devNum ==> CellFound(p, row, s, s, d)
  }

  lemma AllFoundKeepsOn(p: Problem, row: Row, s: nat)
    requires p.Valid() && IsLevel(p, row) && AllFound(p, row, s)
    ensures KeepsOn(p, row, s, s, s)
  {
    hide CellFound;
    forall e: nat | s < e <= p.devNum ensures !GivesUp(p, row, s, s, e) { assert CellFound(p, row, s, s, e); }
  }

  lemma ChainDone(p: Problem, t: Table, s: nat)
    requires p.Valid() && TableIs(p, t) && Shaped(p, t) && 1 <= s < p.stageNum && Chained(p, t, s)
    ensures t[s][s][s].eval < ERROR_VAL
  {
    hide TableIs, CellImproved, CellFound, CellDone;
    AllFoundKeepsOn(p, t[s - 1], s);
    FirstSearched(p, t, s, s);
    var m := LastRecord(p, t[s - 1], s, s, s, t[s][s][s]);
  }

  // ---------- reading the plan out of the table ----------

  /** The plan behind a feasible state. */
  ghost function PlanOf(p: Problem, t: Table, s: nat, b: nat, d: nat): seq<Stage>
    requires p.Valid() && TableOk(p, t) && s <= p.stageNum && b <= p.layerNum && d <= p.devNum
    requires s > 0 ==> t[s][b][d].eval < ERROR_VAL
    decreases s
  {
    if s == 0 then []
    else
      assert CellOk(p, t, s, b, d);
      var cell := t[s][b][d];
      PlanOf(p, t, s - 1, cell.preBoundary, cell.preDevNum) + [Stage(cell.preBoundary, b, d - cell.preDevNum)]
  }

  /** A feasible state stands for a plan of its stages, layers and devices, and holds the value of that plan. */
  lemma {:induction false} PlanOfIsPlan(p: Problem, t: Table, s: nat, b: nat, d: nat)
    requires p.Valid() && TableOk(p, t) && s <= p.stageNum && b <= p.layerNum && d <= p.devNum
    requires if s == 0 then b == 0 && d == 0 else t[s][b][d].eval < ERROR_VAL
    ensures var plan := PlanOf(p, t, s, b, d);
            && |plan| == s && IsPlan(p, plan, b) && Devices(plan) == d
            && t[s][b][d].eval == PlanValue(p, plan) && t[s][b][d].maxFwd == MaxFwd(p, plan) &&
            t[s][b][d].maxBwd == MaxBwd(p, plan)
  {
    assert CellOk(p, t, s, b, d);
    if s > 0 {
      var cell := t[s][b][d];
      PlanOfIsPlan(p, t, s - 1, cell.preBoundary, cell.preDevNum);
      var front := PlanOf(p, t, s - 1, cell.preBoundary, cell.preDevNum);
      hide TableOk, StepValue, Max, Fits;
      PlanSnoc(p, front, Stage(cell.preBoundary, b, d - cell.preDevNum));
    }
  }

  /** Without communication, so is every level of the table. */
  lemma TablePlain(p: Problem, t: Table, s: nat)
    requires p.Valid() && TableIs(p, t) && s <= p.stageNum && forall i, j, k :: p.cost(i, j, k).comm == 0
    ensures Shaped(p, t) && Plain(p, t[s])
  {
    TableIsOk(p, t);
    hide TableIs;
    forall b: nat, d: nat | b <= p.layerNum && d <= p.devNum && t[s][b][d].eval < ERROR_VAL
      ensures t[s][b][d].eval == t[s][b][d].maxFwd + t[s][b][d].maxBwd
    {
      assert CellOk(p, t, s, b, d);
      if s > 0 {
        hide TableOk;
        PlanOfIsPlan(p, t, s, b, d);
        ValueWithoutComm(p, PlanOf(p, t, s, b, d));
      }
    }
  }

  /** Without communication, every state that is searched is worth the least of the steps to it. */
  lemma StateIsLeast(p: Problem, t: Table, s: nat, b: nat, d: nat)
    requires p.Valid() && TableIs(p, t) && Shaped(p, t) && forall i, j, k :: p.cost(i, j, k).comm == 0
    requires 1 <= s <= p.stageNum && b <= p.layerNum && d <= p.devNum && CellDone(p, t[s - 1], s, b, d, t[s][b][d])
    ensures Least(p, t[s - 1], s, b, d, t[s][b][d].eval)
  {
    hide TableIs, CellDone, Plain, StepTo;
    TablePlain(p, t, s - 1);
    LeastStep(p, t[s - 1], s, b, d, t[s][b][d]);
  }

  /** No considered step to (b, d) that comes after the recorded one is cheaper than the state. */
  ghost predicate NoneLaterCheaper(p: Problem, row: Row, s: nat, b: nat, d: nat, cell: Cell)
    requires p.Valid() && IsLevel(p, row)
  {
    forall x :: StepTo(p, row, s, b, d, x) && Earlier(Move(b, d, cell.preBoundary, cell.preDevNum), x) ==>
      StepAt(p, row, x) >= cell.eval
  }

  /** What every feasible state of the table keeps of the steps to it. */
  lemma StateIsLast(p: Problem, t: Table, s: nat, b: nat, d: nat)
    requires p.Valid() && TableIs(p, t) && Shaped(p, t) && 1 <= s <= p.stageNum && b <= p.layerNum && d <= p.devNum
    requires t[s][b][d].eval < ERROR_VAL
    ensures NoneLaterCheaper(p, t[s - 1], s, b, d, t[s][b][d])
  {
    SearchedOr(p, t, s, b, d);
    hide TableIs, CellDone, StepTo, StepAt;
    var m := LastRecord(p, t[s - 1], s, b, d, t[s][b][d]);
  }

  method Backtrack(p: Problem, t: Table) returns (plan: seq<Stage>)
    requires p.Valid() && TableOk(p, t) && Shaped(p, t)
    ensures if p.stageNum > 0 && t[p.stageNum][p.layerNum][p.devNum].eval < ERROR_VAL
            then plan == PlanOf(p, t, p.stageNum, p.layerNum, p.devNum) else plan == []
  {
    ghost var feasible := t[p.stageNum][p.layerNum][p.devNum].eval < ERROR_VAL;
    var bestD: nat := if t[p.stageNum][p.layerNum][p.devNum].eval < ERROR_VAL then p.devNum else 0;
    var s: nat, b: nat, d: nat := p.stageNum, p.layerNum, bestD;
    plan := [];
    if s > 0 && !feasible { ZeroDevices(p, t, s, b); }
    hide TableOk;
    while s > 0
      invariant s <= p.stageNum && b <= p.layerNum && d <= p.devNum
      invariant s == p.stageNum ==> plan == []
      invariant !feasible ==> s == p.stageNum && (s > 0 ==> t[s][b][d].eval >= ERROR_VAL)
      invariant feasible && p.stageNum > 0 ==> (s > 0 ==> t[s][b][d].eval < ERROR_VAL)
      invariant feasible && p.stageNum > 0 ==>
                  PlanOf(p, t, p.stageNum, p.layerNum, p.devNum) == PlanOf(p, t, s, b, d) + plan
    {
      var cell := t[s][b][d];
      if cell.eval >= ERROR_VAL { return []; }
      PreviousFeasible(p, t, s, b, d);
      plan := [Stage(cell.preBoundary, b, d - cell.preDevNum)] + plan;
      s, b, d := s - 1, cell.preBoundary, cell.preDevNum;
    }
  }

  /** No state with stages but without devices is feasible. */
  lemma ZeroDevices(p: Problem, t: Table, s: nat, b: nat)
    requires p.Valid() && TableOk(p, t) && 1 <= s <= p.stageNum && b <= p.layerNum
    ensures t[s][b][0].eval >= ERROR_VAL
  {
    assert CellOk(p, t, s, b, 0);
  }

  lemma PreviousFeasible(p: Problem, t: Table, s: nat, b: nat, d: nat)
    requires p.Valid() && TableOk(p, t) && 1 <= s <= p.stageNum && b <= p.layerNum && d <= p.devNum &&
             t[s][b][d].eval < ERROR_VAL
    ensures var cell := t[s][b][d];
            && cell.preBoundary <= p.layerNum && cell.preDevNum <= p.devNum && cell.preDevNum <= d
            && (s - 1 > 0 ==> t[s - 1][cell.preBoundary][cell.preDevNum].eval < ERROR_VAL)
            && PlanOf(p, t, s, b, d) == PlanOf(p, t, s - 1, cell.preBoundary, cell.preDevNum) +
            [Stage(cell.preBoundary, b, d - cell.preDevNum)]
  {
    assert CellOk(p, t, s, b, d);
  }

  // ---------- the whole search ----------

  /** Every stage fits, and no step comes near the error value. */
  ghost predicate Roomy(p: Problem)
    requires p.Valid()
  {
    forall st: Stage :: st.from < st.to <= p.layerNum && 1 <= st.devs <= p.devNum ==>
      Fits(p, st) && Quick(CostOf(p, st))
  }

  predicate Quick(c: Cost) { c.comm >= 0 && 2 * (c.fwd + c.comm) < ERROR_VAL && 2 * (c.bwd + c.comm) < ERROR_VAL }

  lemma {:induction false} QuickStates(p: Problem, t: Table, s: nat, b: nat, d: nat)
    requires p.Valid() && TableOk(p, t) && Roomy(p) && s <= p.stageNum && b <= p.layerNum && d <= p.devNum
    requires s > 0 ==> t[s][b][d].eval < ERROR_VAL
    ensures 2 * t[s][b][d].maxFwd < ERROR_VAL && 2 * t[s][b][d].maxBwd < ERROR_VAL
  {
    assert CellOk(p, t, s, b, d);
    if s > 0 {
      var cell := t[s][b][d];
      QuickStates(p, t, s - 1, cell.preBoundary, cell.preDevNum);
      assert Quick(CostOf(p, Stage(cell.preBoundary, b, d - cell.preDevNum)));
    }
  }

  /** With room everywhere, the step from (s - 1, s - 1, s - 1) is always considered and good. */
  lemma RoomyStep(p: Problem, t: Table, s: nat, b: nat, d: nat)
    requires p.Valid() && TableOk(p, t) && Roomy(p) && 1 <= s <= p.stageNum && s <= b <= p.layerNum &&
             s <= d <= p.devNum
    requires s > 1 ==> t[s - 1][s - 1][s - 1].eval < ERROR_VAL
    ensures CellFound(p, t[s - 1], s, b, d) && CellImproved(p, t[s - 1], s, b, d)
  {
    var m, row := Move(b, d, s - 1, s - 1), t[s - 1];
    QuickStates(p, t, s - 1, s - 1, s - 1);
    assert CellOk(p, t, s - 1, s - 1, s - 1);
    assert Fits(p, StageOf(m)) && Quick(CostOf(p, StageOf(m)));
    assert Considered(p, row, s, m) && StepAt(p, row, m) < ERROR_VAL;
    assert StepTo(p, row, s, b, d, m);
    StepEntered(p, row, s, b, d, m);
  }

  lemma RoomyRow(p: Problem, t: Table, s: nat, row: seq<seq<Cell>>)
    requires p.Valid() && TableOk(p, t) && Roomy(p) && 1 <= s < p.stageNum <= p.devNum && row == t[s - 1]
    requires s > 1 ==> t[s - 1][s - 1][s - 1].eval < ERROR_VAL
    ensures AllFound(p, row, s)
  {
    assert IsLevel(p, row);
    hide CellFound, CellImproved, Roomy, TableOk;
    forall d: nat | s <= d <= p.devNum ensures CellFound(p, row, s, s, d) { RoomyStep(p, t, s, s, d); }
  }

  lemma RoomyLink(p: Problem, t: Table, s: nat)
    requires p.Valid() && TableOk(p, t) && Roomy(p) && 1 <= s < p.stageNum <= p.devNum
    requires s > 1 ==> t[s - 1][s - 1][s - 1].eval < ERROR_VAL
    ensures Shaped(p, t) && Chained(p, t, s)
  {
    assert Shaped(p, t);
    hide CellFound, CellImproved, Roomy, TableOk, AllFound;
    RoomyRow(p, t, s, t[s - 1]);
    RoomyStep(p, t, s, s, s);
  }

  lemma {:induction false} RoomyChain(p: Problem, t: Table, s: nat)
    requires p.Valid() && TableOk(p, t) && Shaped(p, t) && TableIs(p, t) && Roomy(p) && 1 <= s < p.stageNum <= p.devNum
    ensures t[s][s][s].eval < ERROR_VAL
  {
    hide Chained, TableOk, TableIs, Roomy;
    if s > 1 { RoomyChain(p, t, s - 1); }
    RoomyLink(p, t, s);
    ChainDone(p, t, s);
  }

  /** With one stage there is one step to consider. */
  lemma SingleStage(p: Problem, t: Table)
    requires p.Valid() && TableOk(p, t) && p.stageNum == 1 && p.devNum >= 1
    ensures CellImproved(p, t[0], 1, p.layerNum, p.devNum) <==>
            Fits(p, Stage(0, p.layerNum, p.devNum)) &&
            StepValue(CostOf(p, Stage(0, p.layerNum, p.devNum)), 0, 0) < ERROR_VAL
  {
    var m, row := Move(p.layerNum, p.devNum, 0, 0), t[0];
    assert CellOk(p, t, 0, 0, 0);
    assert row[0][0] == EMPTY;
    hide WithinLimits, StepValue, Tried;
    assert StepTo(p, row, 1, m.b, m.d, m) <==> Fits(p, StageOf(m));
    hide Fits;
    forall x | StepTo(p, row, 1, p.layerNum, p.devNum, x) ensures x == m { OneStep(p, row, x); }
  }

  lemma OneStep(p: Problem, row: Row, x: Move)
    requires p.Valid() && IsLevel(p, row) && StepTo(p, row, 1, p.layerNum, p.devNum, x)
    ensures x == Move(p.layerNum, p.devNum, 0, 0)
  {
  }

  /** The plan and the value that a table gives. */
  ghost predicate Answer(p: Problem, t: Table, plan: seq<Stage>, value: int)
    requires p.Valid() && TableIs(p, t)
  {
    TableIsOk(p, t);
    && value == t[p.stageNum][p.layerNum][p.devNum].eval
    && plan == if p.stageNum > 0 && value < ERROR_VAL then PlanOf(p, t, p.stageNum, p.layerNum, p.devNum) else []
  }

  lemma TargetIsLeast(p: Problem, t: Table)
    requires p.Valid() && TableIs(p, t) && Shaped(p, t) && 1 <= p.stageNum <= p.devNum
    requires forall i, j, k :: p.cost(i, j, k).comm == 0
    ensures Least(p, t[p.stageNum - 1], p.stageNum, p.layerNum, p.devNum, t[p.stageNum][p.layerNum][p.devNum].eval)
  {
    TargetDone(p, t);
    hide TableIs, CellDone, Least;
    StateIsLeast(p, t, p.stageNum, p.layerNum, p.devNum);
  }

  /** When the state that is asked for is feasible. */
  lemma Succeeds(p: Problem, t: Table)
    requires p.Valid() && TableOk(p, t) && Shaped(p, t) && TableIs(p, t) && 1 <= p.stageNum <= p.devNum
    ensures Roomy(p) ==> t[p.stageNum][p.layerNum][p.devNum].eval < ERROR_VAL
    ensures p.stageNum == 1 ==>
              (t[1][p.layerNum][p.devNum].eval < ERROR_VAL <==>
               Fits(p, Stage(0, p.layerNum, p.devNum)) &&
               StepValue(CostOf(p, Stage(0, p.layerNum, p.devNum)), 0, 0) < ERROR_VAL)
  {
    TargetDone(p, t);
    hide TableOk, TableIs, CellImproved, CellDone, Roomy, Fits, StepValue;
    var m := LastRecord(p, t[p.stageNum - 1], p.stageNum, p.layerNum, p.devNum, t[p.stageNum][p.layerNum][p.devNum]);
    if p.stageNum == 1 { SingleStage(p, t); }
    if Roomy(p) {
      if p.stageNum > 1 { RoomyChain(p, t, p.stageNum - 1); }
      RoomyStep(p, t, p.stageNum, p.layerNum, p.devNum);
    }
  }

  lemma {:induction false} DevicesAtLeast(p: Problem, plan: seq<Stage>, layers: nat)
    requires p.Valid() && IsPlan(p, plan, layers)
    ensures Devices(plan) >= |plan|
  {
    if plan != [] {
      var front := plan[..|plan| - 1];
      assert forall i :: 0 <= i < |front| ==> front[i] == plan[i] && EndBefore(front, i) == EndBefore(plan, i);
      assert Fits(p, plan[|plan| - 1]);
      DevicesAtLeast(p, front, EndBefore(front, |front|));
    }
  }

  /** There is one answer. */
  lemma AnswerIsOne(p: Problem, x: Table, y: Table, plan: seq<Stage>, value: int, plan': seq<Stage>, value': int)
    requires p.Valid() && TableIs(p, x) && TableIs(p, y) && Answer(p, x, plan, value) && Answer(p, y, plan', value')
    ensures plan == plan' && value == value'
  {
    TableIsOne(p, x, y);
  }

  /** Whatever the costs and the pruning, a non-empty answer is a plan: exactly `stageNum` non-empty contiguous stages
      over all layers, device numbers positive and together exactly `devNum`, every stage within memory and the
      enabled limits; `value` is what `estimateEval` gives that plan.  The search does not give up needlessly: it
      answers whenever there is room for every stage and a device for each, and for one stage exactly when it can.  No
      considered last step that comes after the chosen one is cheaper, and without communication the value is the
      least of them all. */
  lemma AnswerMeans(p: Problem, t: Table, plan: seq<Stage>, value: int)
    requires p.Valid() && TableIs(p, t) && Answer(p, t, plan, value)
    ensures plan != [] ==>
              |plan| == p.stageNum && IsPlan(p, plan, p.layerNum) && Devices(plan) == p.devNum &&
              value == PlanValue(p, plan) < ERROR_VAL
    ensures p.stageNum >= 1 && Roomy(p) ==> (plan != [] <==> p.stageNum <= p.devNum)
    ensures p.stageNum == 1 && p.devNum >= 1 ==>
              (plan != [] <==> Fits(p, Stage(0, p.layerNum, p.devNum))
                               && StepValue(CostOf(p, Stage(0, p.layerNum, p.devNum)), 0, 0) < ERROR_VAL)
    ensures plan != [] ==>
              NoneLaterCheaper(p, t[p.stageNum - 1], p.stageNum, p.layerNum, p.devNum,
                               t[p.stageNum][p.layerNum][p.devNum])
    ensures 1 <= p.stageNum <= p.devNum && (forall i, j, k :: p.cost(i, j, k).comm == 0) ==>
              Least(p, t[p.stageNum - 1], p.stageNum, p.layerNum, p.devNum, value)
  {
    TableIsOk(p, t);
    assert Shaped(p, t);
    AnswerIsPlan(p, t, plan, value);
    hide TableIs, TableOk, Shaped, Answer, Roomy, Fits, StepValue, CostOf, IsPlan, Least, NoneLaterCheaper;
    if plan != [] { StateIsLast(p, t, p.stageNum, p.layerNum, p.devNum); }
    if 1 <= p.stageNum <= p.devNum {
      Succeeds(p, t);
      if forall i, j, k :: p.cost(i, j, k).comm == 0 { TargetIsLeast(p, t); }
    }
  }

  lemma AnswerIsPlan(p: Problem, t: Table, plan: seq<Stage>, value: int)
    requires p.Valid() && TableIs(p, t) && Answer(p, t, plan, value)
    ensures Shaped(p, t) && value == t[p.stageNum][p.layerNum][p.devNum].eval
    ensures p.stageNum > 0 ==> (plan != [] <==> value < ERROR_VAL)
    ensures plan != [] ==>
              |plan| == p.stageNum && IsPlan(p, plan, p.layerNum) && Devices(plan) == p.devNum &&
              value == PlanValue(p, plan) < ERROR_VAL && 1 <= p.stageNum <= p.devNum
  {
    TableIsOk(p, t);
    assert Shaped(p, t);
    hide TableIs, TableOk, WithinLimits, Fits, StepValue, IsPlan, Devices;
    if p.stageNum > 0 && value < ERROR_VAL {
      PlanOfIsPlan(p, t, p.stageNum, p.layerNum, p.devNum);
      DevicesAtLeast(p, plan, p.layerNum);
    }
  }

  /** `doRunDpComm` gives the answer of the table that the search fills. */
  method DoRunDpComm(p: Problem) returns (plan: seq<Stage>, value: int, ghost t: Table)
    requires p.Valid()
    ensures TableIs(p, t) && Answer(p, t, plan, value)
  {
    var table: Table := Fill(p);
    t := table;
    TableIsOk(p, t);
    assert Shaped(p, t);
    hide TableIs, TableOk;
    plan := Backtrack(p, table);
    value := table[p.stageNum][p.layerNum][p.devNum].eval;
  }
}
