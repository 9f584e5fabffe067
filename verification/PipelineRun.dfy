/**
 Whole pipelined runs with their values.

 A state holds, for each subgraph, how far its program has got, the values it computed for each
 split (`split_values_`), and what it has received for the split it is about to compute.
 Values are opaque: `stage` is what a subgraph holds after its driver ran, `pick` the part of it
 that a route carries.
 */
module PipelineRun {
  import opened Pipeline
  import opened Rendezvous

  datatype Stages<!V(!new)> = Stages(stage: (nat, int, map<Route, V>) -> V, pick: (Route, V) -> V)

  datatype State<V> = State(pc: seq<nat>, splitValues: seq<map<int, V>>, received: seq<map<Route, V>>)

  // ---------- the reference: each split runs through the stages alone ----------

  ghost function Alone<V(!new)>(plan: Plan, f: Stages<V>, p: nat, split: int): V
    decreases p, 1
  {
    f.stage(p, split, Inputs(plan, f, p, split))
  }

  ghost function Inputs<V(!new)>(plan: Plan, f: Stages<V>, p: nat, split: int): map<Route, V>
    decreases p, 0
  {
    map r | r in plan.routes && r.dst == p && r.src < p :: f.pick(r, Alone(plan, f, r.src, split))
  }

  // ---------- the pipelined machine ----------

  ghost predicate IsState<V(!new)>(plan: Plan, st: State<V>) {
    && NetOf(plan).IsState(st.pc)
    && |st.splitValues| == plan.graphNum
    && |st.received| == plan.graphNum
  }

  ghost function Start<V(!new)>(plan: Plan): State<V> {
    State(NetOf(plan).Start(), seq(plan.graphNum, _ => map[]), seq(plan.graphNum, _ => map[]))
  }

  ghost predicate ComputeStep<V(!new)>(plan: Plan, f: Stages<V>, st: State<V>, st': State<V>, p: nat)
    requires IsState(plan, st)
  {
    && NetOf(plan).LocalEnabled(st.pc, p)
    && var split := NetOf(plan).Head(st.pc, p).split;
       st' == State(st.pc[p := st.pc[p] + 1],
                    st.splitValues[p := st.splitValues[p][split := f.stage(p, split, st.received[p])]],
                    st.received[p := map[]])
  }

  /** The source looks its value up under the split it sends; the destination does not say which split it expects. */
  ghost predicate TransferStep<V(!new)>(plan: Plan, f: Stages<V>, st: State<V>, st': State<V>, p: nat, q: nat)
    requires IsState(plan, st)
  {
    && NetOf(plan).TransferEnabled(st.pc, p, q)
    && var e := NetOf(plan).Head(st.pc, p);
       e.Transfer? && e.split in st.splitValues[p] &&
       st' == State(st.pc[p := st.pc[p] + 1][q := st.pc[q] + 1],
                    st.splitValues,
                    st.received[q := st.received[q][e.route := f.pick(e.route, st.splitValues[p][e.split])]])
  }

  ghost predicate Step<V(!new)>(plan: Plan, f: Stages<V>, st: State<V>, st': State<V>)
    requires IsState(plan, st)
  {
    || (exists p: nat :: ComputeStep(plan, f, st, st', p))
    || (exists p: nat, q: nat :: TransferStep(plan, f, st, st', p, q))
  }

  ghost predicate IsRun<V(!new)>(plan: Plan, f: Stages<V>, run: seq<State<V>>) {
    && |run| > 0 && run[0] == Start(plan)
    && (forall k :: 0 <= k < |run| ==> IsState(plan, run[k]))
    && (forall k :: 0 <= k < |run| - 1 ==> Step(plan, f, run[k], run[k + 1]))
  }

  ghost predicate Finished<V(!new)>(plan: Plan, st: State<V>)
    requires IsState(plan, st)
  {
    NetOf(plan).Finished(st.pc)
  }

  // ---------- the invariant ----------

  ghost predicate Done(plan: Plan, pc: seq<nat>, p: nat, e: Event)
    requires NetOf(plan).IsState(pc) && p < plan.graphNum
  {
    NetOf(plan).Done(pc, p, e)
  }

  /** Split `s` of `r` has arrived but the subgraph has not computed it yet. */
  ghost predicate Waiting(plan: Plan, pc: seq<nat>, r: Route, s: int)
    requires NetOf(plan).IsState(pc) && r.dst < plan.graphNum
  {
    Done(plan, pc, r.dst, Transfer(r, s)) && !Done(plan, pc, r.dst, Compute(r.dst, s))
  }

  ghost predicate ComputedRight<V(!new)>(plan: Plan, f: Stages<V>, st: State<V>, p: nat)
    requires IsState(plan, st) && p < plan.graphNum
  {
    forall s :: (s in st.splitValues[p] <==> Done(plan, st.pc, p, Compute(p, s)))
                && (s in st.splitValues[p] ==> st.splitValues[p][s] == Alone(plan, f, p, s))
  }

  ghost predicate ReceivedRight<V(!new)>(plan: Plan, f: Stages<V>, st: State<V>, p: nat)
    requires IsState(plan, st) && p < plan.graphNum
  {
    && (forall r :: r in st.received[p] ==> r.dst == p && exists s :: Waiting(plan, st.pc, r, s))
    && (forall r: Route, s :: r.dst == p && Waiting(plan, st.pc, r, s) ==>
          r in st.received[p] && st.received[p][r] == f.pick(r, Alone(plan, f, r.src, s)))
  }

  ghost predicate GoodAt<V(!new)>(plan: Plan, f: Stages<V>, st: State<V>, p: nat) {
    IsState(plan, st) && p < plan.graphNum && ComputedRight(plan, f, st, p) && ReceivedRight(plan, f, st, p)
  }

  ghost predicate Good<V(!new)>(plan: Plan, f: Stages<V>, st: State<V>) {
    && IsState(plan, st)
    && NetOf(plan).InStep(st.pc)
    && forall p: nat :: p < plan.graphNum ==> GoodAt(plan, f, st, p)
  }

  // ---------- what the head of a program says about the rest of it ----------

  lemma EarlierIsDone(plan: Plan, pc: seq<nat>, p: nat, e: Event)
    requires plan.Valid() && NetOf(plan).IsState(pc) && NetOf(plan).Busy(pc, p)
    requires InProgram(plan, p, plan.splits, e) && EventLess(e, NetOf(plan).Head(pc, p))
    ensures Done(plan, pc, p, e)
  {
    NetIsWellFormed(plan);
    ProgramIs(plan, p, plan.splits);
    SmallerIsDone(NetOf(plan), pc, p, e);
  }

  lemma HeadFacts(plan: Plan, pc: seq<nat>, p: nat)
    requires plan.Valid() && NetOf(plan).IsState(pc) && NetOf(plan).Busy(pc, p)
    ensures InProgram(plan, p, plan.splits, NetOf(plan).Head(pc, p))
    ensures !Done(plan, pc, p, NetOf(plan).Head(pc, p))
  {
    NetIsWellFormed(plan);
    ProgramIs(plan, p, plan.splits);
    HeadNotDone(NetOf(plan), pc, p);
  }

  lemma DoneIsEarlier(plan: Plan, pc: seq<nat>, p: nat, e: Event)
    requires plan.Valid() && NetOf(plan).IsState(pc) && p < plan.graphNum && Done(plan, pc, p, e)
    ensures InProgram(plan, p, plan.splits, e)
    ensures NetOf(plan).Busy(pc, p) ==> EventLess(e, NetOf(plan).Head(pc, p))
  {
    var net := NetOf(plan);
    ProgramIs(plan, p, plan.splits);
    var i :| 0 <= i < pc[p] && net.progs[p][..pc[p]][i] == e;
    assert net.progs[p][i] == e;
  }

  /** When a subgraph computes a split it has received exactly the inputs of that split. */
  lemma ReceivedAreInputs<V(!new)>(plan: Plan, f: Stages<V>, st: State<V>, p: nat, s: int)
    requires plan.Valid() && GoodAt(plan, f, st, p)
    requires NetOf(plan).Busy(st.pc, p) && NetOf(plan).Head(st.pc, p) == Compute(p, s)
    ensures st.received[p] == Inputs(plan, f, p, s)
  {
    HeadFacts(plan, st.pc, p);
    forall r | r in plan.routes && r.dst == p
      ensures r in st.received[p] && st.received[p][r] == f.pick(r, Alone(plan, f, r.src, s))
    {
      EarlierIsDone(plan, st.pc, p, Transfer(r, s));
      assert Waiting(plan, st.pc, r, s);
    }
    forall r | r in st.received[p] ensures r in plan.routes && r.dst == p && r.src < p {
      var s' :| Waiting(plan, st.pc, r, s');
      DoneIsEarlier(plan, st.pc, p, Transfer(r, s'));
    }
  }

  // ---------- steps keep the invariant ----------

  lemma ComputeKeepsOwn<V(!new)>(plan: Plan, f: Stages<V>, st: State<V>, st': State<V>, p: nat)
    requires plan.Valid() && GoodAt(plan, f, st, p) && IsState(plan, st') && ComputeStep(plan, f, st, st', p)
    ensures GoodAt(plan, f, st', p)
  {
    HeadFacts(plan, st.pc, p);
    var s := NetOf(plan).Head(st.pc, p).split;
    assert NetOf(plan).Head(st.pc, p) == Compute(p, s);
    ReceivedAreInputs(plan, f, st, p, s);
    forall e ensures Done(plan, st'.pc, p, e) <==> Done(plan, st.pc, p, e) || e == Compute(p, s) {
      DoneAfterAdvance(NetOf(plan), st.pc, st'.pc, p, e);
    }
    forall r: Route, t | r.dst == p ensures !Waiting(plan, st'.pc, r, t) {
      if Done(plan, st.pc, p, Transfer(r, t)) {
        DoneIsEarlier(plan, st.pc, p, Transfer(r, t));
        if t < s { EarlierIsDone(plan, st.pc, p, Compute(p, t)); }
      }
    }
  }

  lemma OthersUntouched<V(!new)>(plan: Plan, f: Stages<V>, st: State<V>, st': State<V>, p: nat)
    requires GoodAt(plan, f, st, p) && IsState(plan, st')
    requires st'.pc[p] == st.pc[p] && st'.splitValues[p] == st.splitValues[p] && st'.received[p] == st.received[p]
    ensures GoodAt(plan, f, st', p)
  {
    assert forall e :: Done(plan, st'.pc, p, e) <==> Done(plan, st.pc, p, e);
    assert forall r: Route, s :: r.dst == p ==> (Waiting(plan, st'.pc, r, s) <==> Waiting(plan, st.pc, r, s));
  }

  /** At a transfer the source has computed the split that it sends. */
  lemma SourceHasSplit<V(!new)>(plan: Plan, f: Stages<V>, st: State<V>, p: nat)
    requires plan.Valid() && GoodAt(plan, f, st, p) && NetOf(plan).Busy(st.pc, p)
    requires var e := NetOf(plan).Head(st.pc, p); e.Transfer? && e.route.src == p
    ensures var e := NetOf(plan).Head(st.pc, p);
            e.split in st.splitValues[p] && st.splitValues[p][e.split] == Alone(plan, f, p, e.split)
  {
    HeadFacts(plan, st.pc, p);
    EarlierIsDone(plan, st.pc, p, Compute(p, NetOf(plan).Head(st.pc, p).split));
  }

  lemma TransferKeepsSource<V(!new)>(plan: Plan, f: Stages<V>, st: State<V>, st': State<V>, p: nat, q: nat)
    requires plan.Valid() && GoodAt(plan, f, st, p) && IsState(plan, st') && TransferStep(plan, f, st, st', p, q)
    ensures GoodAt(plan, f, st', p)
  {
    var e := NetOf(plan).Head(st.pc, p);
    forall x ensures Done(plan, st'.pc, p, x) <==> Done(plan, st.pc, p, x) || x == e {
      DoneAfterAdvance(NetOf(plan), st.pc, st'.pc, p, x);
    }
    assert forall r: Route, s :: r.dst == p ==> (Waiting(plan, st'.pc, r, s) <==> Waiting(plan, st.pc, r, s));
  }

  /** At the destination of a transfer of split `t`, exactly the earlier splits of the route are computed. */
  lemma DestAtSplit(plan: Plan, pc: seq<nat>, q: nat, r: Route, t: int)
    requires plan.Valid() && NetOf(plan).IsState(pc) && NetOf(plan).Busy(pc, q)
    requires NetOf(plan).Head(pc, q) == Transfer(r, t) && r.dst == q
    ensures forall s :: Done(plan, pc, q, Transfer(r, s)) ==> Done(plan, pc, q, Compute(q, s))
    ensures !Done(plan, pc, q, Compute(q, t))
  {
    HeadFacts(plan, pc, q);
    forall s | Done(plan, pc, q, Transfer(r, s)) ensures Done(plan, pc, q, Compute(q, s)) {
      DoneIsEarlier(plan, pc, q, Transfer(r, s));
      EarlierIsDone(plan, pc, q, Compute(q, s));
    }
    if Done(plan, pc, q, Compute(q, t)) {
      DoneIsEarlier(plan, pc, q, Compute(q, t));
      assert false;
    }
  }

  lemma DestAfterTransfer(plan: Plan, pc: seq<nat>, pc': seq<nat>, q: nat, r: Route, t: int)
    requires plan.Valid() && NetOf(plan).IsState(pc) && NetOf(plan).IsState(pc') && NetOf(plan).Busy(pc, q)
    requires NetOf(plan).Head(pc, q) == Transfer(r, t) && r.dst == q && pc'[q] == pc[q] + 1
    ensures forall s :: Done(plan, pc', q, Compute(q, s)) <==> Done(plan, pc, q, Compute(q, s))
    ensures forall x: Route, s :: x.dst == q ==>
              (Waiting(plan, pc', x, s) <==> Waiting(plan, pc, x, s) || (x == r && s == t))
    ensures forall s :: !Waiting(plan, pc, r, s)
  {
    DestAtSplit(plan, pc, q, r, t);
    forall x ensures Done(plan, pc', q, x) <==> Done(plan, pc, q, x) || x == Transfer(r, t) {
      DoneAfterAdvance(NetOf(plan), pc, pc', q, x);
    }
    hide Done;
  }

  lemma TransferKeepsDest<V(!new)>(plan: Plan, f: Stages<V>, st: State<V>, st': State<V>, p: nat, q: nat)
    requires plan.Valid() && GoodAt(plan, f, st, p) && GoodAt(plan, f, st, q)
    requires IsState(plan, st') && TransferStep(plan, f, st, st', p, q)
    requires NetOf(plan).Head(st.pc, p) == NetOf(plan).Head(st.pc, q)
    ensures GoodAt(plan, f, st', q)
  {
    var e := NetOf(plan).Head(st.pc, q);
    SourceHasSplit(plan, f, st, p);
    hide Done, Waiting, Alone;
    DestAfterTransfer(plan, st.pc, st'.pc, q, e.route, e.split);
    assert ComputedRight(plan, f, st', q);
    assert ReceivedRight(plan, f, st', q);
  }

  lemma ComputeKeepsGood<V(!new)>(plan: Plan, f: Stages<V>, st: State<V>, st': State<V>, p: nat)
    requires plan.Valid() && Good(plan, f, st) && IsState(plan, st') && ComputeStep(plan, f, st, st', p)
    ensures Good(plan, f, st')
  {
    LocalKeepsInStep(NetOf(plan), st.pc, st'.pc, p);
    forall k: nat | k < plan.graphNum ensures GoodAt(plan, f, st', k) {
      assert GoodAt(plan, f, st, k);
      if k == p { ComputeKeepsOwn(plan, f, st, st', p); } else { OthersUntouched(plan, f, st, st', k); }
    }
  }

  lemma TransferKeepsGood<V(!new)>(plan: Plan, f: Stages<V>, st: State<V>, st': State<V>, p: nat, q: nat)
    requires plan.Valid() && Good(plan, f, st) && IsState(plan, st') && TransferStep(plan, f, st, st', p, q)
    ensures Good(plan, f, st')
  {
    SameHeads(plan, st.pc, p, q);
    TransferKeepsInStep(NetOf(plan), st.pc, st'.pc, p, q);
    assert GoodAt(plan, f, st, p) && GoodAt(plan, f, st, q);
    forall k: nat | k < plan.graphNum ensures GoodAt(plan, f, st', k) {
      assert GoodAt(plan, f, st, k);
      if k == p {
        TransferKeepsSource(plan, f, st, st', p, q);
      } else if k == q {
        TransferKeepsDest(plan, f, st, st', p, q);
      } else {
        OthersUntouched(plan, f, st, st', k);
      }
    }
  }

  /** Every step of the pipelined machine keeps the invariant and is a step of its network. */
  lemma StepKeepsGood<V(!new)>(plan: Plan, f: Stages<V>, st: State<V>, st': State<V>)
    requires plan.Valid() && Good(plan, f, st) && IsState(plan, st') && Step(plan, f, st, st')
    ensures Good(plan, f, st')
  {
    if p: nat :| ComputeStep(plan, f, st, st', p) {
      ComputeKeepsGood(plan, f, st, st', p);
    } else {
      var p: nat, q: nat :| TransferStep(plan, f, st, st', p, q);
      TransferKeepsGood(plan, f, st, st', p, q);
    }
  }

  lemma StepIsNetStep<V(!new)>(plan: Plan, f: Stages<V>, st: State<V>, st': State<V>)
    requires IsState(plan, st) && Step(plan, f, st, st')
    ensures NetOf(plan).Step(st.pc, st'.pc)
  {
    if p: nat :| ComputeStep(plan, f, st, st', p) {
      ComputeIsNetStep(plan, f, st, st', p);
    } else {
      var p: nat, q: nat :| TransferStep(plan, f, st, st', p, q);
      TransferIsNetStep(plan, f, st, st', p, q);
    }
  }

  lemma ComputeIsNetStep<V(!new)>(plan: Plan, f: Stages<V>, st: State<V>, st': State<V>, p: nat)
    requires IsState(plan, st) && ComputeStep(plan, f, st, st', p)
    ensures NetOf(plan).Step(st.pc, st'.pc)
  {
    LocalIsStep(NetOf(plan), st.pc, p);
  }

  lemma TransferIsNetStep<V(!new)>(plan: Plan, f: Stages<V>, st: State<V>, st': State<V>, p: nat, q: nat)
    requires IsState(plan, st) && TransferStep(plan, f, st, st', p, q)
    ensures NetOf(plan).Step(st.pc, st'.pc)
  {
    TransferIsStep(NetOf(plan), st.pc, p, q);
  }

  /** The receiver at split `s` meets the sender at exactly split `s`. */
  lemma SameHeads(plan: Plan, pc: seq<nat>, p: nat, q: nat)
    requires plan.Valid() && NetOf(plan).IsState(pc) && NetOf(plan).InStep(pc) && NetOf(plan).TransferEnabled(pc, p, q)
    ensures NetOf(plan).Head(pc, p) == NetOf(plan).Head(pc, q)
  {
    NetIsWellFormed(plan);
    HeadsAgree(NetOf(plan), pc, p, q);
  }

  lemma StartIsGood<V(!new)>(plan: Plan, f: Stages<V>)
    requires plan.Valid()
    ensures Good(plan, f, Start(plan))
  {
    var st: State<V> := Start(plan);
    assert forall p: nat, e :: p < plan.graphNum ==> !Done(plan, st.pc, p, e);
  }

  // ---------- theorems about whole runs ----------

  ghost function Counters<V>(run: seq<State<V>>): seq<seq<nat>> {
    seq(|run|, k requires 0 <= k < |run| => run[k].pc)
  }

  lemma {:induction false} RunIsGood<V(!new)>(plan: Plan, f: Stages<V>, run: seq<State<V>>, k: nat)
    requires plan.Valid() && IsRun(plan, f, run) && k < |run|
    ensures Good(plan, f, run[k])
  {
    if k == 0 {
      StartIsGood(plan, f);
    } else {
      RunIsGood(plan, f, run, k - 1);
      assert Step(plan, f, run[k - 1], run[k - 1 + 1]);
      StepKeepsGood(plan, f, run[k - 1], run[k]);
    }
  }

  lemma RunIsNetRun<V(!new)>(plan: Plan, f: Stages<V>, run: seq<State<V>>)
    requires IsRun(plan, f, run)
    ensures NetOf(plan).IsRun(Counters(run))
  {
    var pcs := Counters(run);
    forall k | 0 <= k < |pcs| - 1 ensures NetOf(plan).Step(pcs[k], pcs[k + 1]) {
      assert Step(plan, f, run[k], run[k + 1]);
      StepIsNetStep(plan, f, run[k], run[k + 1]);
    }
  }

  /** Safety: in every state of every run, whatever a subgraph has computed for a split is what that
      split gives when it runs through the stages alone, and at the end that is every split. */
  lemma PipelinedEqualsAlone<V(!new)>(plan: Plan, f: Stages<V>, run: seq<State<V>>, p: nat)
    requires plan.Valid() && IsRun(plan, f, run) && p < plan.graphNum
    ensures var last := run[|run| - 1];
            && (forall s :: s in last.splitValues[p] ==>
                  0 <= s < plan.splits && last.splitValues[p][s] == Alone(plan, f, p, s))
            && (Finished(plan, last) ==>
                  last.splitValues[p] == map s | 0 <= s < plan.splits :: Alone(plan, f, p, s))
  {
    RunIsGood(plan, f, run, |run| - 1);
    var last := run[|run| - 1];
    assert GoodAt(plan, f, last, p);
    ProgramIs(plan, p, plan.splits);
    forall s | s in last.splitValues[p] ensures 0 <= s < plan.splits {
      DoneIsEarlier(plan, last.pc, p, Compute(p, s));
    }
    if Finished(plan, last) {
      var prog := NetOf(plan).progs[p];
      assert !NetOf(plan).Busy(last.pc, p);
      assert prog[..last.pc[p]] == prog;
      forall s | 0 <= s < plan.splits ensures s in last.splitValues[p] {
        assert InProgram(plan, p, plan.splits, Compute(p, s));
        assert Done(plan, last.pc, p, Compute(p, s));
      }
    }
  }

  lemma {:induction false} ExtendPipelineRun<V(!new)>(plan: Plan, f: Stages<V>, run: seq<State<V>>, next: State<V>)
    requires IsRun(plan, f, run) && IsState(plan, next) && Step(plan, f, run[|run| - 1], next)
    ensures IsRun(plan, f, run + [next])
  {
    var run' := run + [next];
    forall k | 0 <= k < |run'| - 1 ensures Step(plan, f, run'[k], run'[k + 1]) {
      assert k < |run| - 1 ==> Step(plan, f, run[k], run[k + 1]);
    }
  }

  lemma CanCompute<V(!new)>(plan: Plan, f: Stages<V>, st: State<V>, p: nat) returns (next: State<V>)
    requires IsState(plan, st) && NetOf(plan).LocalEnabled(st.pc, p)
    ensures IsState(plan, next) && ComputeStep(plan, f, st, next, p)
  {
    var split := NetOf(plan).Head(st.pc, p).split;
    next := State(st.pc[p := st.pc[p] + 1],
                  st.splitValues[p := st.splitValues[p][split := f.stage(p, split, st.received[p])]],
                  st.received[p := map[]]);
  }

  lemma CanTransfer<V(!new)>(plan: Plan, f: Stages<V>, st: State<V>, p: nat, q: nat) returns (next: State<V>)
    requires plan.Valid() && GoodAt(plan, f, st, p) && NetOf(plan).TransferEnabled(st.pc, p, q)
    ensures IsState(plan, next) && TransferStep(plan, f, st, next, p, q)
  {
    var e := NetOf(plan).Head(st.pc, p);
    SourceHasSplit(plan, f, st, p);
    next := State(st.pc[p := st.pc[p] + 1][q := st.pc[q] + 1],
                  st.splitValues,
                  st.received[q := st.received[q][e.route := f.pick(e.route, st.splitValues[p][e.split])]]);
  }

  /** Liveness of one state: when every receive has its send, an unfinished state has a successor. */
  lemma CanStep<V(!new)>(plan: Plan, f: Stages<V>, st: State<V>) returns (next: State<V>)
    requires plan.Valid() && Complete(plan) && Good(plan, f, st) && !Finished(plan, st)
    ensures IsState(plan, next) && Step(plan, f, st, next)
  {
    AnEnabledAction(plan, st.pc);
    if p: nat :| NetOf(plan).LocalEnabled(st.pc, p) {
      next := CanCompute(plan, f, st, p);
    } else {
      var p: nat, q: nat :| NetOf(plan).TransferEnabled(st.pc, p, q);
      assert GoodAt(plan, f, st, p);
      next := CanTransfer(plan, f, st, p, q);
    }
  }

  lemma AnEnabledAction(plan: Plan, pc: seq<nat>)
    requires plan.Valid() && Complete(plan) && NetOf(plan).IsState(pc) && NetOf(plan).InStep(pc)
    requires !NetOf(plan).Finished(pc)
    ensures (exists p: nat :: NetOf(plan).LocalEnabled(pc, p))
         || (exists p: nat, q: nat :: NetOf(plan).TransferEnabled(pc, p, q))
  {
    NetIsWellFormed(plan);
    CompleteReceivesSent(plan);
    Progress(NetOf(plan), pc);
  }

  /** No run is longer than all programs together. */
  lemma RunsAreBounded<V(!new)>(plan: Plan, f: Stages<V>, run: seq<State<V>>)
    requires plan.Valid() && IsRun(plan, f, run)
    ensures |run| - 1 <= Work(NetOf(plan))
  {
    RunIsNetRun(plan, f, run);
    RunBounded(NetOf(plan), Counters(run), |run| - 1);
  }

  lemma OneMoreStep<V(!new)>(plan: Plan, f: Stages<V>, run: seq<State<V>>) returns (longer: seq<State<V>>)
    requires plan.Valid() && Complete(plan) && IsRun(plan, f, run) && !Finished(plan, run[|run| - 1])
    ensures IsRun(plan, f, longer) && |longer| == |run| + 1 && run <= longer && |longer| - 1 <= Work(NetOf(plan))
  {
    RunIsGood(plan, f, run, |run| - 1);
    var next := CanStep(plan, f, run[|run| - 1]);
    ExtendPipelineRun(plan, f, run, next);
    longer := run + [next];
    RunsAreBounded(plan, f, longer);
  }

  /** Deadlock freedom: every run can be continued until every subgraph has finished. */
  lemma {:induction false} EveryRunCanFinish<V(!new)>(plan: Plan, f: Stages<V>, run: seq<State<V>>)
    returns (full: seq<State<V>>)
    requires plan.Valid() && Complete(plan) && IsRun(plan, f, run)
    ensures IsRun(plan, f, full) && run <= full && Finished(plan, full[|full| - 1])
    decreases Work(NetOf(plan)) + 1 - |run|
  {
    if Finished(plan, run[|run| - 1]) {
      full := run;
    } else {
      var longer := OneMoreStep(plan, f, run);
      full := EveryRunCanFinish(plan, f, longer);
    }
  }

  /** If the launcher runs fewer splits than planned and some route is delayed, the flush test never
      fires and no run ever finishes the destination of that route. */
  lemma ShortRunNeverFinishes<V(!new)>(plan: Plan, f: Stages<V>, run: seq<State<V>>)
    requires plan.Valid() && !Complete(plan) && IsRun(plan, f, run)
    ensures !Finished(plan, run[|run| - 1])
  {
    RunIsNetRun(plan, f, run);
    NetIsWellFormed(plan);
    var i :| 0 <= i < |plan.routes| && Delay(plan.routes[i]) != 0;
    var r := plan.routes[i];
    var e := Transfer(r, plan.splits - 1);
    ProgramIs(plan, r.src, plan.splits);
    ProgramIs(plan, r.dst, plan.splits);
    UnsentBlocks(NetOf(plan), Counters(run), e);
  }

  /** The exact condition: some run finishes if and only if all planned splits run, or none does, or no route is
      delayed. */
  lemma FinishesIffComplete<V(!new)>(plan: Plan, f: Stages<V>)
    requires plan.Valid()
    ensures Complete(plan) <==> exists run: seq<State<V>> :: IsRun(plan, f, run) && Finished(plan, run[|run| - 1])
  {
    if Complete(plan) {
      var start: seq<State<V>> := [Start(plan)];
      StartIsGood(plan, f);
      var full := EveryRunCanFinish(plan, f, start);
    } else {
      forall run: seq<State<V>> | IsRun(plan, f, run) ensures !Finished(plan, run[|run| - 1]) {
        ShortRunNeverFinishes(plan, f, run);
      }
    }
  }
}
