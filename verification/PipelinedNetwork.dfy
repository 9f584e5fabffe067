/**
 The whole chain: a network is cut into stages, the partition becomes a deployment, and the
 deployment runs pipelined over the splits of a batch.  Every stage then computes, for every split,
 what the unpartitioned network computes on that split.
 */
module PipelinedNetwork {
  import opened IR
  import opened Options
  import D = Deployment
  import opened Routing
  import opened StagedRun
  import P = Pipeline
  import Run = PipelineRun

  /** The place of a stage in the graph order. */
  function Place(sgs: seq<Graph>, order: seq<nat>, name: string): (p: nat)
    requires Indices(sgs, order)
    ensures p <= |order| && (p < |order| ==> sgs[order[p]].name == name)
    ensures p == |order| ==> forall k :: 0 <= k < |order| ==> sgs[order[k]].name != name
  {
    if order == [] then 0
    else if sgs[order[0]].name == name then 0
    else
      var q := Place(sgs, order[1..], name);
      assert forall k :: 0 < k < |order| ==> order[k] == order[1..][k - 1];
      1 + q
  }

  /** The routes between stages, as the pipeline schedule sees them. */
  function PlanRoutes(sgs: seq<Graph>, order: seq<nat>, fwd: seq<D.Route>): seq<P.Route>
    requires Indices(sgs, order)
  {
    seq(|fwd|, i requires 0 <= i < |fwd| =>
      P.Route(Place(sgs, order, fwd[i].src), Place(sgs, order, fwd[i].dest), fwd[i].value, i))
  }

  /** `splits` micro-batches, as many as planned. */
  function PlanOf(sgs: seq<Graph>, order: seq<nat>, fwd: seq<D.Route>, splits: nat): P.Plan
    requires Indices(sgs, order)
  {
    P.Plan(|order|, PlanRoutes(sgs, order, fwd), splits, splits)
  }

  // ---------- what a stage is fed for one split ----------

  function FromMaster<V>(fwdIn: seq<D.Route>, name: string, init: Env<V>): Env<V> {
    map i | 0 <= i < |fwdIn| && fwdIn[i].dest == name && fwdIn[i].value in init ::
      fwdIn[i].value := init[fwdIn[i].value]
  }

  /** What has arrived, over the routes in list order. */
  function Arrived<V>(routes: seq<P.Route>, received: map<P.Route, Env<V>>): Env<V> {
    if routes == [] then map[]
    else
      var r := routes[|routes| - 1];
      Arrived(routes[..|routes| - 1], received) + (if r in received then received[r] else map[])
  }

  function Carry<V>(r: P.Route, held: Env<V>): Env<V> { if r.name in held then map[r.name := held[r.name]] else map[] }

  function StageFed<V>(f: Operators<V>, sg: Graph, fwdIn: seq<D.Route>, routes: seq<P.Route>, init: Env<V>,
                       params: Env<V>, received: map<P.Route, Env<V>>): Env<V>
  {
    Outs(f, sg, params + (FromMaster(fwdIn, sg.name, init) + Arrived(routes, received)))
  }

  /** The pipeline of the network: `batch[s]` are the network inputs of split `s`. */
  ghost function Staged<V(!new)>(f: Operators<V>, sgs: seq<Graph>, order: seq<nat>, d: D.Deploy, batch: seq<Env<V>>,
                                 params: Env<V>): Run.Stages<Env<V>>
    requires Indices(sgs, order)
  {
    var routes := PlanRoutes(sgs, order, d.fwd);
    Run.Stages((p: nat, s: int, received: map<P.Route, Env<V>>) =>
                 if p < |order| && 0 <= s < |batch|
                 then StageFed(f, sgs[order[p]], d.fwdIn, routes, batch[s], params, received)
                 else map[],
               (r: P.Route, held: Env<V>) => Carry(r, held))
  }

  ghost predicate AllCut<V>(ir: Graph, sgs: seq<Graph>, batch: seq<Env<V>>, params: Env<V>) {
    forall s :: 0 <= s < |batch| ==> Cut(ir, sgs, batch[s], params)
  }

  // ---------- the schedule is one that the pipeline results cover ----------

  lemma PlaceIs(sgs: seq<Graph>, order: seq<nat>, j: nat)
    requires Indices(sgs, order) && Named(sgs) && j < |sgs| && j in order
    ensures Place(sgs, order, sgs[j].name) < |order| && order[Place(sgs, order, sgs[j].name)] == j
  {
    var p := Place(sgs, order, sgs[j].name);
    var k :| 0 <= k < |order| && order[k] == j;
    assert p < |order|;
    assert !(order[p] < j) && !(j < order[p]);
  }

  lemma RouteEnds(ir: Graph, sgs: seq<Graph>, r: D.Route)
    requires Named(sgs) && OneProducer(ir, sgs) && D.OutputsProduced(ir, sgs) &&
             D.AllRoutable(sgs, D.Partition(ir, sgs))
    requires r in D.Deployed(sgs, D.Partition(ir, sgs)).fwd
    ensures exists j :: 0 <= j < |sgs| && r.dest == sgs[j].name
  {
    FwdRoutesAre(sgs, D.Partition(ir, sgs), D.Inner, r);
    var c :| c in D.Partition(ir, sgs) && D.SideOf(c) == D.Inner && r == D.FwdRoute(sgs, c);
    PartitionConnects(ir, sgs, c);
    var i :| 0 <= i < |sgs| && IntoStage(ir, sgs, i, c);
  }

  /** Stages and their deployment. */
  ghost predicate Deployable(ir: Graph, sgs: seq<Graph>, d: D.Deploy) {
    && Named(sgs) && OneProducer(ir, sgs) && D.OutputsProduced(ir, sgs) && D.AllRoutable(sgs, D.Partition(ir, sgs))
    && d == D.Deployed(sgs, D.Partition(ir, sgs))
  }

  ghost predicate Ready(ir: Graph, sgs: seq<Graph>, d: D.Deploy, order: seq<nat>) {
    Deployable(ir, sgs, d) && Topological(sgs, d, order) && Indices(sgs, order)
  }

  /** Where route `i` of the plan comes from and goes to. */
  lemma PlanRouteIs(ir: Graph, sgs: seq<Graph>, d: D.Deploy, order: seq<nat>, i: nat)
    requires Ready(ir, sgs, d, order) && i < |d.fwd|
    ensures var r := PlanRoutes(sgs, order, d.fwd)[i];
            && r.src < r.dst < |order| && r.name == d.fwd[i].value
            && sgs[order[r.src]].name == d.fwd[i].src && sgs[order[r.dst]].name == d.fwd[i].dest
            && r.name in sgs[order[r.src]].outputs
  {
    hide D.Deployed, D.Partition, OneProducer, D.OutputsProduced, D.AllRoutable;
    assert d.fwd[i] in d.fwd;
    RouteBetween(ir, sgs, d.fwd[i]);
    RouteEnds(ir, sgs, d.fwd[i]);
    var j :| 0 <= j < |sgs| && d.fwd[i].src == sgs[j].name && d.fwd[i].value in sgs[j].outputs;
    var k :| 0 <= k < |sgs| && d.fwd[i].dest == sgs[k].name;
    PlaceIs(sgs, order, j);
    PlaceIs(sgs, order, k);
  }

  /** `r` runs between two stages. */
  ghost predicate Between(sgs: seq<Graph>, r: D.Route) {
    (exists j :: 0 <= j < |sgs| && r.src == sgs[j].name) && exists k :: 0 <= k < |sgs| && r.dest == sgs[k].name
  }

  lemma ForwardBetween(ir: Graph, sgs: seq<Graph>, d: D.Deploy, r: D.Route)
    requires Deployable(ir, sgs, d) && r in d.fwd
    ensures Between(sgs, r)
  {
    RouteBetween(ir, sgs, r);
    RouteEnds(ir, sgs, r);
  }

  /** A backward route is a forward route turned round. */
  lemma BackwardIsReversed(ir: Graph, sgs: seq<Graph>, d: D.Deploy, b: D.Route)
    requires Deployable(ir, sgs, d) && b in d.bwd
    ensures exists r :: r in d.fwd && b == Reversed(r)
  {
    DeployedBackward(sgs, D.Partition(ir, sgs));
    ReversalsAre(sgs, d.fwd, b);
  }

  lemma BackwardBetween(ir: Graph, sgs: seq<Graph>, d: D.Deploy, b: D.Route)
    requires Deployable(ir, sgs, d) && b in d.bwd
    ensures Between(sgs, b)
  {
    BackwardIsReversed(ir, sgs, d, b);
    hide Deployable, Between;
    var r :| r in d.fwd && b == Reversed(r);
    ForwardBetween(ir, sgs, d, r);
    BetweenReversed(sgs, r);
  }

  lemma BetweenReversed(sgs: seq<Graph>, r: D.Route)
    requires Between(sgs, r)
    ensures Between(sgs, Reversed(r))
  {
  }

  lemma SortedPlanIsValid(sgs: seq<Graph>, routes: seq<D.Route>, order: seq<nat>, splits: nat)
    requires Named(sgs) && SortedBy(sgs, routes, order) && forall r :: r in routes ==> Between(sgs, r)
    ensures PlanOf(sgs, order, routes, splits).Valid()
  {
    hide Place, Named;
    var planned := PlanRoutes(sgs, order, routes);
    forall i | 0 <= i < |routes| ensures planned[i].index == i && planned[i].src < planned[i].dst < |order| {
      assert routes[i] in routes;
      var j :| 0 <= j < |sgs| && routes[i].src == sgs[j].name;
      var k :| 0 <= k < |sgs| && routes[i].dest == sgs[k].name;
      PlaceIs(sgs, order, j);
      PlaceIs(sgs, order, k);
    }
  }

  /** Each pass in its own graph order: all its routes go forward, so that no delay is negative. */
  lemma PlanIsValid(ir: Graph, sgs: seq<Graph>, d: D.Deploy, order: seq<nat>, splits: nat)
    requires Deployable(ir, sgs, d) && Indices(sgs, order)
    ensures Topological(sgs, d, order) ==> PlanOf(sgs, order, d.fwd, splits).Valid()
    ensures SortedBy(sgs, d.bwd, order) ==> PlanOf(sgs, order, d.bwd, splits).Valid()
  {
    hide SortedBy, Between, Place, P.Plan.Valid;
    forall r | r in d.fwd ensures Between(sgs, r) { ForwardBetween(ir, sgs, d, r); }
    forall r | r in d.bwd ensures Between(sgs, r) { BackwardBetween(ir, sgs, d, r); }
    hide D.Deployed, D.Partition, OneProducer, D.OutputsProduced, D.AllRoutable;
    if SortedBy(sgs, d.fwd, order) { SortedPlanIsValid(sgs, d.fwd, order, splits); }
    if SortedBy(sgs, d.bwd, order) { SortedPlanIsValid(sgs, d.bwd, order, splits); }
  }

  function Backwards(order: seq<nat>): seq<nat> { seq(|order|, k requires 0 <= k < |order| => order[|order| - 1 - k]) }

  lemma BackwardsHolds(sgs: seq<Graph>, order: seq<nat>, routes: seq<D.Route>)
    requires SortedBy(sgs, routes, order)
    ensures Indices(sgs, Backwards(order))
    ensures forall a, b :: 0 <= a < b < |order| ==> Backwards(order)[a] != Backwards(order)[b]
    ensures forall i: nat :: i < |sgs| ==> i in Backwards(order)
  {
    forall i: nat | i < |sgs| ensures i in Backwards(order) {
      assert i in order;
      var k :| 0 <= k < |order| && order[k] == i;
      assert Backwards(order)[|order| - 1 - k] == i;
    }
  }

  lemma BackwardsGoes(sgs: seq<Graph>, order: seq<nat>, routes: seq<D.Route>, r: D.Route, x: nat, y: nat)
    requires SortedBy(sgs, routes, order) && r in routes && x < |order| && y < |order|
    requires Indices(sgs, Backwards(order))
    requires r.dest == sgs[Backwards(order)[x]].name && r.src == sgs[Backwards(order)[y]].name
    ensures x < y
  {
    assert Backwards(order)[x] == order[|order| - 1 - x] && Backwards(order)[y] == order[|order| - 1 - y];
  }

  /** The backward routes can always be sorted: a forward order read backwards sorts them. */
  lemma BackwardsSorts(ir: Graph, sgs: seq<Graph>, d: D.Deploy, order: seq<nat>)
    requires Deployable(ir, sgs, d) && SortedBy(sgs, d.fwd, order)
    ensures SortedBy(sgs, d.bwd, Backwards(order))
  {
    var back := Backwards(order);
    BackwardsHolds(sgs, order, d.fwd);
    forall b, x, y | && b in d.bwd && 0 <= x < |order| && 0 <= y < |order|
                     && b.src == sgs[back[x]].name && b.dest == sgs[back[y]].name
      ensures x < y
    {
      hide SortedBy, Deployable, Backwards;
      BackwardIsReversed(ir, sgs, d, b);
      var r :| r in d.fwd && b == Reversed(r);
      BackwardsGoes(sgs, order, d.fwd, r, x, y);
    }
  }

  /** Every stage holds, for every split, what running that split through the stages alone computes. */
  ghost predicate AllHeld<V(!new)>(plan: P.Plan, stages: Run.Stages<V>, state: Run.State<V>) {
    forall p: nat :: p < plan.graphNum ==> HoldsAll(plan, stages, state, p)
  }

  ghost predicate HoldsAll<V(!new)>(plan: P.Plan, stages: Run.Stages<V>, state: Run.State<V>, p: nat) {
    p < |state.splitValues| && state.splitValues[p] == map s | 0 <= s < plan.splits :: Run.Alone(plan, stages, p, s)
  }

  /** The backward pass, whatever the stages compute in it: every run can be continued to its end, and every stage
      then holds, for every split, what running the split through the stages alone computes. */
  lemma BackwardPassFinishes<V(!new)>(ir: Graph, sgs: seq<Graph>, d: D.Deploy, order: seq<nat>, splits: nat,
                                      stages: Run.Stages<V>, run: seq<Run.State<V>>)
    returns (full: seq<Run.State<V>>)
    requires Deployable(ir, sgs, d) && Indices(sgs, order) && SortedBy(sgs, d.bwd, order)
    requires Run.IsRun(PlanOf(sgs, order, d.bwd, splits), stages, run)
    ensures var plan := PlanOf(sgs, order, d.bwd, splits);
            && Run.IsRun(plan, stages, full) && run <= full && Run.Finished(plan, full[|full| - 1])
            && AllHeld(plan, stages, full[|full| - 1])
  {
    hide Deployable, SortedBy, Run.Finished;
    var plan := PlanOf(sgs, order, d.bwd, splits);
    PlanIsValid(ir, sgs, d, order, splits);
    full := Run.EveryRunCanFinish(plan, stages, run);
    var last := full[|full| - 1];
    forall p: nat | p < |order| ensures HoldsAll(plan, stages, last, p) {
      Run.PipelinedEqualsAlone(plan, stages, full, p);
    }
  }

  // ---------- one stage and one split ----------

  /** `held` is what stage `sg` of the network outputs. */
  ghost predicate Right<V>(sg: Graph, held: Env<V>, val: Env<V>) { held.Keys == Names(sg.outputs) && Within(held, val) }

  lemma {:induction false} ArrivedIs<V>(routes: seq<P.Route>, received: map<P.Route, Env<V>>, val: Env<V>)
    requires forall r :: r in received ==> Within(received[r], val)
    ensures Within(Arrived(routes, received), val)
    ensures forall r, x :: r in routes && r in received && x in received[r] ==> x in Arrived(routes, received)
  {
    if routes != [] {
      ArrivedIs(routes[..|routes| - 1], received, val);
      assert routes == routes[..|routes| - 1] + [routes[|routes| - 1]];
    }
  }

  /** Each stage alone, on each split, outputs the values of the unpartitioned network on that split. */
  lemma {:induction false} AloneIsWhole<V(!new)>(f: Operators<V>, ir: Graph, sgs: seq<Graph>, d: D.Deploy,
                                                 order: seq<nat>, batch: seq<Env<V>>, params: Env<V>, p: nat, s: int)
    requires Ready(ir, sgs, d, order) && AllCut(ir, sgs, batch, params) && p < |order| && 0 <= s < |batch|
    ensures Right(sgs[order[p]],
                  Run.Alone(PlanOf(sgs, order, d.fwd, |batch|), Staged(f, sgs, order, d, batch, params), p, s),
                  Whole(f, ir, batch[s], params))
    decreases p
  {
    hide Named, OneProducer, D.OutputsProduced, D.AllRoutable, D.Deployed, Topological, AllCut, Right, Whole, StageFed,
      PlanRoutes, Carry;
    var plan, stages := PlanOf(sgs, order, d.fwd, |batch|), Staged(f, sgs, order, d, batch, params);
    forall r | r in plan.routes && r.dst == p && r.src < p
      ensures Right(sgs[order[r.src]], Run.Alone(plan, stages, r.src, s), Whole(f, ir, batch[s], params))
    {
      AloneIsWhole(f, ir, sgs, d, order, batch, params, r.src, s);
    }
    var received := Run.Inputs(plan, stages, p, s);
    FedRight(f, ir, sgs, d, order, batch, params, p, s, received);
  }

  /** What arrives at stage `p` when all earlier stages hold the right values. */
  lemma FedRight<V(!new)>(f: Operators<V>, ir: Graph, sgs: seq<Graph>, d: D.Deploy, order: seq<nat>,
                    batch: seq<Env<V>>, params: Env<V>, p: nat, s: int, received: map<P.Route, Env<V>>)
    requires Ready(ir, sgs, d, order) && AllCut(ir, sgs, batch, params) && p < |order| && 0 <= s < |batch|
    requires var plan, stages := PlanOf(sgs, order, d.fwd, |batch|), Staged(f, sgs, order, d, batch, params);
             && received == Run.Inputs(plan, stages, p, s)
             && forall r :: r in plan.routes && r.dst == p && r.src < p ==>
                  Right(sgs[order[r.src]], Run.Alone(plan, stages, r.src, s), Whole(f, ir, batch[s], params))
    ensures Right(sgs[order[p]],
                  StageFed(f, sgs[order[p]], d.fwdIn, PlanRoutes(sgs, order, d.fwd), batch[s], params, received),
                  Whole(f, ir, batch[s], params))
  {
    hide Named, OneProducer, D.OutputsProduced, D.AllRoutable, D.Deployed, Topological, Whole, Place, Cut, Outs,
      StageFed;
    var plan, stages := PlanOf(sgs, order, d.fwd, |batch|), Staged(f, sgs, order, d, batch, params);
    var sg, val, routes := sgs[order[p]], Whole(f, ir, batch[s], params), PlanRoutes(sgs, order, d.fwd);
    forall i | 0 <= i < |d.fwd| && routes[i].dst == p
      ensures routes[i] in received && received[routes[i]].Keys == {d.fwd[i].value} && Within(received[routes[i]], val)
    {
      PlanRouteIs(ir, sgs, d, order, i);
      assert routes[i] in plan.routes;
    }
    StageGets(f, ir, sgs, d, order, batch[s], params, p, received, val);
  }

  lemma StageGets<V>(f: Operators<V>, ir: Graph, sgs: seq<Graph>, d: D.Deploy, order: seq<nat>, init: Env<V>,
                     params: Env<V>, p: nat, received: map<P.Route, Env<V>>, val: Env<V>)
    requires Ready(ir, sgs, d, order) && Cut(ir, sgs, init, params) && p < |order| && val == Whole(f, ir, init, params)
    requires var routes := PlanRoutes(sgs, order, d.fwd);
             && (forall r :: r in received ==> r in routes && r.dst == p)
             && forall i :: 0 <= i < |d.fwd| && routes[i].dst == p ==>
                  routes[i] in received && received[routes[i]].Keys == {d.fwd[i].value} &&
                  Within(received[routes[i]], val)
    ensures Right(sgs[order[p]],
                  StageFed(f, sgs[order[p]], d.fwdIn, PlanRoutes(sgs, order, d.fwd), init, params, received), val)
  {
    hide Whole, Place, Outs, Arrived, FromMaster, Topological, D.Deployed, D.Partition, Named, OneProducer,
      D.OutputsProduced,
      D.AllRoutable, NoRepeats, Supplied, StageIsPart, Ordered, SingleAssignment, Solves;
    var sg, routes := sgs[order[p]], PlanRoutes(sgs, order, d.fwd);
    WholeSolves(f, ir, sgs, init, params);
    forall r | r in received ensures Within(received[r], val) {
      var i :| 0 <= i < |routes| && routes[i] == r;
      assert |routes| == |d.fwd|;
    }
    ArrivedIs(routes, received, val);
    var master, arrived := FromMaster(d.fwdIn, sg.name, init), Arrived(routes, received);
    FromMasterWithin(d.fwdIn, sg.name, init, val);
    BothWithin(master, arrived, val);
    forall x | D.Reads(sg, x)
      ensures x in master + arrived
    {
      ReadsArrive(ir, sgs, d, order, init, params, p, received, x);
    }
    StageWithin(f, ir, sg, master + arrived, params, val);
  }

  lemma BothWithin<V>(a: Env<V>, b: Env<V>, val: Env<V>)
    requires Within(a, val) && Within(b, val)
    ensures Within(a + b, val)
  {
  }

  lemma FromMasterWithin<V>(fwdIn: seq<D.Route>, name: string, init: Env<V>, val: Env<V>)
    requires Within(init, val)
    ensures Within(FromMaster(fwdIn, name, init), val)
  {
  }

  lemma ReadsArrive<V>(ir: Graph, sgs: seq<Graph>, d: D.Deploy, order: seq<nat>, init: Env<V>, params: Env<V>,
                       p: nat, received: map<P.Route, Env<V>>, x: string)
    requires Ready(ir, sgs, d, order) && Cut(ir, sgs, init, params) && p < |order| && D.Reads(sgs[order[p]], x)
    requires forall i :: 0 <= i < |d.fwd| && PlanRoutes(sgs, order, d.fwd)[i].dst == p ==>
               var r := PlanRoutes(sgs, order, d.fwd)[i]; r in received && received[r].Keys == {d.fwd[i].value}
    requires forall r, y :: r in PlanRoutes(sgs, order, d.fwd) && r in received && y in received[r] ==>
               y in Arrived(PlanRoutes(sgs, order, d.fwd), received)
    ensures x in FromMaster(d.fwdIn, sgs[order[p]].name, init) || x in Arrived(PlanRoutes(sgs, order, d.fwd), received)
  {
    hide D.Deployed, D.Partition, OneProducer, D.OutputsProduced, D.AllRoutable, NoRepeats, Supplied, StageIsPart,
      Ordered, SingleAssignment, Arrived, Place;
    var sg, routes := sgs[order[p]], PlanRoutes(sgs, order, d.fwd);
    RouteFor(ir, sgs, order[p], x);
    var r :| (r in d.fwdIn || r in d.fwd) && r.dest == sg.name && r.value == x;
    if r in d.fwdIn {
      RouteIn(ir, sgs, r);
    } else {
      var i :| 0 <= i < |d.fwd| && d.fwd[i] == r;
      PlanRouteIs(ir, sgs, d, order, i);
      SamePlace(sgs, order, routes[i].dst, p);
      assert routes[i] in routes && x in received[routes[i]];
    }
  }

  lemma SamePlace(sgs: seq<Graph>, order: seq<nat>, a: nat, b: nat)
    requires Indices(sgs, order) && Named(sgs) && a < |order| && b < |order|
    requires sgs[order[a]].name == sgs[order[b]].name && forall i, j :: 0 <= i < j < |order| ==> order[i] != order[j]
    ensures a == b
  {
    assert !(order[a] < order[b]) && !(order[b] < order[a]);
    assert !(a < b) && !(b < a);
  }

  // ---------- the theorems ----------

  /** Every stage holds, for every split, the values of the unpartitioned network on that split. */
  ghost predicate BatchDone<V(!new)>(f: Operators<V>, ir: Graph, sgs: seq<Graph>, order: seq<nat>, batch: seq<Env<V>>,
                                     params: Env<V>, held: seq<map<int, Env<V>>>)
    requires Indices(sgs, order)
  {
    |held| == |order| &&
    forall p: nat, s: nat :: p < |order| && s < |batch| ==> StageDone(f, ir, sgs, order, batch, params, held, p, s)
  }

  ghost predicate StageDone<V(!new)>(f: Operators<V>, ir: Graph, sgs: seq<Graph>, order: seq<nat>, batch: seq<Env<V>>,
                                     params: Env<V>, held: seq<map<int, Env<V>>>, p: nat, s: nat)
    requires Indices(sgs, order) && |held| == |order| && p < |order| && s < |batch|
  {
    s in held[p] && Right(sgs[order[p]], held[p][s], Whole(f, ir, batch[s], params))
  }

  /** In every state of every pipelined run of the deployment, whatever a stage has computed for a split is what the
      unpartitioned network computes on that split; when the run is over, that is everything. */
  lemma PipelinedRunIsWhole<V(!new)>(f: Operators<V>, ir: Graph, sgs: seq<Graph>, d: D.Deploy, order: seq<nat>,
                                     batch: seq<Env<V>>, params: Env<V>, run: seq<Run.State<Env<V>>>)
    requires Ready(ir, sgs, d, order) && AllCut(ir, sgs, batch, params)
    requires Run.IsRun(PlanOf(sgs, order, d.fwd, |batch|), Staged(f, sgs, order, d, batch, params), run)
    ensures var last := run[|run| - 1];
            && (forall p, s :: 0 <= p < |order| && s in last.splitValues[p] ==>
                  0 <= s < |batch| && Right(sgs[order[p]], last.splitValues[p][s], Whole(f, ir, batch[s], params)))
            && (Run.Finished(PlanOf(sgs, order, d.fwd, |batch|), last) ==>
                  BatchDone(f, ir, sgs, order, batch, params, last.splitValues))
  {
    hide Right, Whole, AllCut, Staged, D.Deployed, D.Partition, Topological;
    var plan, stages := PlanOf(sgs, order, d.fwd, |batch|), Staged(f, sgs, order, d, batch, params);
    PlanIsValid(ir, sgs, d, order, |batch|);
    var last := run[|run| - 1];
    forall p | 0 <= p < |order|
      ensures forall s :: s in last.splitValues[p] ==>
                0 <= s < |batch| && Right(sgs[order[p]], last.splitValues[p][s], Whole(f, ir, batch[s], params))
      ensures Run.Finished(plan, last) ==> forall s :: 0 <= s < |batch| ==> s in last.splitValues[p]
    {
      Run.PipelinedEqualsAlone(plan, stages, run, p);
      forall s | s in last.splitValues[p]
        ensures Right(sgs[order[p]], last.splitValues[p][s], Whole(f, ir, batch[s], params))
      {
        AloneIsWhole(f, ir, sgs, d, order, batch, params, p, s);
      }
    }
    if Run.Finished(plan, last) {
      forall p: nat, s: nat | p < |order| && s < |batch|
        ensures StageDone(f, ir, sgs, order, batch, params, last.splitValues, p, s)
      {
        assert s in last.splitValues[p];
      }
    }
  }

  /** The deployment never deadlocks: every pipelined run can be continued until every stage holds the values of the
      unpartitioned network for every split. */
  lemma PipelineComputesNetwork<V(!new)>(f: Operators<V>, ir: Graph, sgs: seq<Graph>, d: D.Deploy, order: seq<nat>,
                                         batch: seq<Env<V>>, params: Env<V>, run: seq<Run.State<Env<V>>>)
    returns (full: seq<Run.State<Env<V>>>)
    requires Ready(ir, sgs, d, order) && AllCut(ir, sgs, batch, params)
    requires Run.IsRun(PlanOf(sgs, order, d.fwd, |batch|), Staged(f, sgs, order, d, batch, params), run)
    ensures Run.IsRun(PlanOf(sgs, order, d.fwd, |batch|), Staged(f, sgs, order, d, batch, params), full) && run <= full
    ensures Run.Finished(PlanOf(sgs, order, d.fwd, |batch|), full[|full| - 1])
    ensures BatchDone(f, ir, sgs, order, batch, params, full[|full| - 1].splitValues)
  {
    hide BatchDone, AllCut, Staged, Topological, Place, D.Deployed;
    PlanIsValid(ir, sgs, d, order, |batch|);
    full := Run.EveryRunCanFinish(PlanOf(sgs, order, d.fwd, |batch|), Staged(f, sgs, order, d, batch, params), run);
    PipelinedRunIsWhole(f, ir, sgs, d, order, batch, params, full);
  }

  /** Once a batch is done, each output of the network can be read from the stage that its route names. */
  lemma OutputsAreWhole<V(!new)>(f: Operators<V>, ir: Graph, sgs: seq<Graph>, d: D.Deploy, order: seq<nat>,
                                 batch: seq<Env<V>>, params: Env<V>, held: seq<map<int, Env<V>>>, o: string, s: nat)
    requires Ready(ir, sgs, d, order) && BatchDone(f, ir, sgs, order, batch, params, held)
    requires o in ir.outputs && s < |batch|
    ensures exists r :: r in d.fwdOut && r.value == o
    ensures forall r :: r in d.fwdOut && r.value == o ==>
              var p := Place(sgs, order, r.src);
              p < |order| && s in held[p] && o in held[p][s] &&
              Look(Whole(f, ir, batch[s], params), o) == Some(held[p][s][o])
  {
    hide D.Deployed, D.Partition, OneProducer, D.OutputsProduced, D.AllRoutable, Whole;
    OutputLeaves(ir, sgs, o);
    forall r | r in d.fwdOut && r.value == o
      ensures var p := Place(sgs, order, r.src);
              p < |order| && s in held[p] && o in held[p][s] &&
              Look(Whole(f, ir, batch[s], params), o) == Some(held[p][s][o])
    {
      RouteOut(ir, sgs, r);
      var j :| 0 <= j < |sgs| && r.src == sgs[j].name && r.value in sgs[j].outputs;
      PlaceIs(sgs, order, j);
      var p := Place(sgs, order, r.src);
      assert StageDone(f, ir, sgs, order, batch, params, held, p, s);
    }
  }
}
