/**
 Running the stages one after the other (the loop of src/comp/Validator.cpp:157-182): inputs are
 taken only from the routes of the deployment, and the outputs are those of the whole network.
 */
module StagedRun {
  import opened IR
  import opened Deployment
  import opened Routing

  /** A network cut into stages, and the values it is run on. */
  ghost predicate Cut<V>(ir: Graph, sgs: seq<Graph>, init: Env<V>, params: Env<V>) {
    && Named(sgs) && OneProducer(ir, sgs) && OutputsProduced(ir, sgs)
    && (forall j :: 0 <= j < |sgs| ==> NoRepeats(sgs[j].inputs))
    && AllRoutable(sgs, Partition(ir, sgs))
    && (forall i :: 0 <= i < |sgs| ==> StageIsPart(ir, sgs[i], params))
    && (forall i, x :: 0 <= i < |sgs| && Reads(sgs[i], x) ==> Supplied(ir, sgs, i, x))
    && (forall x :: x in ir.inputs && !IsParam(ir, x) ==> x in init)
    && init.Keys !! params.Keys
    && Ordered(ir.nodes, (init + params).Keys)
    && SingleAssignment(ir.nodes, (init + params).Keys)
  }

  /** A stage is a runnable graph made of nodes of the network, and its parameters have values. */
  ghost predicate StageIsPart<V>(ir: Graph, sg: Graph, params: Env<V>) {
    && Runs(sg)
    && (forall n :: n in sg.nodes ==> n in ir.nodes)
    && (forall x :: x in sg.inputs && IsParam(sg, x) ==> x in params)
  }

  predicate Indices(sgs: seq<Graph>, order: seq<nat>) { forall k :: 0 <= k < |order| ==> order[k] < |sgs| }

  /** `sortGraphs`: every stage once, the source of a route before its destination. */
  ghost predicate SortedBy(sgs: seq<Graph>, routes: seq<Route>, order: seq<nat>) {
    && Indices(sgs, order)
    && (forall a, b :: 0 <= a < b < |order| ==> order[a] != order[b])
    && (forall i: nat :: i < |sgs| ==> i in order)
    && (forall r, a, b :: r in routes && 0 <= a < |order| && 0 <= b < |order| ==>
          r.src == sgs[order[a]].name && r.dest == sgs[order[b]].name ==> a < b)
  }

  /** `fwd_graph_order` is sorted by the forward routes. */
  ghost predicate Topological(sgs: seq<Graph>, d: Deploy, order: seq<nat>) { SortedBy(sgs, d.fwd, order) }

  /** The values of the unpartitioned network. */
  ghost function Whole<V>(f: Operators<V>, ir: Graph, init: Env<V>, params: Env<V>): Env<V> {
    Eval(f, ir.nodes, init + params)
  }

  lemma WholeSolves<V>(f: Operators<V>, ir: Graph, sgs: seq<Graph>, init: Env<V>, params: Env<V>)
    requires Cut(ir, sgs, init, params)
    ensures Within(init, Whole(f, ir, init, params)) && Within(params, Whole(f, ir, init, params))
    ensures forall i :: 0 <= i < |sgs| ==> Solves(f, Whole(f, ir, init, params), sgs[i].nodes)
  {
    var val := Whole(f, ir, init, params);
    EvalSolves(f, ir.nodes, init + params);
    forall i | 0 <= i < |sgs| ensures Solves(f, val, sgs[i].nodes) {
      assert StageIsPart(ir, sgs[i], params);
      forall n | n in sgs[i].nodes ensures SolvesNode(f, val, n) { }
    }
    assert forall x :: x in init ==> x in init + params && (init + params)[x] == init[x];
    assert forall x :: x in params ==> x in init + params && (init + params)[x] == params[x];
  }

  // ---------- one stage ----------

  function Outs<V>(f: Operators<V>, sg: Graph, env: Env<V>): Env<V> {
    var e := Eval(f, sg.nodes, env);
    map o | o in sg.outputs && o in e :: e[o]
  }

  /** A stage that is given what it reads, with values of the network, outputs values of the network. */
  lemma StageWithin<V>(f: Operators<V>, ir: Graph, sg: Graph, inputs: Env<V>, params: Env<V>, val: Env<V>)
    requires StageIsPart(ir, sg, params) && Solves(f, val, sg.nodes) && Within(inputs, val) && Within(params, val)
    requires forall x :: Reads(sg, x) ==> x in inputs
    ensures Within(Outs(f, sg, params + inputs), val)
    ensures Outs(f, sg, params + inputs).Keys == Names(sg.outputs)
  {
    var env := params + inputs;
    assert forall x :: x in sg.inputs ==> x in env by {
      assert forall x :: x in sg.inputs && !IsParam(sg, x) ==> Reads(sg, x);
    }
    forall i, x | 0 <= i < |sg.nodes| && x in sg.nodes[i].inputs ensures x in env.Keys || x in Written(sg.nodes[..i]) {
      assert x in Names(sg.inputs) || x in Written(sg.nodes[..i]);
    }
    EvalWithin(f, sg.nodes, env, val);
  }

  /** The loop over the routes into one stage. */
  method Gather<V>(d: Deploy, name: string, init: Env<V>, outs: map<string, Env<V>>, ghost val: Env<V>)
    returns (inputs: Env<V>)
    requires forall r :: r in d.fwdIn && r.dest == name ==> r.value in init
    requires forall r :: r in d.fwd && r.dest == name ==> r.src in outs && r.value in outs[r.src]
    requires Within(init, val) && forall n :: n in outs ==> Within(outs[n], val)
    ensures Within(inputs, val)
    ensures forall r :: (r in d.fwdIn || r in d.fwd) && r.dest == name ==> r.value in inputs
  {
    inputs := map[];
    for i := 0 to |d.fwdIn|
      invariant Within(inputs, val)
      invariant forall k :: 0 <= k < i && d.fwdIn[k].dest == name ==> d.fwdIn[k].value in inputs
    {
      var r := d.fwdIn[i];
      if r.dest == name { inputs := inputs[r.value := init[r.value]]; }
    }
    for i := 0 to |d.fwd|
      invariant Within(inputs, val)
      invariant forall k :: 0 <= k < |d.fwdIn| && d.fwdIn[k].dest == name ==> d.fwdIn[k].value in inputs
      invariant forall k :: 0 <= k < i && d.fwd[k].dest == name ==> d.fwd[k].value in inputs
    {
      var r := d.fwd[i];
      if r.dest == name { inputs := inputs[r.value := outs[r.src][r.value]]; }
    }
  }

  // ---------- what the routes say ----------

  lemma RouteIn(ir: Graph, sgs: seq<Graph>, r: Route)
    requires Named(sgs) && OneProducer(ir, sgs) && OutputsProduced(ir, sgs) && AllRoutable(sgs, Partition(ir, sgs))
    requires r in Deployed(sgs, Partition(ir, sgs)).fwdIn
    ensures r.value in ir.inputs && !IsParam(ir, r.value)
  {
    FwdRoutesAre(sgs, Partition(ir, sgs), In, r);
    var c :| c in Partition(ir, sgs) && SideOf(c) == In && r == FwdRoute(sgs, c);
    PartitionConnects(ir, sgs, c);
  }

  lemma RouteBetween(ir: Graph, sgs: seq<Graph>, r: Route)
    requires Named(sgs) && OneProducer(ir, sgs) && OutputsProduced(ir, sgs) && AllRoutable(sgs, Partition(ir, sgs))
    requires r in Deployed(sgs, Partition(ir, sgs)).fwd
    ensures exists j :: 0 <= j < |sgs| && r.src == sgs[j].name && r.value in sgs[j].outputs
  {
    FwdRoutesAre(sgs, Partition(ir, sgs), Inner, r);
    var c :| c in Partition(ir, sgs) && SideOf(c) == Inner && r == FwdRoute(sgs, c);
    PartitionConnects(ir, sgs, c);
    var i :| 0 <= i < |sgs| && IntoStage(ir, sgs, i, c);
  }

  lemma RouteOut(ir: Graph, sgs: seq<Graph>, r: Route)
    requires Named(sgs) && OneProducer(ir, sgs) && OutputsProduced(ir, sgs) && AllRoutable(sgs, Partition(ir, sgs))
    requires r in Deployed(sgs, Partition(ir, sgs)).fwdOut
    ensures r.value in ir.outputs && exists j :: 0 <= j < |sgs| && r.src == sgs[j].name && r.value in sgs[j].outputs
  {
    FwdRoutesAre(sgs, Partition(ir, sgs), Out, r);
    var c :| c in Partition(ir, sgs) && SideOf(c) == Out && r == FwdRoute(sgs, c);
    PartitionConnects(ir, sgs, c);
    forall i | 0 <= i < |sgs| ensures !IntoStage(ir, sgs, i, c) { assert sgs[i].name != MASTER; }
  }

  /** Whatever a stage reads arrives on a route. */
  lemma RouteFor(ir: Graph, sgs: seq<Graph>, i: nat, x: string)
    requires Named(sgs) && OneProducer(ir, sgs) && OutputsProduced(ir, sgs) && AllRoutable(sgs, Partition(ir, sgs))
    requires forall j :: 0 <= j < |sgs| ==> NoRepeats(sgs[j].inputs)
    requires i < |sgs| && Reads(sgs[i], x) && Supplied(ir, sgs, i, x)
    ensures var d := Deployed(sgs, Partition(ir, sgs));
            exists r :: (r in d.fwdIn || r in d.fwd) && r.dest == sgs[i].name && r.value == x
  {
    hide Deployed, Partition, Supplied, OneProducer, OutputsProduced, AllRoutable, NoRepeats, ToGraph;
    var d := Deployed(sgs, Partition(ir, sgs));
    EntersIff(ir, sgs, i, x);
    RoutesOfConnections(sgs, Partition(ir, sgs), x, sgs[i].name);
    ToGraphHas(AllFwd(d), x, sgs[i].name);
    var r :| r in AllFwd(d) && r.value == x && r.dest == sgs[i].name;
    OutGoesToMaster(sgs, Partition(ir, sgs), r);
  }

  lemma OutGoesToMaster(sgs: seq<Graph>, cons: seq<Connection>, r: Route)
    requires AllRoutable(sgs, cons)
    ensures r in Deployed(sgs, cons).fwdOut ==> r.dest == MASTER
  {
    FwdRoutesAre(sgs, cons, Out, r);
  }

  /** Every network output leaves some stage. */
  lemma OutputLeaves(ir: Graph, sgs: seq<Graph>, o: string)
    requires Named(sgs) && OneProducer(ir, sgs) && OutputsProduced(ir, sgs) && AllRoutable(sgs, Partition(ir, sgs)) &&
             o in ir.outputs
    ensures exists r :: r in Deployed(sgs, Partition(ir, sgs)).fwdOut && r.value == o
  {
    var outVals := OutVals(ir, sgs);
    var k :| 0 <= k < |ir.outputs| && ir.outputs[k] == o;
    var c := OutCons(outVals, ir.outputs)[k];
    assert c in Partition(ir, sgs);
    OutValsIs(ir, sgs, o);
    FwdRoutesAre(sgs, Partition(ir, sgs), Out, FwdRoute(sgs, c));
  }

  // ---------- the run ----------

  ghost predicate RanFirst<V>(sgs: seq<Graph>, order: seq<nat>, k: nat, outs: map<string, Env<V>>, val: Env<V>)
    requires k <= |order| && Indices(sgs, order)
  {
    && (forall n :: n in outs ==> Within(outs[n], val))
    && (forall a :: 0 <= a < k ==>
          sgs[order[a]].name in outs && outs[sgs[order[a]].name].Keys == Names(sgs[order[a]].outputs))
  }

  lemma RanMore<V>(sgs: seq<Graph>, order: seq<nat>, k: nat, outs: map<string, Env<V>>, val: Env<V>, out: Env<V>)
    requires k < |order| && Indices(sgs, order) && Named(sgs)
    requires RanFirst(sgs, order, k, outs, val)
    requires Within(out, val) && out.Keys == Names(sgs[order[k]].outputs)
    ensures RanFirst(sgs, order, k + 1, outs[sgs[order[k]].name := out], val)
  {
    hide Within, Names;
    forall a | 0 <= a < k && sgs[order[a]].name == sgs[order[k]].name ensures order[a] == order[k] {
      assert !(order[a] < order[k]) && !(order[k] < order[a]);
    }
  }

  lemma SourcesRan<V>(ir: Graph, sgs: seq<Graph>, init: Env<V>, params: Env<V>, order: seq<nat>, k: nat,
                      outs: map<string, Env<V>>, val: Env<V>, r: Route)
    requires Cut(ir, sgs, init, params) && Topological(sgs, Deployed(sgs, Partition(ir, sgs)), order)
    requires k < |order| && RanFirst(sgs, order, k, outs, val)
    requires r in Deployed(sgs, Partition(ir, sgs)).fwd && r.dest == sgs[order[k]].name
    ensures r.src in outs && r.value in outs[r.src]
  {
    RouteBetween(ir, sgs, r);
    hide Deployed, Partition, OneProducer, OutputsProduced, AllRoutable, NoRepeats, Supplied, StageIsPart, Ordered,
      SingleAssignment;
    var j :| 0 <= j < |sgs| && r.src == sgs[j].name && r.value in sgs[j].outputs;
    assert j in order;
    var a :| 0 <= a < |order| && order[a] == j;
    assert a < k;
  }

  /** Running the stages in a topological order of the forward routes, each with inputs taken only from its routes,
      gives exactly the outputs of the unpartitioned network. */
  method RunStages<V>(f: Operators<V>, ir: Graph, sgs: seq<Graph>, d: Deploy, order: seq<nat>, init: Env<V>,
                      params: Env<V>)
    returns (results: Env<V>)
    requires Cut(ir, sgs, init, params) && d == Deployed(sgs, Partition(ir, sgs)) && Topological(sgs, d, order)
    ensures results.Keys == Names(ir.outputs)
    ensures Within(results, Whole(f, ir, init, params))
  {
    hide Deployed, Partition, Named, OneProducer, OutputsProduced, AllRoutable, NoRepeats, Supplied, StageIsPart,
      Ordered, SingleAssignment, Whole, Outs;
    ghost var val := Whole(f, ir, init, params);
    WholeSolves(f, ir, sgs, init, params);
    var outs: map<string, Env<V>> := map[];
    results := map[];
    for k := 0 to |order|
      invariant RanFirst(sgs, order, k, outs, val)
      invariant Within(results, val)
      invariant forall x :: x in results ==> x in ir.outputs
      invariant forall r, a :: r in d.fwdOut && 0 <= a < k && r.src == sgs[order[a]].name ==> r.value in results
    {
      var sg := sgs[order[k]];
      forall r | r in d.fwdIn ensures r.value in init { RouteIn(ir, sgs, r); }
      forall r | r in d.fwd && r.dest == sg.name ensures r.src in outs && r.value in outs[r.src] {
        SourcesRan(ir, sgs, init, params, order, k, outs, val, r);
      }
      var inputs := Gather(d, sg.name, init, outs, val);
      forall x | Reads(sg, x) ensures x in inputs { RouteFor(ir, sgs, order[k], x); }
      StageWithin(f, ir, sg, inputs, params, val);
      RanMore(sgs, order, k, outs, val, Outs(f, sg, params + inputs));
      outs := outs[sg.name := Outs(f, sg, params + inputs)];
      results := Collect(ir, sgs, d, order[k], outs[sg.name], results, val);
    }
    forall o | o in ir.outputs ensures o in results {
      OutputLeaves(ir, sgs, o);
      var r :| r in d.fwdOut && r.value == o;
      RouteOut(ir, sgs, r);
      var j :| 0 <= j < |sgs| && r.src == sgs[j].name;
      assert j in order;
    var a :| 0 <= a < |order| && order[a] == j;
    }
  }

  /** The loop over the routes from a stage out of the network. */
  method Collect<V>(ir: Graph, sgs: seq<Graph>, d: Deploy, i: nat, out: Env<V>, before: Env<V>, ghost val: Env<V>)
    returns (results: Env<V>)
    requires Named(sgs) && OneProducer(ir, sgs) && OutputsProduced(ir, sgs) && AllRoutable(sgs, Partition(ir, sgs))
    requires d == Deployed(sgs, Partition(ir, sgs)) && i < |sgs|
    requires out.Keys == Names(sgs[i].outputs) && Within(out, val) && Within(before, val)
    requires forall x :: x in before ==> x in ir.outputs
    ensures Within(results, val) && before.Keys <= results.Keys
    ensures forall x :: x in results ==> x in ir.outputs
    ensures forall r :: r in d.fwdOut && r.src == sgs[i].name ==> r.value in results
  {
    hide Deployed, Partition, OneProducer, OutputsProduced, AllRoutable;
    results := before;
    for j := 0 to |d.fwdOut|
      invariant Within(results, val) && before.Keys <= results.Keys
      invariant forall x :: x in results ==> x in ir.outputs
      invariant forall k :: 0 <= k < j && d.fwdOut[k].src == sgs[i].name ==> d.fwdOut[k].value in results
    {
      var r := d.fwdOut[j];
      if r.src == sgs[i].name {
        RouteOut(ir, sgs, r);
        SameName(sgs, i, r);
        results := results[r.value := out[r.value]];
      }
    }
  }

  lemma SameName(sgs: seq<Graph>, i: nat, r: Route)
    requires Named(sgs) && i < |sgs| && r.src == sgs[i].name
    requires exists j :: 0 <= j < |sgs| && r.src == sgs[j].name && r.value in sgs[j].outputs
    ensures r.value in sgs[i].outputs
  {
    var j :| 0 <= j < |sgs| && r.src == sgs[j].name && r.value in sgs[j].outputs;
    assert !(j < i) && !(i < j);
  }
}
