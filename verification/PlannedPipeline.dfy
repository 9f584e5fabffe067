/**
 Every plan of the search runs: when the layers are a cut of the network, so are the stages of a plan,
 and their pipelined run computes the network.
 */
module PlannedPipeline {
  import opened IR
  import opened MergeCache
  import opened LayerMerging
  import opened PlannedStages
  import G = GraphMerge
  import R = DeadNodes
  import D = Deployment
  import N = Routing
  import T = Staging
  import opened StagedRun
  import P = PipelinedNetwork
  import Run = PipelineRun

  // ---------- merging and removing keep a graph proper ----------

  /** Both steps treat the outputs of a node alike: all or none of them are available, and all or none of them are
      live. */
  ghost predicate WholeNodes(name: string, base: Graph, tgt: Graph, required: set<string>) {
    && (forall n, x :: n in base.nodes + tgt.nodes && G.Available(n, G.Avail(base, tgt)) && x in n.outputs ==>
          x in G.Avail(base, tgt))
    && R.AllOrNothing(G.Merged(name, base, tgt, required))
  }

  lemma NothingIsLost(name: string, base: Graph, tgt: Graph, required: set<string>)
    requires WholeNodes(name, base, tgt, required)
    ensures G.NothingLost(base, tgt, required)
  {
    hide R.AllOrNothing, G.Merged, G.Avail, G.Available, G.Exported;
    forall x ensures !G.Lost(base.nodes + tgt.nodes, G.Avail(base, tgt), x) { }
  }

  lemma {:induction false} SelectSingle(nodes: seq<Node>, avail: set<string>, s: set<Node>, some: set<string>)
    requires SingleAssignment(nodes, avail) && some <= avail
    ensures SingleAssignment(R.Select(nodes, s), some)
  {
    if nodes != [] {
      var front, n := nodes[..|nodes| - 1], nodes[|nodes| - 1];
      SingleFront(nodes, avail);
      SelectSingle(front, avail, s, some);
      if n in s {
        forall x | x in n.outputs ensures x !in some && x !in Written(R.Select(front, s)) {
          WrittenHas(R.Select(front, s), x);
          R.SelectMembers(front, s);
          NotInFront(nodes, avail, x);
        }
        assert G.DistinctOutputs([n]) by { assert nodes[|nodes| - 1] == n; }
        G.SingleSnoc(R.Select(front, s), n, some);
      }
    }
  }

  lemma SingleFront(nodes: seq<Node>, avail: set<string>)
    requires SingleAssignment(nodes, avail) && nodes != []
    ensures SingleAssignment(nodes[..|nodes| - 1], avail)
  {
  }

  lemma NotInFront(nodes: seq<Node>, avail: set<string>, x: string)
    requires SingleAssignment(nodes, avail) && nodes != [] && x in nodes[|nodes| - 1].outputs
    ensures x !in avail && forall w :: w in nodes[..|nodes| - 1] ==> x !in w.outputs
  {
    forall w | w in nodes[..|nodes| - 1] ensures x !in w.outputs {
      var i :| 0 <= i < |nodes| - 1 && nodes[..|nodes| - 1][i] == w;
      assert nodes[i] == w;
    }
  }

  lemma RemovedProper(g: Graph)
    requires R.Proper(g) && R.AllOrNothing(g)
    ensures R.Proper(R.Removed(g)) && forall n :: n in R.Removed(g).nodes ==> n in g.nodes
  {
    var kept := R.Prune(g.nodes, g.outputs);
    R.RemovedRuns(g);
    R.PruneIsSelection(g.nodes, g.outputs);
    R.SelectMembers(g.nodes, R.NodeSet(kept));
    R.KeepNamesMembers(g.inputs, R.Refs(kept, g.outputs));
    SelectSingle(g.nodes, Names(g.inputs), R.NodeSet(kept), Names(R.Removed(g).inputs));
  }

  lemma MergeLayerProper(name: string, base: Graph, tgt: Graph, required: set<string>)
    requires G.Mergeable(base, tgt) && WholeNodes(name, base, tgt, required)
    ensures var g := MergeLayer(name, base, tgt, required);
            R.Proper(g) && forall n :: n in g.nodes ==> n in base.nodes || n in tgt.nodes
  {
    var merged := G.Merged(name, base, tgt, required);
    NothingIsLost(name, base, tgt, required);
    G.MergedProper(name, base, tgt, required);
    RemovedProper(merged);
    forall n | n in merged.nodes
      ensures n in base.nodes || n in tgt.nodes
    {
      G.PassMembers(base.nodes + tgt.nodes, G.Avail(base, tgt), n);
    }
  }

  // ---------- ranges of layers are parts of the network ----------

  /** Graphs cut from one single-assignment network, with parameters from outside, can be merged. */
  lemma PartsMergeable(ir: Graph, avail: set<string>, g1: Graph, g2: Graph)
    requires SingleAssignment(ir.nodes, avail) && R.Proper(g1) && R.Proper(g2)
    requires forall n :: n in g1.nodes || n in g2.nodes ==> n in ir.nodes
    requires forall x :: G.MergedParam(g1, g2, x) ==> x in avail
    ensures G.Mergeable(g1, g2)
  {
    hide R.Proper;
    var all := g1.nodes + g2.nodes;
    forall a, b, x | a in all && b in all && x in a.outputs && x in b.outputs
      ensures a == b
    {
      OneWriter(ir.nodes, avail, a, b, x);
    }
    forall x | G.MergedParam(g1, g2, x) ensures x !in Written(all) {
      WrittenHas(all, x);
      forall k | 0 <= k < |all| ensures x !in all[k].outputs { NotAvailable(ir.nodes, avail, all[k], x); }
    }
  }

  lemma OneWriter(nodes: seq<Node>, avail: set<string>, a: Node, b: Node, x: string)
    requires SingleAssignment(nodes, avail) && a in nodes && b in nodes && x in a.outputs && x in b.outputs
    ensures a == b
  {
    var i :| 0 <= i < |nodes| && nodes[i] == a;
    var j :| 0 <= j < |nodes| && nodes[j] == b;
    assert i == j;
  }

  lemma NotAvailable(nodes: seq<Node>, avail: set<string>, n: Node, x: string)
    requires SingleAssignment(nodes, avail) && n in nodes && x in avail
    ensures x !in n.outputs
  {
    var i :| 0 <= i < |nodes| && nodes[i] == n;
  }

  ghost predicate LayerIsPart<V>(ir: Graph, g: Graph, params: Env<V>) { StageIsPart(ir, g, params) && R.Proper(g) }

  ghost predicate LayersAreParts<V>(ir: Graph, nodes: seq<Graph>, params: Env<V>) {
    forall j :: 0 <= j < |nodes| ==> LayerIsPart(ir, nodes[j], params)
  }

  /** What holds of nodes holds along all merges of consecutive layers. */
  ghost predicate AllWhole(c: Chain)
    requires c.Valid()
  {
    forall from, m :: 0 <= from < m < |c.nodes| ==> StepWhole(c, from, m)
  }

  ghost predicate StepWhole(c: Chain, from: nat, m: nat)
    requires c.Valid() && from < m < |c.nodes|
  {
    var base := At(c, from, m - 1);
    WholeNodes(c.nameOf(Merged(from, m)), base, c.nodes[m],
               Required(base.name, c.nodes[m].name, RestAt(c, from, m - 1)))
  }

  /** The parameters of a range are those of its layers. */
  lemma RangeParams<V>(ir: Graph, c: Chain, params: Env<V>, from: nat, m: nat, x: string)
    requires c.Valid() && from <= m < |c.nodes| && N.Described(c.nodes) && LayersAreParts(ir, c.nodes, params)
    requires x in At(c, from, m).inputs && IsParam(At(c, from, m), x)
    ensures x in params
  {
    hide At, Chain.Valid;
    RangeIs(c, from, m, x);
    RangeDescribed(c, from, m, x);
    var a :| from <= a <= m && a < |c.nodes| && x in c.nodes[a].inputs;
    assert LayerIsPart(ir, c.nodes[a], params) && IsParam(c.nodes[a], x);
  }

  lemma RangeMergeable<V>(ir: Graph, c: Chain, avail: set<string>, params: Env<V>, from: nat, m: nat)
    requires c.Valid() && from < m < |c.nodes| && N.Described(c.nodes) && LayersAreParts(ir, c.nodes, params)
    requires SingleAssignment(ir.nodes, avail) && params.Keys <= avail && LayerIsPart(ir, At(c, from, m - 1), params)
    ensures G.Mergeable(At(c, from, m - 1), c.nodes[m])
  {
    hide At, Chain.Valid, N.Described, SingleAssignment, R.Proper, Runs;
    var base := At(c, from, m - 1);
    assert LayerIsPart(ir, c.nodes[m], params);
    PartsMergeable(ir, avail, base, c.nodes[m]);
  }

  lemma {:induction false} RangeIsPart<V>(ir: Graph, c: Chain, avail: set<string>, params: Env<V>, from: nat, m: nat)
    requires c.Valid() && from <= m < |c.nodes| && N.Described(c.nodes) && LayersAreParts(ir, c.nodes, params) &&
             AllWhole(c)
    requires SingleAssignment(ir.nodes, avail) && params.Keys <= avail
    ensures LayerIsPart(ir, At(c, from, m), params)
    decreases m
  {
    hide At, RestAt, Required, MergeLayer, Chain.Valid, N.Described, SingleAssignment, WholeNodes, G.Mergeable;
    if m == from {
      AtStart(c, from);
      assert LayerIsPart(ir, c.nodes[m], params);
    } else {
      RangeIsPart(ir, c, avail, params, from, m - 1);
      RangeMergeable(ir, c, avail, params, from, m);
      AtStep(c, from, m);
      var base, tgt := At(c, from, m - 1), c.nodes[m];
      assert StepWhole(c, from, m) && LayerIsPart(ir, tgt, params);
      MergeLayerProper(c.nameOf(Merged(from, m)), base, tgt, Required(base.name, tgt.name, RestAt(c, from, m - 1)));
      hide LayersAreParts, AllWhole;
      forall x | x in At(c, from, m).inputs && IsParam(At(c, from, m), x)
        ensures x in params
      {
        RangeParams(ir, c, params, from, m, x);
      }
    }
  }

  // ---------- what is routed between layers can be routed between stages ----------

  ghost predicate ValueRoutable(graphs: seq<Graph>, x: string) {
    D.Info(graphs, x).Some? && (D.Info(graphs, x).value.isBatch || D.Info(graphs, x).value.isLoss)
  }

  lemma ConnectedRoutable(ir: Graph, nodes: seq<Graph>, x: string, con: D.Connection)
    requires D.OutputsProduced(ir, nodes) && D.AllRoutable(nodes, D.Partition(ir, nodes))
    requires con in D.Partition(ir, nodes) && con.value == x
    ensures ValueRoutable(nodes, x)
  {
    hide D.Partition, D.OutputsProduced;
    var k :| 0 <= k < |D.Partition(ir, nodes)| && D.Partition(ir, nodes)[k] == con;
    assert D.Routable(nodes, D.Partition(ir, nodes)[k]);
  }

  /** What the layers need and offer. */
  ghost predicate Layered(ir: Graph, c: Chain) {
    && c.Valid() && (forall id :: c.nameOf(id) != D.MASTER)
    && N.Named(c.nodes) && N.OneProducer(ir, c.nodes) && N.Described(c.nodes) && D.OutputsProduced(ir, c.nodes)
    && D.AllRoutable(c.nodes, D.Partition(ir, c.nodes))
    && LayersSupplied(ir, c.nodes) && forall j :: 0 <= j < |c.nodes| ==> N.NoRepeats(c.nodes[j].inputs)
  }

  lemma ReadRoutable(ir: Graph, c: Chain, a: nat, x: string)
    requires Layered(ir, c) && a < |c.nodes| && D.Reads(c.nodes[a], x)
    ensures ValueRoutable(c.nodes, x)
  {
    hide Chain.Valid, N.Named, N.OneProducer, N.Described, D.OutputsProduced, D.Partition, D.AllRoutable, N.NoRepeats,
      N.Supplied;
    assert N.Supplied(ir, c.nodes, a, x);
    N.EntersIff(ir, c.nodes, a, x);
    var con :| con in D.Partition(ir, c.nodes) && con.value == x && con.dest == c.nodes[a].name;
    ConnectedRoutable(ir, c.nodes, x, con);
  }

  lemma OutputRoutable(ir: Graph, c: Chain, o: string)
    requires Layered(ir, c) && o in ir.outputs
    ensures ValueRoutable(c.nodes, o)
  {
    hide Chain.Valid, N.Named, N.OneProducer, N.Described, D.OutVals, D.InterCons, D.MasterCons, D.AllRoutable,
      N.NoRepeats;
    var k :| 0 <= k < |ir.outputs| && ir.outputs[k] == o;
    var con := D.OutCons(D.OutVals(ir, c.nodes), ir.outputs)[k];
    assert con in D.Partition(ir, c.nodes);
    ConnectedRoutable(ir, c.nodes, o, con);
  }

  /** Stages describe a value as the layers do. */
  lemma SameInfo(c: Chain, plan: seq<T.Stage>, i: nat, x: string)
    requires c.Valid() && Consecutive(plan, |c.nodes|) && N.Described(c.nodes) && i < |plan|
    requires x in StageGraph(c, plan, i).inputs || x in StageGraph(c, plan, i).outputs
    ensures D.Info(StageGraphs(c, plan), x) == D.Info(c.nodes, x)
  {
    StagesDescribed(c, plan);
    StageDescribed(c, plan, i, x);
    hide StageGraph, Chain.Valid, Consecutive, N.Described;
    var sgs := StageGraphs(c, plan);
    N.InfoIs(sgs, i, x);
    var k :| plan[i].from <= k <= plan[i].to - 1 && k < |c.nodes| && x in c.nodes[k].values &&
      c.nodes[k].values[x] == sgs[i].values[x];
    N.InfoIs(c.nodes, k, x);
  }

  lemma StagesRoutable(ir: Graph, c: Chain, plan: seq<T.Stage>)
    requires Layered(ir, c) && Consecutive(plan, |c.nodes|)
    requires D.OutputsProduced(ir, StageGraphs(c, plan)) && N.Named(StageGraphs(c, plan)) &&
             N.OneProducer(ir, StageGraphs(c, plan))
    ensures D.AllRoutable(StageGraphs(c, plan), D.Partition(ir, StageGraphs(c, plan)))
  {
    hide StageGraph, Chain.Valid, Consecutive, N.Named, N.OneProducer, N.Described, D.OutputsProduced, D.Partition,
      D.Reads, LayersSupplied,
      N.NoRepeats;
    var sgs := StageGraphs(c, plan);
    var cons := D.Partition(ir, sgs);
    forall k | 0 <= k < |cons| ensures D.Routable(sgs, cons[k]) {
      var x := cons[k].value;
      assert cons[k] in cons;
      N.PartitionConnects(ir, sgs, cons[k]);
      if N.OutOfNetwork(ir, sgs, cons[k]) {
        var j :| 0 <= j < |sgs| && cons[k].src == sgs[j].name && x in sgs[j].outputs;
        OutputRoutable(ir, c, x);
        SameInfo(c, plan, j, x);
      } else {
        var i :| 0 <= i < |sgs| && N.IntoStage(ir, sgs, i, cons[k]);
        var a := LayerReads(c, plan, i, x);
        ReadRoutable(ir, c, a, x);
        ReadIsInput(sgs[i], x);
        SameInfo(c, plan, i, x);
      }
    }
  }

  lemma ReadIsInput(g: Graph, x: string)
    requires D.Reads(g, x)
    ensures x in g.inputs
  {
  }

  // ---------- the theorems ----------

  lemma StageIsAPart<V>(ir: Graph, c: Chain, plan: seq<T.Stage>, i: nat, avail: set<string>, params: Env<V>)
    requires c.Valid() && Consecutive(plan, |c.nodes|) && i < |plan|
    requires N.Described(c.nodes) && LayersAreParts(ir, c.nodes, params) && AllWhole(c)
    requires SingleAssignment(ir.nodes, avail) && params.Keys <= avail
    ensures StageIsPart(ir, StageGraph(c, plan, i), params)
  {
    hide At, Chain.Valid, N.Described, LayersAreParts, AllWhole, SingleAssignment, StageIsPart;
    StagesApart(plan, |c.nodes|, i, i);
    RangeIsPart(ir, c, avail, params, plan[i].from, plan[i].to - 1);
  }

  /** If the layers are a cut of the network, the stages of a plan are one if and only if no network output is
      swallowed. */
  lemma PlanIsCutIff<V>(ir: Graph, c: Chain, p: T.Problem, plan: seq<T.Stage>, init: Env<V>, params: Env<V>)
    requires p.Valid() && T.IsPlan(p, plan, |c.nodes|)
    requires Layered(ir, c) && Cut(ir, c.nodes, init, params) && LayersAreParts(ir, c.nodes, params) && AllWhole(c)
    ensures Consecutive(plan, |c.nodes|)
    ensures Cut(ir, StageGraphs(c, plan), init, params) <==> NoneSwallowed(ir, c.nodes, plan)
  {
    hide StageGraph, Chain.Valid, Consecutive, N.Named, N.OneProducer, N.Described, D.OutputsProduced, D.Partition,
      D.AllRoutable, D.Reads,
      LayersSupplied, N.NoRepeats, N.Supplied, NoneSwallowed, T.IsPlan, LayersAreParts, AllWhole, SingleAssignment,
      Ordered, StageIsPart;
    PlanServes(ir, c, p, plan);
    var sgs := StageGraphs(c, plan);
    if NoneSwallowed(ir, c.nodes, plan) {
      StagesRoutable(ir, c, plan);
      forall i | 0 <= i < |sgs| ensures StageIsPart(ir, sgs[i], params) {
        StageIsAPart(ir, c, plan, i, (init + params).Keys, params);
      }
    }
  }

  /** Layers that are a cut of the network, and a plan of the search that swallows no network output. */
  ghost predicate Planned<V>(ir: Graph, c: Chain, p: T.Problem, plan: seq<T.Stage>, params: Env<V>) {
    && p.Valid() && T.IsPlan(p, plan, |c.nodes|) && Consecutive(plan, |c.nodes|)
    && Layered(ir, c) && LayersAreParts(ir, c.nodes, params) && AllWhole(c) && NoneSwallowed(ir, c.nodes, plan)
  }

  lemma PlannedDeployable<V>(ir: Graph, c: Chain, p: T.Problem, plan: seq<T.Stage>, params: Env<V>)
    requires Planned(ir, c, p, plan, params)
    ensures var sgs := StageGraphs(c, plan); D.OutputsProduced(ir, sgs) && D.AllRoutable(sgs, D.Partition(ir, sgs))
  {
    PlanServes(ir, c, p, plan);
    StagesRoutable(ir, c, plan);
  }

  ghost function PlanDeployment<V>(ir: Graph, c: Chain, p: T.Problem, plan: seq<T.Stage>, params: Env<V>): D.Deploy
    requires Planned(ir, c, p, plan, params)
  {
    PlannedDeployable(ir, c, p, plan, params);
    D.Deployed(StageGraphs(c, plan), D.Partition(ir, StageGraphs(c, plan)))
  }

  /** Whatever plan the search finds, if it swallows no network output then the pipelined run of its deployment never
      deadlocks, and can be continued until every stage holds the values of the uncut network for every split. */
  lemma PlannedPipelineComputesNetwork<V(!new)>(f: Operators<V>, ir: Graph, c: Chain, p: T.Problem, plan: seq<T.Stage>,
                                                order: seq<nat>, batch: seq<Env<V>>, params: Env<V>,
                                                run: seq<Run.State<Env<V>>>)
    returns (full: seq<Run.State<Env<V>>>)
    requires Planned(ir, c, p, plan, params) && P.AllCut(ir, c.nodes, batch, params)
    requires var sgs, d := StageGraphs(c, plan), PlanDeployment(ir, c, p, plan, params);
             && Topological(sgs, d, order)
             && Run.IsRun(P.PlanOf(sgs, order, d.fwd, |batch|), P.Staged(f, sgs, order, d, batch, params), run)
    ensures var sgs, d := StageGraphs(c, plan), PlanDeployment(ir, c, p, plan, params);
            && Run.IsRun(P.PlanOf(sgs, order, d.fwd, |batch|), P.Staged(f, sgs, order, d, batch, params), full) &&
            run <= full
            && Run.Finished(P.PlanOf(sgs, order, d.fwd, |batch|), full[|full| - 1])
            && P.BatchDone(f, ir, sgs, order, batch, params, full[|full| - 1].splitValues)
  {
    PlanServes(ir, c, p, plan);
    PlannedDeployable(ir, c, p, plan, params);
    var sgs, d := StageGraphs(c, plan), PlanDeployment(ir, c, p, plan, params);
    forall s | 0 <= s < |batch|
      ensures Cut(ir, sgs, batch[s], params)
    {
      PlanIsCutIff(ir, c, p, plan, batch[s], params);
    }
    full := P.PipelineComputesNetwork(f, ir, sgs, d, order, batch, params, run);
  }

  // ---------- nodes with one output ----------

  ghost predicate OneOutput(g: Graph) { forall n :: n in g.nodes ==> |n.outputs| <= 1 }

  lemma {:induction false} RangeOneOutput(c: Chain, from: nat, m: nat)
    requires c.Valid() && from <= m < |c.nodes| && forall j :: 0 <= j < |c.nodes| ==> OneOutput(c.nodes[j])
    ensures OneOutput(At(c, from, m))
    decreases m
  {
    hide At, RestAt, Required, MergeLayer, Chain.Valid;
    if m == from {
      AtStart(c, from);
    } else {
      RangeOneOutput(c, from, m - 1);
      AtStep(c, from, m);
      var base := At(c, from, m - 1);
      MergeLayerOneOutput(c.nameOf(Merged(from, m)), base, c.nodes[m],
                          Required(base.name, c.nodes[m].name, RestAt(c, from, m - 1)));
    }
  }

  lemma SingleOutputWhole(n: Node, names: set<string>)
    requires |n.outputs| <= 1
    ensures G.Available(n, names) ==> forall x :: x in n.outputs ==> x in names
    ensures R.Touches(n, names) ==> R.FullyLive(n, names)
  {
  }

  lemma OneOutputLive(g: Graph)
    requires OneOutput(g)
    ensures R.AllOrNothing(g)
  {
    hide R.Touches, R.FullyLive;
    forall n | n in g.nodes
      ensures R.Touches(n, R.Live(g)) ==> R.FullyLive(n, R.Live(g))
    {
      SingleOutputWhole(n, R.Live(g));
    }
  }

  lemma MergedOneOutput(name: string, base: Graph, tgt: Graph, required: set<string>)
    requires OneOutput(base) && OneOutput(tgt)
    ensures OneOutput(G.Merged(name, base, tgt, required))
  {
    var merged := G.Merged(name, base, tgt, required);
    forall n | n in merged.nodes
      ensures |n.outputs| <= 1
    {
      G.PassMembers(base.nodes + tgt.nodes, G.Avail(base, tgt), n);
    }
  }

  lemma RemovedOneOutput(g: Graph)
    requires OneOutput(g)
    ensures OneOutput(R.Removed(g))
  {
    R.PruneIsSelection(g.nodes, g.outputs);
    R.SelectMembers(g.nodes, R.NodeSet(R.Prune(g.nodes, g.outputs)));
  }

  lemma MergeLayerOneOutput(name: string, base: Graph, tgt: Graph, required: set<string>)
    requires OneOutput(base) && OneOutput(tgt)
    ensures OneOutput(MergeLayer(name, base, tgt, required)) && WholeNodes(name, base, tgt, required)
  {
    hide G.Merged, R.Removed, R.AllOrNothing, G.Available, G.Avail;
    MergedOneOutput(name, base, tgt, required);
    OneOutputLive(G.Merged(name, base, tgt, required));
    RemovedOneOutput(G.Merged(name, base, tgt, required));
    forall n | n in base.nodes + tgt.nodes
      ensures G.Available(n, G.Avail(base, tgt)) ==> forall x :: x in n.outputs ==> x in G.Avail(base, tgt)
    {
      SingleOutputWhole(n, G.Avail(base, tgt));
    }
  }

  /** When every node writes at most one value, nothing is lost on the way from layers to stages. */
  lemma OneOutputIsWhole(c: Chain)
    requires c.Valid() && forall j :: 0 <= j < |c.nodes| ==> OneOutput(c.nodes[j])
    ensures AllWhole(c)
  {
    hide At, RestAt, Required, Chain.Valid, WholeNodes, OneOutput;
    forall from, m | 0 <= from < m < |c.nodes| ensures StepWhole(c, from, m) {
      RangeOneOutput(c, from, m - 1);
      var base := At(c, from, m - 1);
      MergeLayerOneOutput(c.nameOf(Merged(from, m)), base, c.nodes[m],
                          Required(base.name, c.nodes[m].name, RestAt(c, from, m - 1)));
    }
  }
}
