/**
 From the layers to the stages of a plan: the search puts consecutive layers into a stage and takes
 the merged range as the stage's graph (src/graph/DPStaging.cpp).  What partition and deployment need
 of the stages holds whenever it holds of the layers, with one exception: a network output that is
 read again in its own stage and in no later layer is lost.
 */
module PlannedStages {
  import opened IR
  import opened MergeCache
  import opened LayerMerging
  import G = GraphMerge
  import R = DeadNodes
  import D = Deployment
  import N = Routing
  import T = Staging

  // ---------- what a merged range outputs ----------

  /** Of what earlier graphs output, exactly the values that later layers read are required. */
  lemma RequiredIffLater(c: Chain, from: nat, m: nat, x: string)
    requires c.Valid() && from < m < |c.nodes| && x in At(c, from, m - 1).outputs
    ensures x in Required(At(c, from, m - 1).name, c.nodes[m].name, RestAt(c, from, m - 1)) <==>
              InputOf(c.nodes, m + 1, |c.nodes|, x)
  {
    hide At, RestAt, OthersAnd;
    if InputOf(c.nodes, m + 1, |c.nodes|, x) { LaterRequires(c, from, m, x); }
    var base := At(c, from, m - 1);
    var rest := OthersAnd(c.nodes, from, m - 1, base);
    SameRequired(c, from, m - 1, x);
    if x in Required(base.name, c.nodes[m].name, rest) {
      var id :| id in rest && rest[id].name != base.name && rest[id].name != c.nodes[m].name && x in rest[id].inputs;
      OthersHave(c.nodes, from, m - 1, base, id);
      RangeIs(c, from, m - 1, x);
      assert id.index != m && id.index >= from;
    }
  }

  /** A value that some layer of the range outputs, and that a later layer reads or no layer of the range does. */
  ghost predicate Kept(nodes: seq<Graph>, from: nat, m: nat, x: string) {
    OutputOf(nodes, from, m, x) && (InputOf(nodes, m + 1, |nodes|, x) || !InputOf(nodes, from, m, x))
  }

  lemma ReadLater(nodes: seq<Graph>, from: nat, m: nat, x: string)
    requires Sorted(nodes) && from <= m < |nodes| && x in nodes[m].outputs
    ensures !InputOf(nodes, from, m, x)
  {
  }

  /** Exactly these are the outputs of a merged range. */
  lemma {:induction false} RangeOutputsIff(c: Chain, from: nat, m: nat, x: string)
    requires c.Valid() && from <= m < |c.nodes|
    ensures x in At(c, from, m).outputs <==> Kept(c.nodes, from, m, x)
    decreases m
  {
    hide At, RestAt, Required, MergeLayer, OutputOf, InputOf, Layers.Valid, IsParam, Sorted;
    if x in c.nodes[m].outputs { ReadLater(c.nodes, from, m, x); }
    if m == from {
      AtStart(c, from);
      SingleOutputs(c.nodes, from, x);
    } else {
      RangeOutputsIff(c, from, m - 1, x);
      AtStep(c, from, m);
      var base := At(c, from, m - 1);
      MergeLayerNames(c.nameOf(Merged(from, m)), base, c.nodes[m],
                      Required(base.name, c.nodes[m].name, RestAt(c, from, m - 1)), x);
      if x in base.outputs { RequiredIffLater(c, from, m, x); }
      OneMoreLayer(c.nodes, from, m, x);
    }
  }

  lemma SingleOutputs(nodes: seq<Graph>, from: nat, x: string)
    requires from < |nodes|
    ensures OutputOf(nodes, from, from, x) <==> x in nodes[from].outputs
  {
  }

  // ---------- how a merged range describes its values ----------

  ghost predicate InfoFrom(nodes: seq<Graph>, from: nat, m: nat, x: string, info: ValueInfo) {
    exists k :: from <= k <= m && k < |nodes| && x in nodes[k].values && nodes[k].values[x] == info
  }

  /** Every description comes from a layer of the range, and inputs and outputs are described. */
  ghost predicate DescribedBy(nodes: seq<Graph>, from: nat, m: nat, g: Graph, x: string) {
    && (x in g.values ==> InfoFrom(nodes, from, m, x, g.values[x]))
    && (x in g.inputs || x in g.outputs ==> x in g.values)
  }

  lemma MergeLayerValues(name: string, base: Graph, tgt: Graph, required: set<string>, x: string)
    ensures var g := MergeLayer(name, base, tgt, required);
            && (x in g.values ==>
                  (x in base.values && g.values[x] == base.values[x]) ||
                  (x in tgt.values && g.values[x] == tgt.values[x]))
            && (x in g.inputs || x in g.outputs ==> (x in base.values || x in tgt.values ==> x in g.values))
  {
    var merged := G.Merged(name, base, tgt, required);
    var refs := R.Refs(R.Prune(merged.nodes, merged.outputs), merged.outputs);
    R.KeepNamesMembers(merged.inputs, refs);
    R.KeepNamesMembers(merged.outputs, refs);
  }

  lemma InfoMore(nodes: seq<Graph>, from: nat, m: nat, x: string, info: ValueInfo)
    requires from < m < |nodes|
    ensures InfoFrom(nodes, from, m, x, info) <==>
            InfoFrom(nodes, from, m - 1, x, info) || (x in nodes[m].values && nodes[m].values[x] == info)
  {
  }

  lemma {:induction false} RangeDescribed(c: Chain, from: nat, m: nat, x: string)
    requires c.Valid() && from <= m < |c.nodes| && N.Described(c.nodes)
    ensures DescribedBy(c.nodes, from, m, At(c, from, m), x)
    decreases m
  {
    hide At, RestAt, Required, MergeLayer, Layers.Valid, IsParam, Sorted, InfoFrom;
    if m == from {
      AtStart(c, from);
      if x in c.nodes[m].values { SingleInfo(c.nodes, m, x); }
    } else {
      RangeDescribed(c, from, m - 1, x);
      AtStep(c, from, m);
      var base, g := At(c, from, m - 1), At(c, from, m);
      var required := Required(base.name, c.nodes[m].name, RestAt(c, from, m - 1));
      MergeLayerNames(c.nameOf(Merged(from, m)), base, c.nodes[m], required, x);
      MergeLayerValues(c.nameOf(Merged(from, m)), base, c.nodes[m], required, x);
      if x in g.values { InfoMore(c.nodes, from, m, x, g.values[x]); }
    }
  }

  lemma SingleInfo(nodes: seq<Graph>, m: nat, x: string)
    requires m < |nodes| && x in nodes[m].values
    ensures InfoFrom(nodes, m, m, x, nodes[m].values[x])
  {
  }

  // ---------- a merged range lists an input once ----------

  lemma AppendOnce(xs: seq<string>, x: string)
    requires N.NoRepeats(xs) && x !in xs
    ensures N.NoRepeats(xs + [x])
  {
  }

  lemma {:induction false} AddNewOnce(base: seq<string>, xs: seq<string>, skip: seq<string>)
    requires N.NoRepeats(base)
    ensures N.NoRepeats(G.AddNew(base, xs, skip))
  {
    if xs != [] {
      AddNewOnce(base, xs[..|xs| - 1], skip);
      var rest, x := G.AddNew(base, xs[..|xs| - 1], skip), xs[|xs| - 1];
      if x !in skip && x !in rest { AppendOnce(rest, x); }
    }
  }

  lemma {:induction false} NonParamsOnce(g: Graph, xs: seq<string>)
    requires N.NoRepeats(xs)
    ensures N.NoRepeats(G.NonParams(g, xs))
  {
    if xs != [] {
      var front, x := xs[..|xs| - 1], xs[|xs| - 1];
      NonParamsOnce(g, front);
      G.NonParamsAre(g, front);
      if !IsParam(g, x) { AppendOnce(G.NonParams(g, front), x); }
    }
  }

  lemma {:induction false} KeepNamesOnce(xs: seq<string>, s: set<string>)
    requires N.NoRepeats(xs)
    ensures N.NoRepeats(R.KeepNames(xs, s))
  {
    if xs != [] {
      var front, x := xs[..|xs| - 1], xs[|xs| - 1];
      KeepNamesOnce(front, s);
      R.KeepNamesMembers(front, s);
      if x in s { AppendOnce(R.KeepNames(front, s), x); }
    }
  }

  lemma JoinOnce(xs: seq<string>, ys: seq<string>)
    requires N.NoRepeats(xs) && N.NoRepeats(ys) && forall x :: x in xs ==> x !in ys
    ensures N.NoRepeats(xs + ys)
  {
    var all := xs + ys;
    forall a, b | 0 <= a < b < |all| ensures all[a] != all[b] {
      if a < |xs| <= b { assert xs[a] in xs && all[b] == ys[b - |xs|]; }
    }
  }

  /** Both graphs describe what they read, and alike. */
  ghost predicate Alike(g1: Graph, g2: Graph) {
    && (forall x :: x in g1.inputs ==> x in g1.values)
    && (forall x :: x in g2.inputs ==> x in g2.values)
    && (forall x :: x in g1.values && x in g2.values ==> g1.values[x] == g2.values[x])
  }

  lemma MergeLayerOnce(name: string, base: Graph, tgt: Graph, required: set<string>)
    requires N.NoRepeats(base.inputs) && Alike(base, tgt)
    ensures N.NoRepeats(MergeLayer(name, base, tgt, required).inputs)
  {
    var merged := G.Merged(name, base, tgt, required);
    var nonParams, params := G.MergedNonParams(base, tgt), G.MergedParams(base, tgt);
    NonParamsOnce(base, base.inputs);
    AddNewOnce(G.NonParams(base, base.inputs), G.NonParams(tgt, tgt.inputs), base.outputs);
    AddNewOnce([], G.Params(base, base.inputs), []);
    AddNewOnce(G.AddNew([], G.Params(base, base.inputs), []), G.Params(tgt, tgt.inputs), []);
    G.MergedInputsAre(base, tgt);
    hide G.MergedNonParams, G.MergedParams, G.Merged, N.NoRepeats;
    forall x | x in nonParams ensures x !in params { assert G.MergedNonParam(base, tgt, x); }
    JoinOnce(nonParams, params);
    assert merged.inputs == nonParams + params by { MergedInputs(name, base, tgt, required); }
    KeepNamesOnce(merged.inputs, R.Refs(R.Prune(merged.nodes, merged.outputs), merged.outputs));
  }

  lemma MergedInputs(name: string, base: Graph, tgt: Graph, required: set<string>)
    ensures G.Merged(name, base, tgt, required).inputs == G.MergedNonParams(base, tgt) + G.MergedParams(base, tgt)
  {
  }

  lemma RangeAlike(c: Chain, from: nat, m: nat)
    requires c.Valid() && from < m < |c.nodes| && N.Described(c.nodes)
    ensures Alike(At(c, from, m - 1), c.nodes[m])
  {
    hide At, Chain.Valid;
    var g := At(c, from, m - 1);
    forall x | x in g.inputs ensures x in g.values { RangeDescribed(c, from, m - 1, x); }
    forall x | x in g.values && x in c.nodes[m].values
      ensures g.values[x] == c.nodes[m].values[x]
    {
      RangeDescribed(c, from, m - 1, x);
    }
  }

  lemma {:induction false} RangeOnce(c: Chain, from: nat, m: nat)
    requires c.Valid() && from <= m < |c.nodes| && N.Described(c.nodes)
    requires forall j :: 0 <= j < |c.nodes| ==> N.NoRepeats(c.nodes[j].inputs)
    ensures N.NoRepeats(At(c, from, m).inputs)
    decreases m
  {
    hide At, RestAt, Required, MergeLayer, Layers.Valid, Sorted, N.NoRepeats, Alike, N.Described;
    if m == from {
      AtStart(c, from);
    } else {
      RangeOnce(c, from, m - 1);
      AtStep(c, from, m);
      RangeAlike(c, from, m);
      var base := At(c, from, m - 1);
      MergeLayerOnce(c.nameOf(Merged(from, m)), base, c.nodes[m],
                     Required(base.name, c.nodes[m].name, RestAt(c, from, m - 1)));
    }
  }

  // ---------- the stages of a plan ----------

  /** Non-empty ranges of layers, one after the other, that cover all of them. */
  ghost predicate Consecutive(plan: seq<T.Stage>, n: nat) {
    (forall i :: 0 <= i < |plan| ==> Follows(plan, i)) && n == T.EndBefore(plan, |plan|)
  }

  ghost predicate Follows(plan: seq<T.Stage>, i: nat)
    requires i < |plan|
  {
    plan[i].from < plan[i].to && plan[i].from == T.EndBefore(plan, i)
  }

  lemma {:induction false} EndsGrow(plan: seq<T.Stage>, n: nat, i: nat, j: nat)
    requires Consecutive(plan, n) && i <= j <= |plan|
    ensures T.EndBefore(plan, i) <= T.EndBefore(plan, j)
  {
    if i < j {
      EndsGrow(plan, n, i, j - 1);
      assert Follows(plan, j - 1);
    }
  }

  /** Stage `i` lies inside the layers, and in front of stage `j` if it comes earlier. */
  lemma StagesApart(plan: seq<T.Stage>, n: nat, i: nat, j: nat)
    requires Consecutive(plan, n) && i < |plan| && j < |plan|
    ensures plan[i].from < plan[i].to <= n && (i < j ==> plan[i].to <= plan[j].from)
  {
    assert Follows(plan, i) && Follows(plan, j);
    EndsGrow(plan, n, i + 1, |plan|);
    if i < j { EndsGrow(plan, n, i + 1, j); }
  }

  lemma {:induction false} StageOf(plan: seq<T.Stage>, n: nat, k: nat, b: nat) returns (i: nat)
    requires Consecutive(plan, n) && k <= |plan| && b < T.EndBefore(plan, k)
    ensures i < k && plan[i].from <= b < plan[i].to
  {
    if k > 0 {
      assert Follows(plan, k - 1);
      if b < T.EndBefore(plan, k - 1) { i := StageOf(plan, n, k - 1, b); } else { i := k - 1; }
    }
  }

  /** The graphs of the stages. */
  ghost function StageGraphs(c: Chain, plan: seq<T.Stage>): seq<Graph>
    requires c.Valid() && Consecutive(plan, |c.nodes|)
  {
    seq(|plan|, i requires 0 <= i < |plan| => StageGraph(c, plan, i))
  }

  ghost function StageGraph(c: Chain, plan: seq<T.Stage>, i: nat): Graph
    requires c.Valid() && Consecutive(plan, |c.nodes|) && i < |plan|
  {
    StagesApart(plan, |c.nodes|, i, i);
    At(c, plan[i].from, plan[i].to - 1)
  }

  ghost predicate Outputs(nodes: seq<Graph>, st: T.Stage, x: string) {
    st.to > 0 && OutputOf(nodes, st.from, st.to - 1, x)
  }

  ghost predicate Inputs(nodes: seq<Graph>, st: T.Stage, x: string) {
    st.to > 0 && InputOf(nodes, st.from, st.to - 1, x)
  }

  /** The stage outputs `x` and reads it again, and no later layer reads it. */
  ghost predicate Swallowed(nodes: seq<Graph>, st: T.Stage, x: string) {
    Outputs(nodes, st, x) && Inputs(nodes, st, x) && !InputOf(nodes, st.to, |nodes|, x)
  }

  lemma StageGraphIs(c: Chain, plan: seq<T.Stage>, i: nat, x: string)
    requires c.Valid() && Consecutive(plan, |c.nodes|) && i < |plan|
    ensures var g, st := StageGraph(c, plan, i), plan[i];
            && (x in g.outputs <==> Outputs(c.nodes, st, x) && !Swallowed(c.nodes, st, x))
            && (x in g.inputs ==> Inputs(c.nodes, st, x) && !Outputs(c.nodes, st, x))
  {
    hide At, OutputOf, InputOf, Chain.Valid;
    StagesApart(plan, |c.nodes|, i, i);
    RangeOutputsIff(c, plan[i].from, plan[i].to - 1, x);
    RangeIs(c, plan[i].from, plan[i].to - 1, x);
  }

  /** One layer writes a value, so one stage does. */
  lemma OneStage(ir: Graph, nodes: seq<Graph>, plan: seq<T.Stage>, i: nat, j: nat, o: string)
    requires N.OneProducer(ir, nodes) && Consecutive(plan, |nodes|) && i < |plan| && j < |plan| && o !in ir.inputs
    requires Outputs(nodes, plan[i], o) && Outputs(nodes, plan[j], o)
    ensures i == j
  {
    var a :| plan[i].from <= a <= plan[i].to - 1 && a < |nodes| && o in nodes[a].outputs;
    var b :| plan[j].from <= b <= plan[j].to - 1 && b < |nodes| && o in nodes[b].outputs;
    assert a == b;
    StagesApart(plan, |nodes|, i, j);
    StagesApart(plan, |nodes|, j, i);
  }

  lemma StageDescribed(c: Chain, plan: seq<T.Stage>, i: nat, x: string)
    requires c.Valid() && Consecutive(plan, |c.nodes|) && N.Described(c.nodes) && i < |plan|
    ensures var g := StageGraph(c, plan, i);
            && (x in g.inputs || x in g.outputs ==> x in g.values)
            && (x in g.values ==> plan[i].to > 0 && InfoFrom(c.nodes, plan[i].from, plan[i].to - 1, x, g.values[x]))
  {
    hide At, InfoFrom;
    StagesApart(plan, |c.nodes|, i, i);
    RangeDescribed(c, plan[i].from, plan[i].to - 1, x);
  }

  lemma StagesDescribed(c: Chain, plan: seq<T.Stage>)
    requires c.Valid() && Consecutive(plan, |c.nodes|) && N.Described(c.nodes)
    ensures N.Described(StageGraphs(c, plan))
  {
    hide StageGraph, Chain.Valid, Consecutive;
    var sgs := StageGraphs(c, plan);
    forall i, j, x | 0 <= i < |sgs| && 0 <= j < |sgs| && x in sgs[i].values && x in sgs[j].values
      ensures sgs[i].values[x] == sgs[j].values[x]
    {
      StageDescribed(c, plan, i, x);
      StageDescribed(c, plan, j, x);
    }
    forall i, x | 0 <= i < |sgs| && (x in sgs[i].inputs || x in sgs[i].outputs) ensures x in sgs[i].values {
      StageDescribed(c, plan, i, x);
    }
  }

  /** A stage reads a value as a parameter exactly if its layers do. */
  lemma LayerReads(c: Chain, plan: seq<T.Stage>, i: nat, x: string) returns (a: nat)
    requires c.Valid() && Consecutive(plan, |c.nodes|) && N.Described(c.nodes) && i < |plan|
    requires D.Reads(StageGraph(c, plan, i), x)
    ensures plan[i].from <= a < plan[i].to && a < |c.nodes| && D.Reads(c.nodes[a], x)
  {
    hide StageGraph, Chain.Valid, Consecutive;
    StageGraphIs(c, plan, i, x);
    StageDescribed(c, plan, i, x);
    a :| plan[i].from <= a <= plan[i].to - 1 && a < |c.nodes| && x in c.nodes[a].inputs;
  }

  /** A value that an earlier layer outputs, and not one of this stage, is output by an earlier stage. */
  lemma EarlierStage(nodes: seq<Graph>, plan: seq<T.Stage>, i: nat, a: nat, b: nat, x: string) returns (j: nat)
    requires Consecutive(plan, |nodes|) && i < |plan| && plan[i].from <= a < plan[i].to && b < a < |nodes|
    requires x in nodes[a].inputs && x in nodes[b].outputs && !Outputs(nodes, plan[i], x)
    ensures j < |plan| && j != i && Outputs(nodes, plan[j], x) && !Swallowed(nodes, plan[j], x)
  {
    StagesApart(plan, |nodes|, i, i);
    j := StageOf(plan, |nodes|, |plan|, b);
    StagesApart(plan, |nodes|, i, j);
    StagesApart(plan, |nodes|, j, i);
    hide Consecutive;
    assert OutputOf(nodes, plan[j].from, plan[j].to - 1, x);
    assert InputOf(nodes, plan[j].to, |nodes|, x);
  }

  /** What the layers are given, the stages are given. */
  lemma StageSupplied(ir: Graph, c: Chain, plan: seq<T.Stage>, i: nat, x: string)
    requires c.Valid() && Consecutive(plan, |c.nodes|) && N.Described(c.nodes) && i < |plan|
    requires LayersSupplied(ir, c.nodes) && D.Reads(StageGraph(c, plan, i), x)
    ensures N.Supplied(ir, StageGraphs(c, plan), i, x)
  {
    var a := LayerReads(c, plan, i, x);
    assert N.Supplied(ir, c.nodes, a, x);
    hide StageGraph, Consecutive, LayersSupplied, N.Described, Outputs, Inputs, Swallowed;
    if x !in ir.inputs {
      var b :| 0 <= b < |c.nodes| && b != a && x in c.nodes[b].outputs;
      assert b < a;
      StageGraphIs(c, plan, i, x);
      var j := EarlierStage(c.nodes, plan, i, a, b, x);
      StageGraphIs(c, plan, j, x);
      assert x in StageGraphs(c, plan)[j].outputs;
    }
  }

  ghost predicate LayersSupplied(ir: Graph, nodes: seq<Graph>) {
    forall j, y :: 0 <= j < |nodes| && D.Reads(nodes[j], y) ==> N.Supplied(ir, nodes, j, y)
  }

  lemma StagesOneProducer(ir: Graph, c: Chain, plan: seq<T.Stage>)
    requires c.Valid() && Consecutive(plan, |c.nodes|) && N.OneProducer(ir, c.nodes)
    ensures N.OneProducer(ir, StageGraphs(c, plan))
  {
    hide StageGraph, Chain.Valid, Consecutive, Swallowed, Outputs, Inputs;
    var sgs := StageGraphs(c, plan);
    assert N.OneProducer(ir, sgs) by {
      forall i, j, o | 0 <= i < |sgs| && 0 <= j < |sgs| && o in sgs[i].outputs && o in sgs[j].outputs && o !in ir.inputs
        ensures i == j
      {
        StageGraphIs(c, plan, i, o);
        StageGraphIs(c, plan, j, o);
        OneStage(ir, c.nodes, plan, i, j, o);
      }
    }
  }

  lemma StageName(c: Chain, plan: seq<T.Stage>, i: nat)
    requires c.Valid() && Consecutive(plan, |c.nodes|) && i < |plan|
    ensures plan[i].to > 0 && StageGraph(c, plan, i).name == c.nameOf(RangeId(plan[i].from, plan[i].to - 1))
  {
    StagesApart(plan, |c.nodes|, i, i);
    hide At;
    RangeName(c, plan[i].from, plan[i].to - 1);
  }

  lemma StagesNamed(c: Chain, plan: seq<T.Stage>)
    requires c.Valid() && Consecutive(plan, |c.nodes|) && forall id :: c.nameOf(id) != D.MASTER
    ensures N.Named(StageGraphs(c, plan))
  {
    hide StageGraph, Consecutive;
    var sgs := StageGraphs(c, plan);
    forall i | 0 <= i < |sgs| ensures sgs[i].name != D.MASTER { StageName(c, plan, i); }
    forall i, j | 0 <= i < j < |sgs| ensures sgs[i].name != sgs[j].name {
      StageName(c, plan, i);
      StageName(c, plan, j);
      StagesApart(plan, |c.nodes|, i, j);
      StagesApart(plan, |c.nodes|, j, j);
    }
  }

  /** No network output is swallowed by the stage that computes it. */
  ghost predicate NoneSwallowed(ir: Graph, nodes: seq<Graph>, plan: seq<T.Stage>) {
    forall o, i :: o in ir.outputs && 0 <= i < |plan| ==> !Swallowed(nodes, plan[i], o)
  }

  /** The stages produce all network outputs if and only if none of them swallows one. */
  lemma OutputsProducedIff(ir: Graph, c: Chain, plan: seq<T.Stage>)
    requires c.Valid() && Consecutive(plan, |c.nodes|)
    requires N.OneProducer(ir, c.nodes) && D.OutputsProduced(ir, c.nodes)
    ensures D.OutputsProduced(ir, StageGraphs(c, plan)) <==> NoneSwallowed(ir, c.nodes, plan)
  {
    hide StageGraph, Chain.Valid, Consecutive, Swallowed, Outputs, D.OutVals, N.OneProducer;
    var sgs := StageGraphs(c, plan);
    forall o | o in ir.outputs
      ensures o in D.OutVals(ir, sgs) <==> forall i :: 0 <= i < |plan| ==> !Swallowed(c.nodes, plan[i], o)
    {
      OutputProducedIff(ir, c, plan, o);
    }
  }

  lemma OutputProducedIff(ir: Graph, c: Chain, plan: seq<T.Stage>, o: string)
    requires c.Valid() && Consecutive(plan, |c.nodes|)
    requires N.OneProducer(ir, c.nodes) && o in D.OutVals(ir, c.nodes)
    ensures o in D.OutVals(ir, StageGraphs(c, plan)) <==>
              forall i :: 0 <= i < |plan| ==> !Swallowed(c.nodes, plan[i], o)
  {
    hide StageGraph, Chain.Valid, Inputs, D.OutVals, N.OneProducer;
    var sgs := StageGraphs(c, plan);
    N.OutValsIs(ir, c.nodes, o);
    N.OutValsIs(ir, sgs, o);
    var b :| 0 <= b < |c.nodes| && o in c.nodes[b].outputs;
    var i := StageOf(plan, |c.nodes|, |plan|, b);
    assert Outputs(c.nodes, plan[i], o) by { assert OutputOf(c.nodes, plan[i].from, plan[i].to - 1, o); }
    hide Consecutive, Outputs, OutputOf;
    StageGraphIs(c, plan, i, o);
    assert o in sgs[i].outputs <==> !Swallowed(c.nodes, plan[i], o);
    forall j | 0 <= j < |plan| && Outputs(c.nodes, plan[j], o) ensures j == i { OneStage(ir, c.nodes, plan, i, j, o); }
    forall j | 0 <= j < |plan| && o in sgs[j].outputs ensures j == i { StageGraphIs(c, plan, j, o); }
  }

  /** What partition and deployment need of the stages, for every plan of the search: it holds of the stages if it
      holds of the layers, and network outputs are produced if and only if no stage swallows one. */
  lemma PlanServes(ir: Graph, c: Chain, p: T.Problem, plan: seq<T.Stage>)
    requires p.Valid() && T.IsPlan(p, plan, |c.nodes|)
    requires c.Valid() && forall id :: c.nameOf(id) != D.MASTER
    requires N.OneProducer(ir, c.nodes) && N.Described(c.nodes) && D.OutputsProduced(ir, c.nodes) &&
             LayersSupplied(ir, c.nodes)
    requires forall j :: 0 <= j < |c.nodes| ==> N.NoRepeats(c.nodes[j].inputs)
    ensures Consecutive(plan, |c.nodes|)
    ensures var sgs := StageGraphs(c, plan);
            && N.Named(sgs) && N.OneProducer(ir, sgs) && N.Described(sgs)
            && (forall j :: 0 <= j < |sgs| ==> N.NoRepeats(sgs[j].inputs))
            && (forall i, x :: 0 <= i < |sgs| && D.Reads(sgs[i], x) ==> N.Supplied(ir, sgs, i, x))
            && (D.OutputsProduced(ir, sgs) <==> NoneSwallowed(ir, c.nodes, plan))
  {
    PlanIsConsecutive(p, plan, |c.nodes|);
    hide StageGraph, Chain.Valid, Consecutive, N.OneProducer, N.Described, D.OutputsProduced, LayersSupplied,
      NoneSwallowed, N.Supplied, N.NoRepeats, T.IsPlan;
    StagesNamed(c, plan);
    StagesOneProducer(ir, c, plan);
    StagesDescribed(c, plan);
    OutputsProducedIff(ir, c, plan);
    var sgs := StageGraphs(c, plan);
    forall j | 0 <= j < |sgs| ensures N.NoRepeats(sgs[j].inputs) { StageOnce(c, plan, j); }
    forall i, x | 0 <= i < |sgs| && D.Reads(sgs[i], x)
      ensures N.Supplied(ir, sgs, i, x)
    {
      StageSupplied(ir, c, plan, i, x);
    }
  }

  lemma StageOnce(c: Chain, plan: seq<T.Stage>, i: nat)
    requires c.Valid() && Consecutive(plan, |c.nodes|) && N.Described(c.nodes) && i < |plan|
    requires forall j :: 0 <= j < |c.nodes| ==> N.NoRepeats(c.nodes[j].inputs)
    ensures N.NoRepeats(StageGraph(c, plan, i).inputs)
  {
    hide At, Chain.Valid, N.NoRepeats, N.Described, Consecutive;
    StagesApart(plan, |c.nodes|, i, i);
    RangeOnce(c, plan[i].from, plan[i].to - 1);
  }

  lemma PlanIsConsecutive(p: T.Problem, plan: seq<T.Stage>, n: nat)
    requires p.Valid() && T.IsPlan(p, plan, n)
    ensures Consecutive(plan, n)
  {
    forall i | 0 <= i < |plan| ensures Follows(plan, i) { assert T.Fits(p, plan[i]); }
  }

  // ---------- a swallowed output ----------

  function Unary(k: nat): (s: string)
    ensures |s| == k && forall i :: 0 <= i < k ==> s[i] == 'i'
  {
    if k == 0 then "" else Unary(k - 1) + "i"
  }

  function NameOf(id: Id): string {
    match id
    case Layer(k) => "L" + Unary(k)
    case Merged(from, to) => "M" + Unary(from) + "-" + Unary(to)
    case Generated(k) => "G" + Unary(k)
  }

  lemma NameOfInjective(a: Id, b: Id)
    requires NameOf(a) == NameOf(b)
    ensures a == b
  {
    var x, y := NameOf(a), NameOf(b);
    assert x[0] == y[0];
    if a.Merged? {
      assert x[1 + a.from] == '-' && y[1 + b.from] == '-';
      assert forall i :: 0 < i < 1 + a.from ==> x[i] == 'i';
      assert forall i :: 0 < i < 1 + b.from ==> y[i] == 'i';
    } else {
      assert |x| == |y|;
    }
  }

  const ANY := ValueInfo(false, true, false, false)

  /** Two layers; the network outputs what each of them computes, and the second reads what the first computes. */
  function FirstLayer(): Graph {
    Graph(NameOf(Layer(0)), [Node("n", "f", ["x"], ["y"])], map["x" := ANY, "y" := ANY], ["x"], ["y"])
  }

  function SecondLayer(): Graph {
    Graph(NameOf(Layer(1)), [Node("m", "g", ["y"], ["z"])], map["y" := ANY, "z" := ANY], ["y"], ["z"])
  }

  function TwoOutputs(): Graph {
    Graph("network", FirstLayer().nodes + SecondLayer().nodes, FirstLayer().values +
          SecondLayer().values, ["x"], ["y", "z"])
  }

  function TwoLayers(): Chain { Chain([FirstLayer(), SecondLayer()], {(Layer(0), Layer(1))}, NameOf) }

  lemma TwoLayersValid()
    ensures TwoLayers().Valid()
  {
    assert TwoLayers().WellNamed() by {
      forall a, b | NameOf(a) == NameOf(b) ensures a == b { NameOfInjective(a, b); }
    }
    hide NameOf;
    assert Sorted(TwoLayers().nodes);
    assert TwoLayers().AsLayers().Valid();
  }

  lemma TwoLayersProduce()
    ensures N.OneProducer(TwoOutputs(), TwoLayers().nodes) && D.OutputsProduced(TwoOutputs(), TwoLayers().nodes)
  {
    hide NameOf;
    var nodes := TwoLayers().nodes;
    assert nodes[0].outputs == ["y"] && nodes[1].outputs == ["z"];
    forall o | o in TwoOutputs().outputs ensures o in D.OutVals(TwoOutputs(), nodes) {
      N.OutValsIs(TwoOutputs(), nodes, o);
      assert "y" in nodes[0].outputs && "z" in nodes[1].outputs;
    }
  }

  lemma SwallowedInOne(nodes: seq<Graph>)
    requires nodes == [FirstLayer(), SecondLayer()]
    ensures Swallowed(nodes, T.Stage(0, 2, 1), "y")
    ensures forall o :: !Swallowed(nodes, T.Stage(0, 1, 1), o) && !Swallowed(nodes, T.Stage(1, 2, 1), o)
  {
    assert "y" in nodes[0].outputs && "y" in nodes[1].inputs;
  }

  const ONE_STAGE: seq<T.Stage> := [T.Stage(0, 2, 1)]
  const TWO_STAGES: seq<T.Stage> := [T.Stage(0, 1, 1), T.Stage(1, 2, 1)]

  lemma OneOrTwoStages()
    ensures Consecutive(ONE_STAGE, |TwoLayers().nodes|) && Consecutive(TWO_STAGES, |TwoLayers().nodes|)
    ensures !NoneSwallowed(TwoOutputs(), TwoLayers().nodes, ONE_STAGE) &&
            NoneSwallowed(TwoOutputs(), TwoLayers().nodes, TWO_STAGES)
  {
    SwallowedInOne(TwoLayers().nodes);
    assert "y" in TwoOutputs().outputs && Swallowed(TwoLayers().nodes, ONE_STAGE[0], "y");
    hide Swallowed;
  }

  /** In one stage, the output of the first layer is swallowed: partition fails, although it succeeds with a stage for
      each. */
  lemma SwallowedOutputFails()
    ensures TwoLayers().Valid() && Consecutive(ONE_STAGE, |TwoLayers().nodes|) &&
            Consecutive(TWO_STAGES, |TwoLayers().nodes|)
    ensures D.OutputsProduced(TwoOutputs(), TwoLayers().nodes)
    ensures !D.OutputsProduced(TwoOutputs(), StageGraphs(TwoLayers(), ONE_STAGE))
    ensures D.OutputsProduced(TwoOutputs(), StageGraphs(TwoLayers(), TWO_STAGES))
  {
    TwoLayersValid();
    TwoLayersProduce();
    OneOrTwoStages();
    hide Chain.Valid, N.OneProducer, D.OutputsProduced, NoneSwallowed, Consecutive, TwoLayers, TwoOutputs, StageGraphs;
    OutputsProducedIff(TwoOutputs(), TwoLayers(), ONE_STAGE);
    OutputsProducedIff(TwoOutputs(), TwoLayers(), TWO_STAGES);
  }
}
