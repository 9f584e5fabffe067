/**
 From stages to a deployment: connections between stages (`createPartition`), routes
 (`createDeployment`) and the check on them (`verifyDeployment`).
 */
module Deployment {
  import opened IR
  import opened Options

  const MASTER := "MASTER"

  datatype Connection = Connection(value: string, src: string, dest: string)

  datatype RouteType = Redist | Broadcast | WeightedReduce

  datatype Route = Route(value: string, src: string, dest: string, kind: RouteType)

  datatype Deploy = Deploy(fwdIn: seq<Route>, fwd: seq<Route>, fwdOut: seq<Route>,
                           bwdIn: seq<Route>, bwd: seq<Route>, bwdOut: seq<Route>)

  predicate Reads(g: Graph, x: string) { x in g.inputs && !IsParam(g, x) }

  // ---------- createPartition ----------

  /** Which stage produces a value; a network input that a stage passes on does not count, and a later stage wins. */
  function OutVals(ir: Graph, sgs: seq<Graph>): map<string, string> {
    if sgs == [] then map[]
    else
      var sg := sgs[|sgs| - 1];
      OutVals(ir, sgs[..|sgs| - 1]) + (map o | o in sg.outputs && o !in ir.inputs :: sg.name)
  }

  /** Connections into one stage from other stages, for a prefix of its inputs. */
  function StageCons(outVals: map<string, string>, sg: Graph, xs: seq<string>): seq<Connection> {
    if xs == [] then []
    else
      var x := xs[|xs| - 1];
      StageCons(outVals, sg, xs[..|xs| - 1]) +
      (if !IsParam(sg, x) && x in outVals && outVals[x] != sg.name then [Connection(x, outVals[x], sg.name)] else [])
  }

  function InterCons(outVals: map<string, string>, sgs: seq<Graph>): seq<Connection> {
    if sgs == [] then []
    else InterCons(outVals, sgs[..|sgs| - 1]) + StageCons(outVals, sgs[|sgs| - 1], sgs[|sgs| - 1].inputs)
  }

  predicate HasCon(cons: seq<Connection>, x: string, dest: string) {
    exists i :: 0 <= i < |cons| && cons[i].value == x && cons[i].dest == dest
  }

  /** Connections of one network input to the stages that read it and have no connection for it yet. */
  function InputCons(cons: seq<Connection>, x: string, sgs: seq<Graph>): seq<Connection> {
    if sgs == [] then cons
    else
      var before, sg := InputCons(cons, x, sgs[..|sgs| - 1]), sgs[|sgs| - 1];
      if Reads(sg, x) && !HasCon(before, x, sg.name) then before + [Connection(x, MASTER, sg.name)] else before
  }

  function MasterCons(cons: seq<Connection>, ir: Graph, xs: seq<string>, sgs: seq<Graph>): seq<Connection> {
    if xs == [] then cons
    else
      var before, x := MasterCons(cons, ir, xs[..|xs| - 1], sgs), xs[|xs| - 1];
      if IsParam(ir, x) then before else InputCons(before, x, sgs)
  }

  function OutCons(outVals: map<string, string>, outs: seq<string>): seq<Connection>
    requires forall o :: o in outs ==> o in outVals
  {
    seq(|outs|, i requires 0 <= i < |outs| => Connection(outs[i], outVals[outs[i]], MASTER))
  }

  /** Every network output is produced by a stage (the assertion in `createPartition`). */
  predicate OutputsProduced(ir: Graph, sgs: seq<Graph>) { forall o :: o in ir.outputs ==> o in OutVals(ir, sgs) }

  function Partition(ir: Graph, sgs: seq<Graph>): seq<Connection>
    requires OutputsProduced(ir, sgs)
  {
    var outVals := OutVals(ir, sgs);
    MasterCons(InterCons(outVals, sgs), ir, ir.inputs, sgs) + OutCons(outVals, ir.outputs)
  }

  /** `createPartition`. The order in which the stages reading one network input are connected is not fixed by the
      source (it iterates over a hash set); here it is stage order. */
  method CreatePartition(ir: Graph, sgs: seq<Graph>) returns (r: Option<seq<Connection>>)
    ensures r.Some? <==> OutputsProduced(ir, sgs)
    ensures r.Some? ==> r.value == Partition(ir, sgs)
  {
    hide OutVals, InterCons, MasterCons, OutCons;
    var outVals := CollectOutVals(ir, sgs);
    var inter := ConnectStages(outVals, sgs);
    var cons := ConnectInputs(inter, ir, sgs);
    var outs := ConnectOutputs(outVals, ir.outputs);
    r := if outs.None? then None else Some(cons + outs.value);
  }

  method CollectOutVals(ir: Graph, sgs: seq<Graph>) returns (outVals: map<string, string>)
    ensures outVals == OutVals(ir, sgs)
  {
    outVals := map[];
    for i := 0 to |sgs|
      invariant outVals == OutVals(ir, sgs[..i])
    {
      assert sgs[..i + 1][..i] == sgs[..i];
      outVals := outVals + (map o | o in sgs[i].outputs && o !in ir.inputs :: sgs[i].name);
    }
    assert sgs[..|sgs|] == sgs;
  }

  method ConnectStages(outVals: map<string, string>, sgs: seq<Graph>) returns (cons: seq<Connection>)
    ensures cons == InterCons(outVals, sgs)
  {
    cons := [];
    for i := 0 to |sgs|
      invariant cons == InterCons(outVals, sgs[..i])
    {
      assert sgs[..i + 1][..i] == sgs[..i];
      var more := ConnectStage(outVals, sgs[i]);
      cons := cons + more;
    }
    assert sgs[..|sgs|] == sgs;
  }

  method ConnectInputs(inter: seq<Connection>, ir: Graph, sgs: seq<Graph>) returns (cons: seq<Connection>)
    ensures cons == MasterCons(inter, ir, ir.inputs, sgs)
  {
    cons := inter;
    for i := 0 to |ir.inputs|
      invariant cons == MasterCons(inter, ir, ir.inputs[..i], sgs)
    {
      assert ir.inputs[..i + 1][..i] == ir.inputs[..i];
      if !IsParam(ir, ir.inputs[i]) { cons := ConnectInput(cons, ir.inputs[i], sgs); }
    }
    assert ir.inputs[..|ir.inputs|] == ir.inputs;
  }

  method ConnectOutputs(outVals: map<string, string>, xs: seq<string>) returns (r: Option<seq<Connection>>)
    ensures r.Some? <==> forall o :: o in xs ==> o in outVals
    ensures r.Some? ==> r.value == OutCons(outVals, xs)
  {
    var outs: seq<Connection> := [];
    for i := 0 to |xs|
      invariant forall k :: 0 <= k < i ==> xs[k] in outVals
      invariant |outs| == i && forall k :: 0 <= k < i ==> outs[k] == Connection(xs[k], outVals[xs[k]], MASTER)
    {
      if xs[i] !in outVals { return None; }
      outs := outs + [Connection(xs[i], outVals[xs[i]], MASTER)];
    }
    assert outs == OutCons(outVals, xs);
    r := Some(outs);
  }

  method ConnectStage(outVals: map<string, string>, sg: Graph) returns (cons: seq<Connection>)
    ensures cons == StageCons(outVals, sg, sg.inputs)
  {
    cons := [];
    for i := 0 to |sg.inputs|
      invariant cons == StageCons(outVals, sg, sg.inputs[..i])
    {
      assert sg.inputs[..i + 1][..i] == sg.inputs[..i];
      var x := sg.inputs[i];
      if !IsParam(sg, x) && x in outVals && outVals[x] != sg.name {
        cons := cons + [Connection(x, outVals[x], sg.name)];
      }
    }
    assert sg.inputs[..|sg.inputs|] == sg.inputs;
  }

  method ConnectInput(before: seq<Connection>, x: string, sgs: seq<Graph>) returns (cons: seq<Connection>)
    ensures cons == InputCons(before, x, sgs)
  {
    cons := before;
    for i := 0 to |sgs|
      invariant cons == InputCons(before, x, sgs[..i])
    {
      assert sgs[..i + 1][..i] == sgs[..i];
      if Reads(sgs[i], x) && !HasCon(cons, x, sgs[i].name) { cons := cons + [Connection(x, MASTER, sgs[i].name)]; }
    }
    assert sgs[..|sgs|] == sgs;
  }

  // ---------- createDeployment ----------

  function Info(sgs: seq<Graph>, x: string): Option<ValueInfo> {
    if sgs == [] then None else if x in sgs[0].values then Some(sgs[0].values[x]) else Info(sgs[1..], x)
  }

  /** `chooseRouteType`; a value that is neither batch nor loss cannot be routed. */
  function ChooseRouteType(info: ValueInfo, fwd: bool): Option<RouteType> {
    if info.isBatch then Some(Redist)
    else if info.isLoss then Some(if fwd then Broadcast else WeightedReduce)
    else None
  }

  predicate Routable(sgs: seq<Graph>, c: Connection) {
    Info(sgs, c.value).Some? && (Info(sgs, c.value).value.isBatch || Info(sgs, c.value).value.isLoss)
  }

  predicate Backward(sgs: seq<Graph>, x: string) { Info(sgs, x).Some? && Info(sgs, x).value.forBackward }

  function FwdRoute(sgs: seq<Graph>, c: Connection): Route
    requires Routable(sgs, c)
  {
    Route(c.value, c.src, c.dest, ChooseRouteType(Info(sgs, c.value).value, true).value)
  }

  function BwdRoute(sgs: seq<Graph>, c: Connection): Route
    requires Routable(sgs, c)
  {
    Route(c.value, c.dest, c.src, ChooseRouteType(Info(sgs, c.value).value, false).value)
  }

  predicate AllRoutable(sgs: seq<Graph>, cons: seq<Connection>) {
    forall i :: 0 <= i < |cons| ==> Routable(sgs, cons[i])
  }

  datatype Side = In | Inner | Out

  function SideOf(c: Connection): Side { if c.src == MASTER then In else if c.dest == MASTER then Out else Inner }

  /** The forward routes of one kind, in connection order. */
  function FwdRoutes(sgs: seq<Graph>, cons: seq<Connection>, side: Side): seq<Route>
    requires AllRoutable(sgs, cons)
  {
    if cons == [] then []
    else
      var c := cons[|cons| - 1];
      FwdRoutes(sgs, cons[..|cons| - 1], side) + (if SideOf(c) == side then [FwdRoute(sgs, c)] else [])
  }

  /** Their reversals, for the values that carry gradients. */
  function BwdRoutes(sgs: seq<Graph>, cons: seq<Connection>, side: Side): seq<Route>
    requires AllRoutable(sgs, cons)
  {
    if cons == [] then []
    else
      var c := cons[|cons| - 1];
      BwdRoutes(sgs, cons[..|cons| - 1], side) +
      (if SideOf(c) == side && Backward(sgs, c.value) then [BwdRoute(sgs, c)] else [])
  }

  function Deployed(sgs: seq<Graph>, cons: seq<Connection>): Deploy
    requires AllRoutable(sgs, cons)
  {
    Deploy(FwdRoutes(sgs, cons, In), FwdRoutes(sgs, cons, Inner), FwdRoutes(sgs, cons, Out),
           BwdRoutes(sgs, cons, Out), BwdRoutes(sgs, cons, Inner), BwdRoutes(sgs, cons, In))
  }

  /** The kinds of routes: batch values are redistributed, and a loss that is no batch value goes as `other`. */
  ghost predicate KindsAre(sgs: seq<Graph>, rs: seq<Route>, other: RouteType) {
    forall i :: 0 <= i < |rs| ==>
      var info := Info(sgs, rs[i].value);
      && info.Some? && (info.value.isBatch || info.value.isLoss)
      && rs[i].kind == if info.value.isBatch then Redist else other
  }

  /** Forward a loss is broadcast, and backward its gradients are added up by weight. */
  ghost predicate KindsRight(sgs: seq<Graph>, d: Deploy) {
    && KindsAre(sgs, d.fwdIn, Broadcast) && KindsAre(sgs, d.fwd, Broadcast) && KindsAre(sgs, d.fwdOut, Broadcast)
    && KindsAre(sgs, d.bwdIn, WeightedReduce) && KindsAre(sgs, d.bwd, WeightedReduce)
    && KindsAre(sgs, d.bwdOut, WeightedReduce)
  }

  lemma {:induction false} FwdKinds(sgs: seq<Graph>, cons: seq<Connection>, side: Side)
    requires AllRoutable(sgs, cons)
    ensures KindsAre(sgs, FwdRoutes(sgs, cons, side), Broadcast)
  {
    if cons != [] { FwdKinds(sgs, cons[..|cons| - 1], side); }
  }

  lemma {:induction false} BwdKinds(sgs: seq<Graph>, cons: seq<Connection>, side: Side)
    requires AllRoutable(sgs, cons)
    ensures KindsAre(sgs, BwdRoutes(sgs, cons, side), WeightedReduce)
  {
    if cons != [] { BwdKinds(sgs, cons[..|cons| - 1], side); }
  }

  lemma DeployedKinds(sgs: seq<Graph>, cons: seq<Connection>)
    requires AllRoutable(sgs, cons)
    ensures KindsRight(sgs, Deployed(sgs, cons))
  {
    hide KindsAre, FwdRoutes, BwdRoutes;
    FwdKinds(sgs, cons, In);
    FwdKinds(sgs, cons, Inner);
    FwdKinds(sgs, cons, Out);
    BwdKinds(sgs, cons, Out);
    BwdKinds(sgs, cons, Inner);
    BwdKinds(sgs, cons, In);
  }

  /** `createDeployment`: fails on a connection whose value is neither batch nor loss. */
  method CreateDeployment(sgs: seq<Graph>, cons: seq<Connection>) returns (r: Option<Deploy>)
    ensures r.Some? <==> AllRoutable(sgs, cons)
    ensures r.Some? ==> r.value == Deployed(sgs, cons) && KindsRight(sgs, r.value)
  {
    var d := Deploy([], [], [], [], [], []);
    for i := 0 to |cons|
      invariant AllRoutable(sgs, cons[..i]) && d == Deployed(sgs, cons[..i])
    {
      var c := cons[i];
      if !Routable(sgs, c) { return None; }
      assert cons[..i + 1] == cons[..i] + [c] && cons[..i + 1][..i] == cons[..i];
      d := AddRoutes(sgs, d, c);
    }
    assert cons[..|cons|] == cons;
    DeployedKinds(sgs, cons);
    r := Some(d);
  }

  method AddRoutes(sgs: seq<Graph>, d: Deploy, c: Connection) returns (d': Deploy)
    requires Routable(sgs, c)
    ensures d' == Deploy(
              d.fwdIn + (if SideOf(c) == In then [FwdRoute(sgs, c)] else []),
              d.fwd + (if SideOf(c) == Inner then [FwdRoute(sgs, c)] else []),
              d.fwdOut + (if SideOf(c) == Out then [FwdRoute(sgs, c)] else []),
              d.bwdIn + (if SideOf(c) == Out && Backward(sgs, c.value) then [BwdRoute(sgs, c)] else []),
              d.bwd + (if SideOf(c) == Inner && Backward(sgs, c.value) then [BwdRoute(sgs, c)] else []),
              d.bwdOut + (if SideOf(c) == In && Backward(sgs, c.value) then [BwdRoute(sgs, c)] else []))
  {
    var r := FwdRoute(sgs, c);
    d' := d;
    if c.src == MASTER { d' := d'.(fwdIn := d'.fwdIn + [r]); }
    else if c.dest == MASTER { d' := d'.(fwdOut := d'.fwdOut + [r]); }
    else { d' := d'.(fwd := d'.fwd + [r]); }
    if Backward(sgs, c.value) {
      var b := BwdRoute(sgs, c);
      if c.src == MASTER { d' := d'.(bwdOut := d'.bwdOut + [b]); }
      else if c.dest == MASTER { d' := d'.(bwdIn := d'.bwdIn + [b]); }
      else { d' := d'.(bwd := d'.bwd + [b]); }
    }
  }

  // ---------- verifyDeployment ----------

  predicate ToGraph(rs: seq<Route>, x: string, dest: string) {
    exists i :: 0 <= i < |rs| && rs[i].dest == dest && rs[i].value == x
  }

  predicate FromGraph(rs: seq<Route>, x: string, src: string) {
    exists i :: 0 <= i < |rs| && rs[i].src == src && rs[i].value == x
  }

  function AllFwd(d: Deploy): seq<Route> { d.fwdIn + d.fwd + d.fwdOut }

  function AllBwd(d: Deploy): seq<Route> { d.bwdIn + d.bwd + d.bwdOut }

  predicate Gradient(g: Graph, x: string) { x in g.values && g.values[x].forBackward }

  /** What the check demands of one stage. */
  ghost predicate StageVerified(d: Deploy, sg: Graph) {
    && (forall x :: Reads(sg, x) ==>
          ToGraph(AllFwd(d), x, sg.name) && (Gradient(sg, x) ==> FromGraph(AllBwd(d), x, sg.name)))
    && (forall x :: x in sg.outputs ==>
          FromGraph(AllFwd(d), x, sg.name) && (Gradient(sg, x) ==> ToGraph(AllBwd(d), x, sg.name)))
  }

  /** `verifyDeployment`; `false` stands for the exception. */
  method VerifyDeployment(d: Deploy, sgs: seq<Graph>) returns (ok: bool)
    ensures ok <==> forall i :: 0 <= i < |sgs| ==> StageVerified(d, sgs[i])
  {
    for i := 0 to |sgs|
      invariant forall k :: 0 <= k < i ==> StageVerified(d, sgs[k])
    {
      var good := VerifyStage(d, sgs[i]);
      if !good { return false; }
    }
    return true;
  }

  method VerifyStage(d: Deploy, sg: Graph) returns (ok: bool)
    ensures ok <==> StageVerified(d, sg)
  {
    hide ToGraph, FromGraph;
    var fwd, bwd := AllFwd(d), AllBwd(d);
    for j := 0 to |sg.inputs|
      invariant forall k :: 0 <= k < j && !IsParam(sg, sg.inputs[k]) ==>
                  ToGraph(fwd, sg.inputs[k], sg.name) &&
                  (Gradient(sg, sg.inputs[k]) ==> FromGraph(bwd, sg.inputs[k], sg.name))
    {
      var x := sg.inputs[j];
      if !IsParam(sg, x) {
        assert Reads(sg, x);
        if !ToGraph(fwd, x, sg.name) { return false; }
        if Gradient(sg, x) && !FromGraph(bwd, x, sg.name) { return false; }
      }
    }
    for j := 0 to |sg.outputs|
      invariant forall k :: 0 <= k < j ==>
                  FromGraph(fwd, sg.outputs[k], sg.name) &&
                  (Gradient(sg, sg.outputs[k]) ==> ToGraph(bwd, sg.outputs[k], sg.name))
    {
      var x := sg.outputs[j];
      assert x in sg.outputs;
      if !FromGraph(fwd, x, sg.name) { return false; }
      if Gradient(sg, x) && !ToGraph(bwd, x, sg.name) { return false; }
    }
    return true;
  }
}
