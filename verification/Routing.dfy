/**
 What the connections and routes of a partition guarantee (`createPartition`, `createDeployment`,
 `verifyDeployment`): every input of a stage has exactly one forward route, backward routes are the
 reversals of the forward routes that carry gradients, and exactly which stages pass the check.
 */
module Routing {
  import opened IR
  import opened Options
  import opened Deployment

  // ---------- what the partitioner is given ----------

  ghost predicate Named(sgs: seq<Graph>) {
    && (forall i :: 0 <= i < |sgs| ==> sgs[i].name != MASTER)
    && (forall i, j :: 0 <= i < j < |sgs| ==> sgs[i].name != sgs[j].name)
  }

  /** Each stage lists an input once. */
  ghost predicate NoRepeats(xs: seq<string>) { forall a, b :: 0 <= a < b < |xs| ==> xs[a] != xs[b] }

  /** Only one stage produces a value. */
  ghost predicate OneProducer(ir: Graph, sgs: seq<Graph>) {
    forall i, j, o ::
      0 <= i < |sgs| && 0 <= j < |sgs| && o in sgs[i].outputs && o in sgs[j].outputs && o !in ir.inputs ==> i == j
  }

  /** Stage `i` can be given `x`: it is a network input that is no parameter, or another stage produces it. */
  ghost predicate Supplied(ir: Graph, sgs: seq<Graph>, i: nat, x: string) {
    || (x in ir.inputs && !IsParam(ir, x))
    || (x !in ir.inputs && exists j :: 0 <= j < |sgs| && j != i && x in sgs[j].outputs)
  }

  /** Somebody takes the output `o` of stage `i`: the network, or another stage. */
  ghost predicate Consumed(ir: Graph, sgs: seq<Graph>, i: nat, o: string) {
    o !in ir.inputs && (o in ir.outputs || exists j :: 0 <= j < |sgs| && j != i && Reads(sgs[j], o))
  }

  ghost predicate StageServed(ir: Graph, sgs: seq<Graph>, i: nat)
    requires i < |sgs|
  {
    && (forall x :: Reads(sgs[i], x) ==> Supplied(ir, sgs, i, x))
    && (forall o :: o in sgs[i].outputs ==> Consumed(ir, sgs, i, o))
  }

  // ---------- producers ----------

  lemma {:induction false} OutValsIs(ir: Graph, sgs: seq<Graph>, o: string)
    ensures o in OutVals(ir, sgs) <==> o !in ir.inputs && exists i :: 0 <= i < |sgs| && o in sgs[i].outputs
    ensures o in OutVals(ir, sgs) ==>
              exists i :: 0 <= i < |sgs| && o in sgs[i].outputs && OutVals(ir, sgs)[o] == sgs[i].name
  {
    if sgs != [] {
      var front, n := sgs[..|sgs| - 1], |sgs| - 1;
      OutValsIs(ir, front, o);
      if o in sgs[n].outputs {
      } else if i :| && 0 <= i < |front| && o in front[i].outputs
                     && o in OutVals(ir, front) && OutVals(ir, front)[o] == front[i].name {
        assert sgs[i] == front[i];
      } else if i :| 0 <= i < |sgs| && o in sgs[i].outputs {
        assert i < n && front[i] == sgs[i];
      }
    }
  }

  /** With one producer the map names exactly the stage that lists the output. */
  lemma ProducerIs(ir: Graph, sgs: seq<Graph>, i: nat, o: string)
    requires Named(sgs) && OneProducer(ir, sgs) && i < |sgs|
    ensures o in sgs[i].outputs && o !in ir.inputs <==> o in OutVals(ir, sgs) && OutVals(ir, sgs)[o] == sgs[i].name
  {
    OutValsIs(ir, sgs, o);
    if o in OutVals(ir, sgs) {
      var j :| 0 <= j < |sgs| && o in sgs[j].outputs && OutVals(ir, sgs)[o] == sgs[j].name;
      if j < i { assert sgs[j].name != sgs[i].name; }
      if i < j { assert sgs[i].name != sgs[j].name; }
    }
  }

  // ---------- how many connections bring a value to a stage ----------

  function CountCon(cons: seq<Connection>, x: string, dest: string): nat {
    if cons == [] then 0
    else
      CountCon(cons[..|cons| - 1], x, dest)
      + (if cons[|cons| - 1].value == x && cons[|cons| - 1].dest == dest then 1 else 0)
  }

  lemma {:induction false} CountConcat(a: seq<Connection>, b: seq<Connection>, x: string, dest: string)
    ensures CountCon(a + b, x, dest) == CountCon(a, x, dest) + CountCon(b, x, dest)
  {
    if b == [] {
      assert a + b == a;
    } else {
      assert (a + b)[..|a + b| - 1] == a + b[..|b| - 1];
      CountConcat(a, b[..|b| - 1], x, dest);
    }
  }

  lemma {:induction false} CountHas(cons: seq<Connection>, x: string, dest: string)
    ensures HasCon(cons, x, dest) <==> CountCon(cons, x, dest) > 0
  {
    if cons != [] {
      var front := cons[..|cons| - 1];
      CountHas(front, x, dest);
      if i :| 0 <= i < |front| && front[i].value == x && front[i].dest == dest { assert cons[i] == front[i]; }
      if i :| 0 <= i < |cons| && cons[i].value == x && cons[i].dest == dest {
        assert i < |front| ==> front[i] == cons[i];
      }
    }
  }

  predicate FromOther(outVals: map<string, string>, sg: Graph, x: string) {
    !IsParam(sg, x) && x in outVals && outVals[x] != sg.name
  }

  function One(b: bool): nat { if b then 1 else 0 }

  lemma {:induction false} StageConsCount(outVals: map<string, string>, sg: Graph, xs: seq<string>, x: string,
                                          dest: string)
    requires NoRepeats(xs)
    ensures CountCon(StageCons(outVals, sg, xs), x, dest) ==
              One(dest == sg.name && x in xs && FromOther(outVals, sg, x))
  {
    if xs != [] {
      var front, y := xs[..|xs| - 1], xs[|xs| - 1];
      StageConsCount(outVals, sg, front, x, dest);
      assert xs == front + [y] && y !in front;
      var more := if FromOther(outVals, sg, y) then [Connection(y, outVals[y], sg.name)] else [];
      assert StageCons(outVals, sg, xs) == StageCons(outVals, sg, front) + more;
      CountOne(more, x, dest);
      hide CountCon, StageCons, FromOther, NoRepeats;
      CountConcat(StageCons(outVals, sg, front), more, x, dest);
    }
  }

  lemma CountOne(cons: seq<Connection>, x: string, dest: string)
    requires |cons| <= 1
    ensures CountCon(cons, x, dest) == One(cons != [] && cons[0].value == x && cons[0].dest == dest)
  {
    if cons != [] { assert cons[..0] == []; }
  }

  lemma {:induction false} InterConsCount(outVals: map<string, string>, sgs: seq<Graph>, i: nat, x: string)
    requires Named(sgs) && i < |sgs| && forall j :: 0 <= j < |sgs| ==> NoRepeats(sgs[j].inputs)
    ensures CountCon(InterCons(outVals, sgs), x, sgs[i].name) ==
              One(x in sgs[i].inputs && FromOther(outVals, sgs[i], x))
  {
    hide NoRepeats, FromOther, StageCons;
    var front, last := sgs[..|sgs| - 1], sgs[|sgs| - 1];
    CountConcat(InterCons(outVals, front), StageCons(outVals, last, last.inputs), x, sgs[i].name);
    StageConsCount(outVals, last, last.inputs, x, sgs[i].name);
    if i < |front| {
      assert front[i] == sgs[i];
      InterConsCount(outVals, front, i, x);
    } else {
      InterConsNone(outVals, front, x, sgs[i].name);
    }
  }

  lemma {:induction false} InterConsNone(outVals: map<string, string>, sgs: seq<Graph>, x: string, dest: string)
    requires forall j :: 0 <= j < |sgs| ==> NoRepeats(sgs[j].inputs) && sgs[j].name != dest
    ensures CountCon(InterCons(outVals, sgs), x, dest) == 0
  {
    hide NoRepeats, StageCons;
    if sgs != [] {
      var front, last := sgs[..|sgs| - 1], sgs[|sgs| - 1];
      CountConcat(InterCons(outVals, front), StageCons(outVals, last, last.inputs), x, dest);
      StageConsCount(outVals, last, last.inputs, x, dest);
      InterConsNone(outVals, front, x, dest);
    }
  }

  /** Connecting one network input adds a connection exactly where there was none and somebody reads it. */
  lemma {:induction false} InputConsCount(cons: seq<Connection>, y: string, sgs: seq<Graph>, x: string, dest: string)
    ensures CountCon(InputCons(cons, y, sgs), x, dest) == CountCon(cons, x, dest)
              + One(x == y && CountCon(cons, x, dest) == 0 &&
                    exists i :: 0 <= i < |sgs| && sgs[i].name == dest && Reads(sgs[i], x))
  {
    if sgs != [] {
      var front, last := sgs[..|sgs| - 1], sgs[|sgs| - 1];
      var before := InputCons(cons, y, front);
      InputConsCount(cons, y, front, x, dest);
      CountHas(before, y, last.name);
      var more := [Connection(y, MASTER, last.name)];
      CountOne(more, x, dest);
      InputConsStep(cons, y, sgs);
      hide CountCon, InputCons, HasCon, Reads;
      CountConcat(before, more, x, dest);
      ReaderStep(sgs, x, dest);
    }
  }

  lemma ReaderStep(sgs: seq<Graph>, x: string, dest: string)
    requires sgs != []
    ensures var front, last := sgs[..|sgs| - 1], sgs[|sgs| - 1];
            (exists i :: 0 <= i < |sgs| && sgs[i].name == dest && Reads(sgs[i], x)) <==>
            (exists i :: 0 <= i < |front| && front[i].name == dest && Reads(front[i], x)) ||
            (last.name == dest && Reads(last, x))
  {
    assert forall i :: 0 <= i < |sgs| - 1 ==> sgs[..|sgs| - 1][i] == sgs[i];
  }

  lemma InputConsStep(cons: seq<Connection>, y: string, sgs: seq<Graph>)
    requires sgs != []
    ensures var before, sg := InputCons(cons, y, sgs[..|sgs| - 1]), sgs[|sgs| - 1];
            var connects := Reads(sg, y) && !HasCon(before, y, sg.name);
            InputCons(cons, y, sgs) == if connects then before + [Connection(y, MASTER, sg.name)] else before
  {
  }

  lemma {:induction false} MasterConsCount(cons: seq<Connection>, ir: Graph, ys: seq<string>, sgs: seq<Graph>,
                                           x: string, dest: string)
    ensures CountCon(MasterCons(cons, ir, ys, sgs), x, dest) == CountCon(cons, x, dest)
              + One(x in ys && !IsParam(ir, x) && CountCon(cons, x, dest) == 0
                    && exists i :: 0 <= i < |sgs| && sgs[i].name == dest && Reads(sgs[i], x))
  {
    if ys != [] {
      var front, y := ys[..|ys| - 1], ys[|ys| - 1];
      assert ys == front + [y];
      MasterConsCount(cons, ir, front, sgs, x, dest);
      InputConsCount(MasterCons(cons, ir, front, sgs), y, sgs, x, dest);
    }
  }

  lemma {:induction false} CountNone(cons: seq<Connection>, x: string, dest: string)
    requires forall i :: 0 <= i < |cons| ==> cons[i].dest != dest
    ensures CountCon(cons, x, dest) == 0
  {
    if cons != [] { CountNone(cons[..|cons| - 1], x, dest); }
  }

  /** The partition brings `x` to stage `i` once if the stage reads it and can be given it, and otherwise not at all. */
  lemma PartitionCount(ir: Graph, sgs: seq<Graph>, i: nat, x: string)
    requires Named(sgs) && OneProducer(ir, sgs) && OutputsProduced(ir, sgs) && i < |sgs|
    requires forall j :: 0 <= j < |sgs| ==> NoRepeats(sgs[j].inputs)
    ensures CountCon(Partition(ir, sgs), x, sgs[i].name) == One(Reads(sgs[i], x) && Supplied(ir, sgs, i, x))
  {
    var outVals, dest := OutVals(ir, sgs), sgs[i].name;
    var inter := InterCons(outVals, sgs);
    CountConcat(MasterCons(inter, ir, ir.inputs, sgs), OutCons(outVals, ir.outputs), x, dest);
    CountNone(OutCons(outVals, ir.outputs), x, dest);
    MasterConsCount(inter, ir, ir.inputs, sgs, x, dest);
    InterConsCount(outVals, sgs, i, x);
    OtherProducer(ir, sgs, i, x);
    SameNameSameStage(sgs, i, x);
  }

  lemma SameNameSameStage(sgs: seq<Graph>, i: nat, x: string)
    requires Named(sgs) && i < |sgs|
    ensures (exists k :: 0 <= k < |sgs| && sgs[k].name == sgs[i].name && Reads(sgs[k], x)) <==> Reads(sgs[i], x)
  {
    if k :| 0 <= k < |sgs| && sgs[k].name == sgs[i].name && Reads(sgs[k], x) {
      assert !(k < i) && !(i < k);
    }
  }

  lemma OtherProducer(ir: Graph, sgs: seq<Graph>, i: nat, x: string)
    requires Named(sgs) && OneProducer(ir, sgs) && i < |sgs|
    ensures x in OutVals(ir, sgs) && OutVals(ir, sgs)[x] != sgs[i].name
       <==> x !in ir.inputs && exists j :: 0 <= j < |sgs| && j != i && x in sgs[j].outputs
  {
    OutValsIs(ir, sgs, x);
    ProducerIs(ir, sgs, i, x);
  }

  // ---------- who is connected to whom ----------

  /** A connection into stage `i`: from the stage that produces the value, or from outside. */
  ghost predicate IntoStage(ir: Graph, sgs: seq<Graph>, i: nat, c: Connection)
    requires i < |sgs|
  {
    && c.dest == sgs[i].name && Reads(sgs[i], c.value)
    && if c.value in ir.inputs then c.src == MASTER && !IsParam(ir, c.value)
       else exists j :: 0 <= j < |sgs| && j != i && c.src == sgs[j].name && c.value in sgs[j].outputs
  }

  ghost predicate OutOfNetwork(ir: Graph, sgs: seq<Graph>, c: Connection) {
    c.dest == MASTER && c.value in ir.outputs && c.value !in ir.inputs
    && exists j :: 0 <= j < |sgs| && c.src == sgs[j].name && c.value in sgs[j].outputs
  }

  lemma {:induction false} StageConsAre(outVals: map<string, string>, sg: Graph, xs: seq<string>, c: Connection)
    ensures c in StageCons(outVals, sg, xs) <==>
            c.dest == sg.name && c.value in xs && FromOther(outVals, sg, c.value) && c.src == outVals[c.value]
  {
    if xs != [] {
      var front, y := xs[..|xs| - 1], xs[|xs| - 1];
      assert xs == front + [y];
      StageConsAre(outVals, sg, front, c);
    }
  }

  lemma {:induction false} InterConsAre(outVals: map<string, string>, sgs: seq<Graph>, c: Connection)
    ensures c in InterCons(outVals, sgs) <==>
            exists i ::
              0 <= i < |sgs| && c.dest == sgs[i].name && c.value in sgs[i].inputs &&
              FromOther(outVals, sgs[i], c.value) && c.src == outVals[c.value]
  {
    hide FromOther, StageCons;
    if sgs != [] {
      var front, last := sgs[..|sgs| - 1], sgs[|sgs| - 1];
      InterConsAre(outVals, front, c);
      StageConsAre(outVals, last, last.inputs, c);
      assert forall i :: 0 <= i < |front| ==> front[i] == sgs[i];
    }
  }

  lemma {:induction false} InputConsAre(cons: seq<Connection>, y: string, sgs: seq<Graph>, c: Connection)
    requires c in InputCons(cons, y, sgs)
    ensures c in cons || (c.value == y && c.src == MASTER &&
                          exists i :: 0 <= i < |sgs| && c.dest == sgs[i].name && Reads(sgs[i], y))
  {
    if sgs != [] {
      var front, last := sgs[..|sgs| - 1], sgs[|sgs| - 1];
      assert forall i :: 0 <= i < |front| ==> front[i] == sgs[i];
      if c in InputCons(cons, y, front) { InputConsAre(cons, y, front, c); }
    }
  }

  lemma {:induction false} MasterConsAre(cons: seq<Connection>, ir: Graph, ys: seq<string>, sgs: seq<Graph>,
                                         c: Connection)
    requires c in MasterCons(cons, ir, ys, sgs)
    ensures c in cons || (c.value in ys && !IsParam(ir, c.value) && c.src == MASTER
                          && exists i :: 0 <= i < |sgs| && c.dest == sgs[i].name && Reads(sgs[i], c.value))
  {
    if ys != [] {
      var front, y := ys[..|ys| - 1], ys[|ys| - 1];
      assert ys == front + [y];
      var before := MasterCons(cons, ir, front, sgs);
      if !IsParam(ir, y) { InputConsAre(before, y, sgs, c); }
      if c in before { MasterConsAre(cons, ir, front, sgs, c); }
    }
  }

  /** Every connection of a partition enters a stage from where its value comes, or leaves the network. */
  lemma PartitionConnects(ir: Graph, sgs: seq<Graph>, c: Connection)
    requires Named(sgs) && OneProducer(ir, sgs) && OutputsProduced(ir, sgs) && c in Partition(ir, sgs)
    ensures OutOfNetwork(ir, sgs, c) || exists i :: 0 <= i < |sgs| && IntoStage(ir, sgs, i, c)
  {
    var outVals := OutVals(ir, sgs);
    var inter := InterCons(outVals, sgs);
    OutValsIs(ir, sgs, c.value);
    if c in MasterCons(inter, ir, ir.inputs, sgs) {
      MasterConsAre(inter, ir, ir.inputs, sgs, c);
      InterConsAre(outVals, sgs, c);
      if c in inter {
        var i :| 0 <= i < |sgs| && c.dest == sgs[i].name && c.value in sgs[i].inputs &&
          FromOther(outVals, sgs[i], c.value) && c.src == outVals[c.value];
        assert IntoStage(ir, sgs, i, c);
      } else {
        var i :| 0 <= i < |sgs| && c.dest == sgs[i].name && Reads(sgs[i], c.value);
        assert IntoStage(ir, sgs, i, c);
      }
    } else {
      assert c in OutCons(outVals, ir.outputs);
    }
  }

  lemma {:induction false} CountedIsThere(cons: seq<Connection>, x: string, dest: string) returns (c: Connection)
    requires CountCon(cons, x, dest) > 0
    ensures c in cons && c.value == x && c.dest == dest
  {
    CountHas(cons, x, dest);
    var i :| 0 <= i < |cons| && cons[i].value == x && cons[i].dest == dest;
    c := cons[i];
  }

  ghost predicate Leaves(cons: seq<Connection>, x: string, src: string) {
    exists c :: c in cons && c.value == x && c.src == src
  }

  /** An output of a stage has a connection out of it if and only if somebody takes it. */
  lemma PartitionTakes(ir: Graph, sgs: seq<Graph>, i: nat, o: string)
    requires Named(sgs) && OneProducer(ir, sgs) && OutputsProduced(ir, sgs) && i < |sgs| && o in sgs[i].outputs
    requires forall j :: 0 <= j < |sgs| ==> NoRepeats(sgs[j].inputs)
    ensures Leaves(Partition(ir, sgs), o, sgs[i].name) <==> Consumed(ir, sgs, i, o)
  {
    var cons := Partition(ir, sgs);
    if Leaves(cons, o, sgs[i].name) {
      var c :| c in cons && c.value == o && c.src == sgs[i].name;
      PartitionConnects(ir, sgs, c);
      if !OutOfNetwork(ir, sgs, c) {
        var k :| 0 <= k < |sgs| && IntoStage(ir, sgs, k, c);
        assert k != i;
      }
    }
    if Consumed(ir, sgs, i, o) {
      ProducerIs(ir, sgs, i, o);
      if o in ir.outputs {
        var k :| 0 <= k < |ir.outputs| && ir.outputs[k] == o;
        assert OutCons(OutVals(ir, sgs), ir.outputs)[k] == Connection(o, sgs[i].name, MASTER);
        assert Connection(o, sgs[i].name, MASTER) in cons;
      } else {
        var j :| 0 <= j < |sgs| && j != i && Reads(sgs[j], o);
        PartitionCount(ir, sgs, j, o);
        var c := CountedIsThere(cons, o, sgs[j].name);
        IntoFromProducer(ir, sgs, i, j, c);
      }
    }
  }

  lemma IntoFromProducer(ir: Graph, sgs: seq<Graph>, i: nat, j: nat, c: Connection)
    requires Named(sgs) && OneProducer(ir, sgs) && OutputsProduced(ir, sgs) && c in Partition(ir, sgs)
    requires i < |sgs| && j < |sgs| && c.dest == sgs[j].name && c.value in sgs[i].outputs && c.value !in ir.inputs
    ensures c.src == sgs[i].name
  {
    PartitionConnects(ir, sgs, c);
    if !OutOfNetwork(ir, sgs, c) {
      var k :| 0 <= k < |sgs| && IntoStage(ir, sgs, k, c);
    }
  }

  // ---------- routes ----------

  function CountRoute(rs: seq<Route>, x: string, dest: string): nat {
    if rs == [] then 0
    else CountRoute(rs[..|rs| - 1], x, dest) + One(rs[|rs| - 1].value == x && rs[|rs| - 1].dest == dest)
  }

  lemma {:induction false} CountRouteConcat(a: seq<Route>, b: seq<Route>, x: string, dest: string)
    ensures CountRoute(a + b, x, dest) == CountRoute(a, x, dest) + CountRoute(b, x, dest)
  {
    if b == [] {
      assert a + b == a;
    } else {
      assert (a + b)[..|a + b| - 1] == a + b[..|b| - 1];
      CountRouteConcat(a, b[..|b| - 1], x, dest);
    }
  }

  /** Each connection becomes one forward route, on one of the three lists. */
  lemma {:induction false} FwdCount(sgs: seq<Graph>, cons: seq<Connection>, x: string, dest: string)
    requires AllRoutable(sgs, cons)
    ensures CountRoute(FwdRoutes(sgs, cons, In), x, dest) + CountRoute(FwdRoutes(sgs, cons, Inner), x, dest)
            + CountRoute(FwdRoutes(sgs, cons, Out), x, dest) == CountCon(cons, x, dest)
  {
    if cons != [] {
      var front, c := cons[..|cons| - 1], cons[|cons| - 1];
      FwdCount(sgs, front, x, dest);
      FwdCountStep(sgs, cons, x, dest, In);
      FwdCountStep(sgs, cons, x, dest, Inner);
      FwdCountStep(sgs, cons, x, dest, Out);
    }
  }

  lemma FwdCountStep(sgs: seq<Graph>, cons: seq<Connection>, x: string, dest: string, side: Side)
    requires cons != [] && AllRoutable(sgs, cons)
    ensures var front, c := cons[..|cons| - 1], cons[|cons| - 1];
            CountRoute(FwdRoutes(sgs, cons, side), x, dest)
            == CountRoute(FwdRoutes(sgs, front, side), x, dest) +
            One(SideOf(c) == side && c.value == x && c.dest == dest)
  {
    var front, c := cons[..|cons| - 1], cons[|cons| - 1];
    if SideOf(c) == side {
      CountRouteConcat(FwdRoutes(sgs, front, side), [FwdRoute(sgs, c)], x, dest);
      assert CountRoute([FwdRoute(sgs, c)], x, dest) == One(c.value == x && c.dest == dest);
    } else {
      assert FwdRoutes(sgs, cons, side) == FwdRoutes(sgs, front, side);
    }
  }

  lemma {:induction false} FwdRoutesAre(sgs: seq<Graph>, cons: seq<Connection>, side: Side, r: Route)
    requires AllRoutable(sgs, cons)
    ensures r in FwdRoutes(sgs, cons, side) <==> exists c :: c in cons && SideOf(c) == side && r == FwdRoute(sgs, c)
  {
    if cons != [] {
      FwdRoutesAre(sgs, cons[..|cons| - 1], side, r);
      assert cons == cons[..|cons| - 1] + [cons[|cons| - 1]];
    }
  }

  /** The backward counterpart of forward routes: the ones whose values carry gradients, turned round. */
  function Reversals(sgs: seq<Graph>, rs: seq<Route>): seq<Route> {
    if rs == [] then []
    else
      var r := rs[|rs| - 1];
      Reversals(sgs, rs[..|rs| - 1]) + (if Backward(sgs, r.value) then [Reversed(r)] else [])
  }

  function Reversed(r: Route): Route {
    Route(r.value, r.dest, r.src, if r.kind == Broadcast then WeightedReduce else r.kind)
  }

  lemma ReversalsSnoc(sgs: seq<Graph>, rs: seq<Route>, r: Route)
    ensures Reversals(sgs, rs + [r]) == Reversals(sgs, rs) + (if Backward(sgs, r.value) then [Reversed(r)] else [])
  {
    assert (rs + [r])[..|rs + [r]| - 1] == rs;
  }

  lemma {:induction false} BwdAreReversals(sgs: seq<Graph>, cons: seq<Connection>, side: Side)
    requires AllRoutable(sgs, cons)
    ensures BwdRoutes(sgs, cons, side) == Reversals(sgs, FwdRoutes(sgs, cons, side))
  {
    if cons != [] {
      var front, c := cons[..|cons| - 1], cons[|cons| - 1];
      BwdAreReversals(sgs, front, side);
      if SideOf(c) == side {
        assert Reversed(FwdRoute(sgs, c)) == BwdRoute(sgs, c);
        ReversalsSnoc(sgs, FwdRoutes(sgs, front, side), FwdRoute(sgs, c));
      } else {
        assert FwdRoutes(sgs, cons, side) == FwdRoutes(sgs, front, side);
      }
    }
  }

  lemma {:induction false} ReversalsAre(sgs: seq<Graph>, rs: seq<Route>, b: Route)
    ensures b in Reversals(sgs, rs) <==> exists r :: r in rs && Backward(sgs, r.value) && b == Reversed(r)
  {
    if rs != [] {
      ReversalsAre(sgs, rs[..|rs| - 1], b);
      assert rs == rs[..|rs| - 1] + [rs[|rs| - 1]];
    }
  }

  /** Backward routes are the reversals of the forward routes that carry gradients, in order and with the routes from
      and to the network exchanged. */
  lemma DeployedBackward(sgs: seq<Graph>, cons: seq<Connection>)
    requires AllRoutable(sgs, cons)
    ensures var d := Deployed(sgs, cons);
            d.bwdIn == Reversals(sgs, d.fwdOut) && d.bwd == Reversals(sgs, d.fwd) && d.bwdOut == Reversals(sgs, d.fwdIn)
  {
    BwdAreReversals(sgs, cons, In);
    BwdAreReversals(sgs, cons, Inner);
    BwdAreReversals(sgs, cons, Out);
  }

  /** A stage input has exactly one forward route if the stage can be given it, and none otherwise. */
  lemma OneRoutePerInput(ir: Graph, sgs: seq<Graph>, i: nat, x: string)
    requires Named(sgs) && OneProducer(ir, sgs) && OutputsProduced(ir, sgs) && i < |sgs|
    requires forall j :: 0 <= j < |sgs| ==> NoRepeats(sgs[j].inputs)
    requires AllRoutable(sgs, Partition(ir, sgs))
    ensures CountRoute(AllFwd(Deployed(sgs, Partition(ir, sgs))), x, sgs[i].name) ==
              One(Reads(sgs[i], x) && Supplied(ir, sgs, i, x))
  {
    var cons := Partition(ir, sgs);
    var d := Deployed(sgs, cons);
    CountRouteConcat(d.fwdIn + d.fwd, d.fwdOut, x, sgs[i].name);
    CountRouteConcat(d.fwdIn, d.fwd, x, sgs[i].name);
    FwdCount(sgs, cons, x, sgs[i].name);
    PartitionCount(ir, sgs, i, x);
  }

  // ---------- exactly which stages pass the check ----------

  /** The stages describe their common values alike, and describe all their inputs and outputs. */
  ghost predicate Described(sgs: seq<Graph>) {
    && (forall i, j, x :: 0 <= i < |sgs| && 0 <= j < |sgs| && x in sgs[i].values && x in sgs[j].values ==>
          sgs[i].values[x] == sgs[j].values[x])
    && (forall i, x :: 0 <= i < |sgs| && (x in sgs[i].inputs || x in sgs[i].outputs) ==> x in sgs[i].values)
  }

  lemma {:induction false} InfoIs(sgs: seq<Graph>, i: nat, x: string)
    requires Described(sgs) && i < |sgs| && x in sgs[i].values
    ensures Info(sgs, x) == Some(sgs[i].values[x])
  {
    if i > 0 && x !in sgs[0].values {
      assert sgs[1..][i - 1] == sgs[i];
      DescribedTail(sgs);
      InfoIs(sgs[1..], i - 1, x);
    }
  }

  lemma DescribedTail(sgs: seq<Graph>)
    requires Described(sgs) && sgs != []
    ensures Described(sgs[1..])
  {
  }

  ghost predicate Enters(cons: seq<Connection>, x: string, dest: string) {
    exists c :: c in cons && c.value == x && c.dest == dest
  }

  lemma ToGraphHas(rs: seq<Route>, x: string, dest: string)
    ensures ToGraph(rs, x, dest) <==> exists r :: r in rs && r.value == x && r.dest == dest
  {
    if r :| r in rs && r.value == x && r.dest == dest {
      var i :| 0 <= i < |rs| && rs[i] == r;
    }
  }

  lemma FromGraphHas(rs: seq<Route>, x: string, src: string)
    ensures FromGraph(rs, x, src) <==> exists r :: r in rs && r.value == x && r.src == src
  {
    if r :| r in rs && r.value == x && r.src == src {
      var i :| 0 <= i < |rs| && rs[i] == r;
    }
  }

  lemma ForwardHas(sgs: seq<Graph>, cons: seq<Connection>, r: Route)
    requires AllRoutable(sgs, cons)
    ensures r in AllFwd(Deployed(sgs, cons)) <==> exists c :: c in cons && r == FwdRoute(sgs, c)
  {
    FwdRoutesAre(sgs, cons, In, r);
    FwdRoutesAre(sgs, cons, Inner, r);
    FwdRoutesAre(sgs, cons, Out, r);
    hide FwdRoutes, BwdRoutes;
    if c :| c in cons && r == FwdRoute(sgs, c) {
      assert SideOf(c) == In || SideOf(c) == Inner || SideOf(c) == Out;
    }
  }

  lemma RoutesOfConnections(sgs: seq<Graph>, cons: seq<Connection>, x: string, at: string)
    requires AllRoutable(sgs, cons)
    ensures ToGraph(AllFwd(Deployed(sgs, cons)), x, at) <==> Enters(cons, x, at)
    ensures FromGraph(AllFwd(Deployed(sgs, cons)), x, at) <==> Leaves(cons, x, at)
  {
    hide Deployed, AllFwd, ToGraph, FromGraph;
    var fwd := AllFwd(Deployed(sgs, cons));
    ToGraphHas(fwd, x, at);
    FromGraphHas(fwd, x, at);
    forall r | r in fwd ensures exists c :: c in cons && c.value == r.value && c.src == r.src && c.dest == r.dest {
      ForwardHas(sgs, cons, r);
    }
    forall c | c in cons ensures FwdRoute(sgs, c) in fwd { ForwardHas(sgs, cons, FwdRoute(sgs, c)); }
  }

  lemma BackwardHas(sgs: seq<Graph>, cons: seq<Connection>, b: Route)
    requires AllRoutable(sgs, cons)
    ensures var d := Deployed(sgs, cons);
            b in AllBwd(d) <==> exists r :: r in AllFwd(d) && Backward(sgs, r.value) && b == Reversed(r)
  {
    var d := Deployed(sgs, cons);
    DeployedBackward(sgs, cons);
    ReversalsAre(sgs, d.fwdOut, b);
    ReversalsAre(sgs, d.fwd, b);
    ReversalsAre(sgs, d.fwdIn, b);
  }

  lemma BackwardOfForward(sgs: seq<Graph>, cons: seq<Connection>, x: string, at: string)
    requires AllRoutable(sgs, cons)
    ensures var d := Deployed(sgs, cons);
            && (FromGraph(AllBwd(d), x, at) <==> ToGraph(AllFwd(d), x, at) && Backward(sgs, x))
            && (ToGraph(AllBwd(d), x, at) <==> FromGraph(AllFwd(d), x, at) && Backward(sgs, x))
  {
    hide Deployed, AllFwd, AllBwd, ToGraph, FromGraph, Backward;
    var d := Deployed(sgs, cons);
    ToGraphHas(AllFwd(d), x, at);
    FromGraphHas(AllFwd(d), x, at);
    ToGraphHas(AllBwd(d), x, at);
    FromGraphHas(AllBwd(d), x, at);
    forall b | b in AllBwd(d) ensures Backward(sgs, b.value) && exists r :: r in AllFwd(d) && b == Reversed(r) {
      BackwardHas(sgs, cons, b);
    }
    forall r | r in AllFwd(d) && Backward(sgs, r.value)
      ensures Reversed(r) in AllBwd(d)
    {
      BackwardHas(sgs, cons, Reversed(r));
    }
  }

  /** `verifyDeployment` accepts a stage if and only if everything it reads can be given to it and everything it
      outputs is taken by somebody. */
  lemma StageVerifiedIff(ir: Graph, sgs: seq<Graph>, i: nat)
    requires Named(sgs) && OneProducer(ir, sgs) && OutputsProduced(ir, sgs) && Described(sgs) && i < |sgs|
    requires forall j :: 0 <= j < |sgs| ==> NoRepeats(sgs[j].inputs)
    requires AllRoutable(sgs, Partition(ir, sgs))
    ensures StageVerified(Deployed(sgs, Partition(ir, sgs)), sgs[i]) <==> StageServed(ir, sgs, i)
  {
    hide Partition, Deployed, OutputsProduced, Named, OneProducer, AllRoutable, NoRepeats, ToGraph, FromGraph;
    var cons := Partition(ir, sgs);
    var d, name := Deployed(sgs, cons), sgs[i].name;
    forall x | Reads(sgs[i], x)
      ensures ToGraph(AllFwd(d), x, name) <==> Supplied(ir, sgs, i, x)
      ensures Gradient(sgs[i], x) && ToGraph(AllFwd(d), x, name) ==> FromGraph(AllBwd(d), x, name)
    {
      RoutesOfConnections(sgs, cons, x, name);
      BackwardOfForward(sgs, cons, x, name);
      EntersIff(ir, sgs, i, x);
      InfoIs(sgs, i, x);
    }
    forall o | o in sgs[i].outputs
      ensures FromGraph(AllFwd(d), o, name) <==> Consumed(ir, sgs, i, o)
      ensures Gradient(sgs[i], o) && FromGraph(AllFwd(d), o, name) ==> ToGraph(AllBwd(d), o, name)
    {
      RoutesOfConnections(sgs, cons, o, name);
      BackwardOfForward(sgs, cons, o, name);
      PartitionTakes(ir, sgs, i, o);
      InfoIs(sgs, i, o);
    }
  }

  lemma EntersIff(ir: Graph, sgs: seq<Graph>, i: nat, x: string)
    requires Named(sgs) && OneProducer(ir, sgs) && OutputsProduced(ir, sgs) && i < |sgs| && Reads(sgs[i], x)
    requires forall j :: 0 <= j < |sgs| ==> NoRepeats(sgs[j].inputs)
    ensures Enters(Partition(ir, sgs), x, sgs[i].name) <==> Supplied(ir, sgs, i, x)
  {
    hide Partition, Named, OneProducer, Supplied, Reads, OutputsProduced;
    var cons := Partition(ir, sgs);
    PartitionCount(ir, sgs, i, x);
    CountHas(cons, x, sgs[i].name);
    if c :| c in cons && c.value == x && c.dest == sgs[i].name {
      var k :| 0 <= k < |cons| && cons[k] == c;
      assert HasCon(cons, x, sgs[i].name);
    }
    if HasCon(cons, x, sgs[i].name) {
      var k :| 0 <= k < |cons| && cons[k].value == x && cons[k].dest == sgs[i].name;
      assert cons[k] in cons;
    }
  }

  /** Partition, deployment and check together: they succeed if and only if every network output is produced, every
      connected value can be routed, and every stage can be given what it reads and has a taker for what it outputs. */
  method BuildDeployment(ir: Graph, sgs: seq<Graph>) returns (r: Option<Deploy>)
    requires Named(sgs) && OneProducer(ir, sgs) && Described(sgs)
    requires forall j :: 0 <= j < |sgs| ==> NoRepeats(sgs[j].inputs)
    ensures r.Some? <==>
              OutputsProduced(ir, sgs) && AllRoutable(sgs, Partition(ir, sgs)) &&
              forall i :: 0 <= i < |sgs| ==> StageServed(ir, sgs, i)
    ensures r.Some? ==> r.value == Deployed(sgs, Partition(ir, sgs))
  {
    hide Named, OneProducer, Described, NoRepeats, OutputsProduced, AllRoutable, Partition, Deployed, StageServed,
      StageVerified;
    var cons := CreatePartition(ir, sgs);
    if cons.None? { return None; }
    r := CreateDeployment(sgs, cons.value);
    if r.None? { return None; }
    var ok := VerifyDeployment(r.value, sgs);
    forall i | 0 <= i < |sgs|
      ensures StageVerified(r.value, sgs[i]) <==> StageServed(ir, sgs, i)
    {
      StageVerifiedIff(ir, sgs, i);
    }
    if !ok { return None; }
  }
}
