/**
 The memoised merge on real graphs: what the stale entries of `GraphMergeHelper` do.  Merging a layer
 keeps the outputs that any remaining graph reads, and the stale entries of earlier merges count as
 remaining.  When the layers are topologically sorted they change nothing: the result is the merge
 with exactly the other layers remaining.
 */
module LayerMerging {
  import opened IR
  import G = GraphMerge
  import R = DeadNodes
  import opened MergeCache

  /** `getRequiredInputs` over the graphs that remain. */
  function Required(g1: string, g2: string, rest: map<Id, Graph>): set<string> {
    set id, x | id in rest && rest[id].name != g1 && rest[id].name != g2 && x in rest[id].inputs :: x
  }

  /** `merge`, `removeUnusedNodes` and `setName`. */
  function MergeLayer(name: string, base: Graph, tgt: Graph, required: set<string>): Graph {
    R.Removed(G.Merged(name, base, tgt, required)).(name := name)
  }

  /** Layers as they come from the partitioner; `nameOf` renders ids. */
  datatype Chain = Chain(nodes: seq<Graph>, edges: set<(Id, Id)>, nameOf: Id -> string) {
    function AsLayers(): Layers<Graph> {
      Layers(nodes, edges, (id: Id, base: Graph, tgt: Graph, rest: map<Id, Graph>) =>
                      MergeLayer(nameOf(id), base, tgt, Required(base.name, tgt.name, rest)))
    }

    ghost predicate WellNamed() {
      && (forall a, b :: nameOf(a) == nameOf(b) ==> a == b)
      && (forall j :: 0 <= j < |nodes| ==> nodes[j].name == nameOf(Layer(j)))
    }

    ghost predicate Valid() { WellNamed() && Sorted(nodes) && AsLayers().Valid() }
  }

  /** A layer reads only what earlier layers or nobody outputs, and no output as a parameter. */
  ghost predicate Sorted(nodes: seq<Graph>) {
    forall j, b, x :: 0 <= j < |nodes| && 0 <= b < |nodes| && x in nodes[j].inputs && x in nodes[b].outputs ==>
      b < j && !IsParam(nodes[j], x)
  }

  // ---------- merging from scratch, on real graphs ----------

  /** Layers from..m merged, and the graphs that then remain. */
  ghost function At(c: Chain, from: nat, m: nat): Graph
    requires c.Valid() && from <= m < |c.nodes|
  {
    Scratch(c.AsLayers(), from, m).0
  }

  ghost function RestAt(c: Chain, from: nat, m: nat): map<Id, Graph>
    requires c.Valid() && from <= m < |c.nodes|
  {
    Scratch(c.AsLayers(), from, m).1.graphs
  }

  lemma AtStart(c: Chain, from: nat)
    requires c.Valid() && from < |c.nodes|
    ensures At(c, from, from) == c.nodes[from]
  {
    ScratchStart(c.AsLayers(), from);
    hide Scratch;
  }

  lemma AtStep(c: Chain, from: nat, m: nat)
    requires c.Valid() && from < m < |c.nodes|
    ensures var base := At(c, from, m - 1);
            At(c, from, m) == MergeLayer(c.nameOf(Merged(from, m)), base, c.nodes[m],
                                         Required(base.name, c.nodes[m].name, RestAt(c, from, m - 1)))
  {
    ScratchStep(c.AsLayers(), from, m);
    hide Scratch, MergeLayer, Required, Replay;
  }

  lemma Entries(c: Chain, from: nat, m: nat, id: Id)
    requires c.Valid() && from <= m < |c.nodes|
    ensures id in RestAt(c, from, m) <==> Left(|c.nodes|, from, m, id)
    ensures Left(|c.nodes|, from, m, id) ==>
              RestAt(c, from, m)[id] == if id.Merged? then At(c, from, id.to) else c.nodes[id.index]
  {
    RemainingEntries(c.AsLayers(), from, m, id);
    hide Scratch;
  }

  // ---------- what a merged range reads and outputs ----------

  /** `x` is read by a node of the graph, or is one of its outputs. */
  ghost predicate Referenced(g: Graph, x: string) { x in g.outputs || exists n :: n in g.nodes && x in n.inputs }

  /** Outputs and inputs of a range extended by one layer: an input stays if it is still referenced. */
  lemma MergeLayerNames(name: string, base: Graph, tgt: Graph, required: set<string>, x: string)
    ensures var g := MergeLayer(name, base, tgt, required);
            && g.name == name
            && (x in g.outputs <==> x in tgt.outputs || (x in base.outputs && (x !in tgt.inputs || x in required)))
            && (x in g.inputs <==>
                  Referenced(g, x) &&
                  (x in base.inputs || (x in tgt.inputs && (x !in base.outputs || IsParam(tgt, x)))))
  {
    var merged := G.Merged(name, base, tgt, required);
    var kept := R.Prune(merged.nodes, merged.outputs);
    R.OutputsKept(merged);
    G.MergedOutputsAre(name, base, tgt, required, x);
    G.MergedInputsAre(base, tgt);
    R.KeepNamesMembers(merged.inputs, R.Refs(kept, merged.outputs));
    R.ReadByHas(kept, x);
  }

  ghost predicate OutputOf(nodes: seq<Graph>, from: nat, to: nat, x: string) {
    exists b :: from <= b <= to && b < |nodes| && x in nodes[b].outputs
  }

  ghost predicate InputOf(nodes: seq<Graph>, from: nat, to: nat, x: string) {
    exists a :: from <= a <= to && a < |nodes| && x in nodes[a].inputs
  }

  /** Layers from..m as one graph: it outputs what a later layer still reads of them, and reads nothing that they
      output. */
  ghost predicate Range(nodes: seq<Graph>, from: nat, m: nat, g: Graph, x: string) {
    && (x in g.outputs ==> OutputOf(nodes, from, m, x))
    && (OutputOf(nodes, from, m, x) && InputOf(nodes, m + 1, |nodes|, x) ==> x in g.outputs)
    && (x in g.inputs ==> InputOf(nodes, from, m, x) && !OutputOf(nodes, from, m, x))
  }

  function RangeId(from: nat, m: nat): Id { if m == from then Layer(from) else Merged(from, m) }

  lemma RangeName(c: Chain, from: nat, m: nat)
    requires c.Valid() && from <= m < |c.nodes|
    ensures At(c, from, m).name == c.nameOf(RangeId(from, m))
  {
    hide At, RestAt, Required, Sorted, Layers.Valid;
    if m > from { AtStep(c, from, m); } else { AtStart(c, from); }
  }

  lemma RequiredHas(g1: string, g2: string, rest: map<Id, Graph>, id: Id, x: string)
    requires id in rest && rest[id].name != g1 && rest[id].name != g2 && x in rest[id].inputs
    ensures x in Required(g1, g2, rest)
  {
  }

  /** What a later layer reads is required. */
  lemma LaterRequires(c: Chain, from: nat, m: nat, x: string)
    requires c.Valid() && from < m < |c.nodes| && InputOf(c.nodes, m + 1, |c.nodes|, x)
    ensures x in Required(At(c, from, m - 1).name, c.nodes[m].name, RestAt(c, from, m - 1))
  {
    hide At, RestAt, Required, Sorted, Layers.Valid;
    var j :| m + 1 <= j <= |c.nodes| && j < |c.nodes| && x in c.nodes[j].inputs;
    RangeName(c, from, m - 1);
    Entries(c, from, m - 1, Layer(j));
    assert c.nodes[j].name == c.nameOf(Layer(j)) && c.nodes[m].name == c.nameOf(Layer(m));
    RequiredHas(At(c, from, m - 1).name, c.nodes[m].name, RestAt(c, from, m - 1), Layer(j), x);
  }

  lemma OneMoreLayer(nodes: seq<Graph>, from: nat, m: nat, x: string)
    requires from < m < |nodes|
    ensures OutputOf(nodes, from, m, x) <==> OutputOf(nodes, from, m - 1, x) || x in nodes[m].outputs
    ensures InputOf(nodes, from, m, x) <==> InputOf(nodes, from, m - 1, x) || x in nodes[m].inputs
    ensures InputOf(nodes, m, |nodes|, x) <==> InputOf(nodes, m + 1, |nodes|, x) || x in nodes[m].inputs
  {
  }

  lemma SortedFacts(nodes: seq<Graph>, from: nat, m: nat, x: string)
    requires Sorted(nodes) && from < m < |nodes|
    ensures InputOf(nodes, from, m - 1, x) ==> x !in nodes[m].outputs
    ensures x in nodes[m].inputs ==> x !in nodes[m].outputs
    ensures x in nodes[m].inputs && OutputOf(nodes, from, m - 1, x) ==> !IsParam(nodes[m], x)
  {
  }

  lemma {:induction false} RangeIs(c: Chain, from: nat, m: nat, x: string)
    requires c.Valid() && from <= m < |c.nodes|
    ensures Range(c.nodes, from, m, At(c, from, m), x)
    decreases m
  {
    hide At, RestAt, Required, MergeLayer, OutputOf, InputOf, Layers.Valid, IsParam, Sorted;
    if m == from {
      AtStart(c, from);
      SingleRange(c.nodes, from, x);
    } else {
      RangeIs(c, from, m - 1, x);
      AtStep(c, from, m);
      var base := At(c, from, m - 1);
      MergeLayerNames(c.nameOf(Merged(from, m)), base, c.nodes[m],
                      Required(base.name, c.nodes[m].name, RestAt(c, from, m - 1)), x);
      if InputOf(c.nodes, m + 1, |c.nodes|, x) { LaterRequires(c, from, m, x); }
      OneMoreLayer(c.nodes, from, m, x);
      SortedFacts(c.nodes, from, m, x);
    }
  }

  lemma SingleRange(nodes: seq<Graph>, from: nat, x: string)
    requires Sorted(nodes) && from < |nodes|
    ensures Range(nodes, from, from, nodes[from], x)
  {
    assert OutputOf(nodes, from, from, x) <==> x in nodes[from].outputs;
    assert x in nodes[from].inputs ==> InputOf(nodes, from, from, x);
  }

  lemma ReadBefore(nodes: seq<Graph>, from: nat, k: nat, m: nat, x: string)
    requires Sorted(nodes) && from <= k <= m < |nodes| && InputOf(nodes, from, k, x) && !OutputOf(nodes, from, k, x)
    ensures !OutputOf(nodes, from, m, x)
  {
    var a :| from <= a <= k && a < |nodes| && x in nodes[a].inputs;
    forall b | from <= b <= m ensures x !in nodes[b].outputs {
      assert b > a ==> x !in nodes[b].outputs;
    }
  }

  /** Nothing that a merged range reads is an output of a longer one. */
  lemma StaleUnread(c: Chain, from: nat, k: nat, m: nat, x: string)
    requires c.Valid() && from <= k <= m < |c.nodes| && x in At(c, from, k).inputs
    ensures x !in At(c, from, m).outputs
  {
    hide At, OutputOf, InputOf, Sorted;
    RangeIs(c, from, k, x);
    RangeIs(c, from, m, x);
    ReadBefore(c.nodes, from, k, m, x);
  }

  // ---------- merging without stale entries ----------

  /** Exactly the other layers, and the range merged so far. */
  function OthersAnd(nodes: seq<Graph>, from: nat, m: nat, base: Graph): map<Id, Graph> {
    (map j: nat | j < |nodes| && (j < from || m < j) :: Layer(j) := nodes[j])[RangeId(from, m) := base]
  }

  function Clean(nodes: seq<Graph>, nameOf: Id -> string, from: nat, i: nat): Graph
    requires from <= i < |nodes|
    decreases i
  {
    if i == from then nodes[from]
    else
      var base := Clean(nodes, nameOf, from, i - 1);
      MergeLayer(nameOf(Merged(from, i)), base, nodes[i],
                 Required(base.name, nodes[i].name, OthersAnd(nodes, from, i - 1, base)))
  }

  /** Both require the same of the values that pass from the first graph to the second. */
  ghost predicate SameOn(base: Graph, tgt: Graph, r1: set<string>, r2: set<string>) {
    forall o :: o in base.outputs && o in tgt.inputs ==> (o in r1 <==> o in r2)
  }

  /** Only the requirements on values that pass from the first graph to the second matter. */
  lemma SameRequirements(name: string, base: Graph, tgt: Graph, r1: set<string>, r2: set<string>)
    requires SameOn(base, tgt, r1, r2)
    ensures MergeLayer(name, base, tgt, r1) == MergeLayer(name, base, tgt, r2)
  {
    SameSurvivors(base.outputs, tgt.inputs, r1, r2);
  }

  lemma {:induction false} SameSurvivors(xs: seq<string>, read: seq<string>, r1: set<string>, r2: set<string>)
    requires forall o :: o in xs && o in read ==> (o in r1 <==> o in r2)
    ensures G.SurvivingOutputs(xs, read, r1) == G.SurvivingOutputs(xs, read, r2)
  {
    if xs != [] { SameSurvivors(xs[..|xs| - 1], read, r1, r2); }
  }

  lemma OthersHave(nodes: seq<Graph>, from: nat, m: nat, base: Graph, id: Id)
    requires from <= m < |nodes|
    ensures var clean := OthersAnd(nodes, from, m, base);
            && (id in clean <==>
                  id == RangeId(from, m) || (id.Layer? && id.index < |nodes| && (id.index < from || m < id.index)))
            && (id in clean ==> clean[id] == if id == RangeId(from, m) then base else nodes[id.index])
  {
  }

  /** An entry of the remaining graphs is one of the other layers, the range merged so far, or a shorter range. */
  lemma RestEntry(c: Chain, from: nat, m: nat, id: Id)
    requires c.Valid() && from <= m < |c.nodes|
    ensures var rest, clean := RestAt(c, from, m), OthersAnd(c.nodes, from, m, At(c, from, m));
            && (id in clean ==> id in rest && rest[id] == clean[id])
            && (id in rest && id !in clean ==> id.Merged? && from < id.to < m && rest[id] == At(c, from, id.to))
  {
    Entries(c, from, m, id);
    AtStart(c, from);
    OthersHave(c.nodes, from, m, At(c, from, m), id);
    hide At, RestAt, OthersAnd, Sorted;
  }

  lemma SameRequired(c: Chain, from: nat, m: nat, o: string)
    requires c.Valid() && from <= m && m + 1 < |c.nodes| && o in At(c, from, m).outputs
    ensures var base := At(c, from, m);
            o in Required(base.name, c.nodes[m + 1].name, RestAt(c, from, m))
            <==> o in Required(base.name, c.nodes[m + 1].name, OthersAnd(c.nodes, from, m, base))
  {
    var base, graphs := At(c, from, m), RestAt(c, from, m);
    var clean := OthersAnd(c.nodes, from, m, base);
    hide At, RestAt, OthersAnd, Sorted;
    var g1, g2 := base.name, c.nodes[m + 1].name;
    if o in Required(g1, g2, clean) {
      var id :| id in clean && clean[id].name != g1 && clean[id].name != g2 && o in clean[id].inputs;
      RestEntry(c, from, m, id);
      RequiredHas(g1, g2, graphs, id, o);
    }
    if o in Required(g1, g2, graphs) {
      var id :| id in graphs && graphs[id].name != g1 && graphs[id].name != g2 && o in graphs[id].inputs;
      RestEntry(c, from, m, id);
      if id !in clean { StaleUnread(c, from, id.to, m, o); }
      RequiredHas(g1, g2, clean, id, o);
    }
  }

  lemma SameRequiredAll(c: Chain, from: nat, m: nat, r1: set<string>, r2: set<string>)
    requires c.Valid() && from <= m && m + 1 < |c.nodes|
    requires r1 == Required(At(c, from, m).name, c.nodes[m + 1].name, RestAt(c, from, m))
    requires r2 == Required(At(c, from, m).name, c.nodes[m + 1].name, OthersAnd(c.nodes, from, m, At(c, from, m)))
    ensures SameOn(At(c, from, m), c.nodes[m + 1], r1, r2)
  {
    hide At, RestAt, Required, OthersAnd, Chain.Valid;
    forall o | o in At(c, from, m).outputs && o in c.nodes[m + 1].inputs
      ensures o in r1 <==> o in r2
    {
      SameRequired(c, from, m, o);
    }
  }

  lemma CleanStart(nodes: seq<Graph>, nameOf: Id -> string, from: nat)
    requires from < |nodes|
    ensures Clean(nodes, nameOf, from, from) == nodes[from]
  {
  }

  lemma CleanStep(nodes: seq<Graph>, nameOf: Id -> string, from: nat, i: nat)
    requires from < i < |nodes|
    ensures var base := Clean(nodes, nameOf, from, i - 1);
            Clean(nodes, nameOf, from, i)
            == MergeLayer(nameOf(Merged(from, i)), base, nodes[i],
                          Required(base.name, nodes[i].name, OthersAnd(nodes, from, i - 1, base)))
  {
    hide MergeLayer, Required, OthersAnd;
  }

  /** The graph of a merged range is the one that merging gives when only the other layers remain: the stale entries
      are harmless for topologically sorted layers. */
  lemma {:induction false} StaleEntriesHarmless(c: Chain, from: nat, i: nat)
    requires c.Valid() && from <= i < |c.nodes|
    ensures Scratch(c.AsLayers(), from, i).0 == Clean(c.nodes, c.nameOf, from, i)
    decreases i
  {
    AtClean(c, from, i);
    hide Scratch, Clean;
  }

  lemma {:induction false} AtClean(c: Chain, from: nat, i: nat)
    requires c.Valid() && from <= i < |c.nodes|
    ensures At(c, from, i) == Clean(c.nodes, c.nameOf, from, i)
    decreases i
  {
    hide At, RestAt, Required, MergeLayer, OthersAnd, Clean, SameOn, Chain.Valid;
    if i == from {
      AtStart(c, from);
      CleanStart(c.nodes, c.nameOf, from);
    } else {
      AtClean(c, from, i - 1);
      AtStep(c, from, i);
      CleanStep(c.nodes, c.nameOf, from, i);
      var base := At(c, from, i - 1);
      var r1 := Required(base.name, c.nodes[i].name, RestAt(c, from, i - 1));
      var r2 := Required(base.name, c.nodes[i].name, OthersAnd(c.nodes, from, i - 1, base));
      SameRequiredAll(c, from, i - 1, r1, r2);
      SameRequirements(c.nameOf(Merged(from, i)), base, c.nodes[i], r1, r2);
    }
  }
}
