/**
 The memoised merge of consecutive layers (`GraphMergeHelper` in src/graph/DPStaging.cpp).

 Merging layers `from..to` extends the longest cached prefix that starts at `from`; before that it
 replays the bookkeeping of the cached merges.  A merged node keeps the id that was generated for
 it, while the bookkeeping files it under `Merged(from, i)`, so erasing it by its id erases nothing.
 Merging two graphs is an arbitrary function of the new id, both graphs and what remains.
 */
module MergeCache {

  /** Ids of layers, names of merged ranges, and generated ids never clash. */
  datatype Id = Layer(index: nat) | Merged(from: nat, to: nat) | Generated(k: nat)

  datatype MLNode<G> = MLNode(id: Id, graph: G)

  datatype Layers<!G> = Layers(nodes: seq<G>, edges: set<(Id, Id)>, merge: (Id, G, G, map<Id, G>) -> G) {
    /** Edges run between layers. */
    ghost predicate Valid() {
      forall e :: e in edges ==> IsLayer(e.0) && IsLayer(e.1)
    }

    predicate IsLayer(x: Id) { x.Layer? && x.index < |nodes| }
  }

  /** The local maps of one call: remaining graphs, remaining edges, and the current name of every known id. */
  datatype Rest<G> = Rest(graphs: map<Id, G>, edges: set<(Id, Id)>, names: map<Id, Id>)

  // ---------- the bookkeeping of one merge ----------

  ghost predicate Known(edges: set<(Id, Id)>, names: map<Id, Id>) {
    forall e :: e in edges ==> e.0 in names && e.1 in names
  }

  /** `mergeEdgesNoCopy`: rename the ends and drop loops. */
  function MergeEdges(edges: set<(Id, Id)>, names: map<Id, Id>): set<(Id, Id)>
    requires Known(edges, names)
  {
    set e | e in edges && names[e.0] != names[e.1] :: (names[e.0], names[e.1])
  }

  function Renamed(names: map<Id, Id>, a: Id, b: Id, merged: Id): map<Id, Id> { names[a := merged][b := merged] }

  /** One merge of `base` with layer `i`, given the merged graph. */
  function Replay<G>(rest: Rest<G>, base: Id, from: nat, i: nat, graph: G): Rest<G>
    requires Known(rest.edges, rest.names)
  {
    var id := Merged(from, i);
    Rest((rest.graphs - {base, Layer(i)})[id := graph],
         MergeEdges(rest.edges, Renamed(rest.names, base, Layer(i), id)),
         (Renamed(rest.names, base, Layer(i), id) - {base, Layer(i)})[id := id])
  }

  // ---------- the reference: merging from scratch ----------

  function Start<G>(l: Layers<G>): Rest<G> {
    Rest(map i: nat | i < |l.nodes| :: Layer(i) := l.nodes[i],
         l.edges,
         map i: nat | i < |l.nodes| :: Layer(i) := Layer(i))
  }

  /** The base node is filed under its own id only at the first merge. */
  function BaseKey(from: nat, i: nat, generated: Id): Id { if i == from + 1 then Layer(from) else generated }

  /** Merging layers from..i one after the other: the merged graph, and what remains. */
  ghost function Scratch<G>(l: Layers<G>, from: nat, i: nat): (G, Rest<G>)
    requires l.Valid() && from <= i < |l.nodes|
    ensures TidyRest(Scratch(l, from, i).1)
    decreases i
  {
    if i == from then (l.nodes[from], Start(l))
    else
      var (base, rest) := Scratch(l, from, i - 1);
      var graph := l.merge(Merged(from, i), base, l.nodes[i], rest.graphs);
      TidyStep(l, from, i, rest, Generated(0), graph);
      (graph, Replay(rest, BaseKey(from, i, Generated(0)), from, i, graph))
  }

  lemma TidyStep<G>(l: Layers<G>, from: nat, i: nat, rest: Rest<G>, generated: Id, graph: G)
    requires from < i && TidyRest(rest) && generated.Generated?
    ensures TidyRest(Replay(rest, BaseKey(from, i, generated), from, i, graph))
    ensures Replay(rest, BaseKey(from, i, generated), from, i, graph) ==
              Replay(rest, BaseKey(from, i, Generated(0)), from, i, graph)
  {
    TidyKept(rest, BaseKey(from, i, generated), from, i, graph);
    if i > from + 1 { SameReplay(rest, generated, Generated(0), from, i, graph); }
  }

  /** Known ids are layers and merged ranges, every one under its own name, and all edges are between known ids. */
  ghost predicate TidyRest<G>(rest: Rest<G>) {
    && Known(rest.edges, rest.names)
    && (forall x :: x in rest.names ==> rest.names[x] == x && !x.Generated?)
    && (forall x :: x in rest.graphs ==> !x.Generated?)
  }

  lemma TidyKept<G>(rest: Rest<G>, key: Id, from: nat, i: nat, graph: G)
    requires TidyRest(rest)
    ensures TidyRest(Replay(rest, key, from, i, graph))
  {
    var id := Merged(from, i);
    var names, after := Renamed(rest.names, key, Layer(i), id), Replay(rest, key, from, i, graph);
    forall x | x in rest.names ensures names[x] in after.names { }
  }

  /** A generated id is neither known nor the end of an edge, so it does not matter which one it is. */
  lemma SameReplay<G>(rest: Rest<G>, a: Id, b: Id, from: nat, i: nat, graph: G)
    requires TidyRest(rest) && a.Generated? && b.Generated?
    ensures Replay(rest, a, from, i, graph) == Replay(rest, b, from, i, graph)
  {
    var id := Merged(from, i);
    var left, right := Replay(rest, a, from, i, graph), Replay(rest, b, from, i, graph);
    assert left.graphs == right.graphs;
    assert left.names == right.names;
    SameEdges(rest.edges, Renamed(rest.names, a, Layer(i), id), Renamed(rest.names, b, Layer(i), id));
  }

  lemma SameEdges(edges: set<(Id, Id)>, names: map<Id, Id>, names': map<Id, Id>)
    requires Known(edges, names) && Known(edges, names')
    requires forall e :: e in edges ==> names[e.0] == names'[e.0] && names[e.1] == names'[e.1]
    ensures MergeEdges(edges, names) == MergeEdges(edges, names')
  {
  }

  /** What is left after merging from..i: all other layers, and every merged range on the way, which are stale but for
      the last. */
  predicate Left(n: nat, from: nat, i: nat, x: Id) {
    match x
    case Layer(j) => j < n && (i == from || j < from || i < j)
    case Merged(f, k) => f == from && from < k <= i
    case Generated(_) => false
  }

  lemma ScratchStart<G>(l: Layers<G>, from: nat)
    requires l.Valid() && from < |l.nodes|
    ensures Scratch(l, from, from) == (l.nodes[from], Start(l))
  {
  }

  lemma ScratchStep<G>(l: Layers<G>, from: nat, i: nat)
    requires l.Valid() && from < i < |l.nodes|
    ensures var before, after := Scratch(l, from, i - 1), Scratch(l, from, i);
            && after.0 == l.merge(Merged(from, i), before.0, l.nodes[i], before.1.graphs)
            && after.1 == Replay(before.1, BaseKey(from, i, Generated(0)), from, i, after.0)
  {
  }

  lemma ReplayEntry<G>(rest: Rest<G>, key: Id, from: nat, i: nat, graph: G, x: Id)
    requires TidyRest(rest)
    ensures var after := Replay(rest, key, from, i, graph).graphs;
            && (x in after <==> x == Merged(from, i) || (x in rest.graphs && x != key && x != Layer(i)))
            && (x in after ==> after[x] == if x == Merged(from, i) then graph else rest.graphs[x])
  {
    hide MergeEdges, Renamed;
  }

  lemma LeftStep(n: nat, from: nat, i: nat, x: Id)
    requires from < i < n
    ensures Left(n, from, i, x) <==>
              x == Merged(from, i) || (Left(n, from, i - 1, x) && x != BaseKey(from, i, Generated(0)) && x != Layer(i))
  {
  }

  lemma {:induction false} RemainingEntries<G>(l: Layers<G>, from: nat, i: nat, x: Id)
    requires l.Valid() && from <= i < |l.nodes|
    ensures x in Scratch(l, from, i).1.graphs <==> Left(|l.nodes|, from, i, x)
    ensures Left(|l.nodes|, from, i, x) ==>
              Scratch(l, from, i).1.graphs[x] == if x.Merged? then Scratch(l, from, x.to).0 else l.nodes[x.index]
    decreases i
  {
    if i > from {
      ScratchStep(l, from, i);
      LeftStep(|l.nodes|, from, i, x);
      assert x.Merged? && Left(|l.nodes|, from, i - 1, x) ==> x.to < i;
      hide Scratch, Left, Replay, TidyRest, BaseKey;
      RemainingEntries(l, from, i - 1, x);
      ReplayEntry(Scratch(l, from, i - 1).1, BaseKey(from, i, Generated(0)), from, i, Scratch(l, from, i).0, x);
    } else {
      ScratchStart(l, from);
      hide Scratch;
    }
  }

  // ---------- the helper ----------

  class GraphMergeHelper<G> {
    const layers: Layers<G>
    var cache: map<(nat, nat), MLNode<G>>
    /** Stands for the global counter behind generated names. */
    var generated: nat

    constructor (layers: Layers<G>)
      requires layers.Valid()
      ensures Valid() && this.layers == layers
    {
      hide TidyRest;
      this.layers := layers;
      cache := map i: nat | i < |layers.nodes| :: (i, i) := MLNode(Layer(i), layers.nodes[i]);
      generated := 0;
    }

    /** Every cached range holds the graph that merging from scratch gives, and with a range all its prefixes are
        cached. */
    ghost predicate Valid()
      reads this
    {
      && layers.Valid()
      && (forall i: nat :: i < |layers.nodes| ==> (i, i) in cache)
      && (forall f: nat, t: nat :: (f, t) in cache ==> EntryOk(f, t))
      && (forall f: nat, t: nat, k: nat :: (f, t) in cache && f <= k <= t ==> (f, k) in cache)
    }

    ghost predicate EntryOk(f: nat, t: nat)
      reads this
      requires layers.Valid() && (f, t) in cache
    {
      && f <= t < |layers.nodes|
      && cache[(f, t)].graph == Scratch(layers, f, t).0
      && (if f == t then cache[(f, t)].id == Layer(f) else cache[(f, t)].id.Generated?)
    }

    /** `merge`: whatever was merged before, the graph is the one that merging from scratch gives. */
    method Merge(from: nat, to: nat) returns (graph: G)
      requires Valid() && from <= to < |layers.nodes|
      modifies `cache, `generated
      ensures Valid()
      ensures graph == Scratch(layers, from, to).0
      ensures forall f: nat, t: nat :: (f, t) in cache <==> (f, t) in old(cache) || (f == from && from <= t <= to)
    {
      hide Scratch, TidyRest;
      if (from, to) in cache {
        graph := cache[(from, to)].graph;
        assert EntryOk(from, to);
      } else {
        graph := MergeRest(from, to);
      }
    }

    method MergeRest(from: nat, to: nat) returns (graph: G)
      requires Valid() && from <= to < |layers.nodes| && (from, to) !in cache
      modifies `cache, `generated
      ensures Valid()
      ensures graph == Scratch(layers, from, to).0
      ensures forall f: nat, t: nat :: (f, t) in cache <==> (f, t) in old(cache) || (f == from && from <= t <= to)
    {
      hide Scratch, TidyRest;
      var rest, base, availTo := ReplayCached(from, to);
      CachedPrefix(from, availTo - 1);
      hide Valid, Reached;
      var i := availTo;
      while i <= to
        invariant from < availTo <= i <= to + 1
        invariant Valid() && layers.Valid()
        invariant Reached(rest, base, from, i - 1)
        invariant forall f: nat, t: nat :: (f, t) in cache <==> (f, t) in old(cache) || (f == from && from <= t < i)
        invariant forall t: nat :: availTo <= t ==> (from, t) !in old(cache)
      {
        rest, base := MergeOne(rest, base, from, i);
        i := i + 1;
      }
      graph := FinishMerge(from, to, base);
    }

    /** The assignment after the loop changes nothing. */
    method FinishMerge(from: nat, to: nat, base: MLNode<G>) returns (graph: G)
      requires Valid() && exists rest :: Reached(rest, base, from, to)
      modifies `cache
      ensures Valid() && cache == old(cache) && graph == Scratch(layers, from, to).0
    {
      hide Scratch, TidyRest;
      assert EntryOk(from, to);
      cache := cache[(from, to) := base];
      graph := base.graph;
    }

    lemma CachedPrefix(from: nat, last: nat)
      requires Valid() && (from, last) in cache && (from, last + 1) !in cache
      ensures forall t: nat :: (from, t) in cache <==> from <= t <= last
    {
      hide Scratch, TidyRest;
      forall t: nat | (from, t) in cache ensures from <= t <= last {
        assert EntryOk(from, t);
        assert EntryOk(from, last);
        assert t >= last + 1 ==> (from, last + 1) in cache;
      }
      assert EntryOk(from, last);
    }

    /** Redo the bookkeeping of the merges that are cached. */
    method ReplayCached(from: nat, to: nat) returns (rest: Rest<G>, base: MLNode<G>, availTo: nat)
      requires Valid() && from <= to < |layers.nodes| && (from, to) !in cache
      ensures from < availTo <= to && (from, availTo) !in cache
      ensures Reached(rest, base, from, availTo - 1)
    {
      ScratchStart(layers, from);
      Entry(from, from);
      rest := Start(layers);
      base := MLNode(Layer(from), layers.nodes[from]);
      availTo := from + 1;
      hide Valid, Reached;
      while (from, availTo) in cache
        invariant from < availTo <= to && Reached(rest, base, from, availTo - 1)
        decreases (to - availTo)
      {
        assert availTo != to;
        rest, base := ReplayOne(rest, base, from, availTo);
        availTo := availTo + 1;
      }
    }

    /** The state of the bookkeeping after from..i. */
    ghost predicate Reached(rest: Rest<G>, base: MLNode<G>, from: nat, i: nat)
      reads this
    {
      layers.Valid() && from <= i < |layers.nodes| && (from, i) in cache && base == cache[(from, i)] &&
      rest == Scratch(layers, from, i).1
    }

    method ReplayOne(rest: Rest<G>, base: MLNode<G>, from: nat, i: nat) returns (rest': Rest<G>, next: MLNode<G>)
      requires Valid() && from < i && (from, i) in cache && Reached(rest, base, from, i - 1)
      ensures Reached(rest', next, from, i)
    {
      Entry(from, i - 1);
      Entry(from, i);
      hide Scratch, TidyRest, Replay, Valid, Known;
      next := cache[(from, i)];
      ReplayIsScratch(layers, from, i, base, next.graph);
      rest' := Replay(rest, base.id, from, i, next.graph);
    }

    lemma Entry(f: nat, t: nat)
      requires Valid() && ((f, t) in cache || f == t < |layers.nodes|)
      ensures layers.Valid() && (f, t) in cache && f <= t < |layers.nodes|
      ensures cache[(f, t)].graph == Scratch(layers, f, t).0
      ensures if f == t then cache[(f, t)] == MLNode(Layer(f), layers.nodes[f]) else cache[(f, t)].id.Generated?
    {
      assert (f, t) in cache && EntryOk(f, t);
      ScratchStart(layers, f);
    }

    /** Merge the base with the next layer and cache the result under a generated id. */
    method MergeOne(rest: Rest<G>, base: MLNode<G>, from: nat, i: nat) returns (rest': Rest<G>, merged: MLNode<G>)
      requires Valid() && from < i < |layers.nodes| && (from, i) !in cache && Reached(rest, base, from, i - 1)
      modifies `cache, `generated
      ensures Valid() && cache == old(cache)[(from, i) := merged] && Reached(rest', merged, from, i)
    {
      hide Scratch, TidyRest, Replay, Known;
      assert EntryOk(from, i - 1);
      merged := MLNode(Generated(generated), layers.merge(Merged(from, i), base.graph, layers.nodes[i], rest.graphs));
      generated := generated + 1;
      ScratchStep(layers, from, i);
      ReplayIsScratch(layers, from, i, base, merged.graph);
      rest' := Replay(rest, base.id, from, i, merged.graph);
      cache := cache[(from, i) := merged];
    }
  }

  /** The id under which the base is kept does not change the bookkeeping. */
  lemma ReplayIsScratch<G>(l: Layers<G>, from: nat, i: nat, base: MLNode<G>, graph: G)
    requires l.Valid() && from < i < |l.nodes| && graph == Scratch(l, from, i).0
    requires if i == from + 1 then base.id == Layer(from) else base.id.Generated?
    ensures Known(Scratch(l, from, i - 1).1.edges, Scratch(l, from, i - 1).1.names)
    ensures Replay(Scratch(l, from, i - 1).1, base.id, from, i, graph) == Scratch(l, from, i).1
  {
    ScratchStep(l, from, i);
    hide Scratch, Replay;
    if i > from + 1 { SameReplay(Scratch(l, from, i - 1).1, base.id, Generated(0), from, i, graph); }
  }

  /** Any sequence of calls: every answer is the graph that merging from scratch gives. */
  method MergeAll<G>(helper: GraphMergeHelper<G>, calls: seq<(nat, nat)>) returns (graphs: seq<G>)
    requires helper.Valid() && forall c :: c in calls ==> c.0 <= c.1 < |helper.layers.nodes|
    modifies helper
    ensures helper.Valid()
    ensures |graphs| == |calls| &&
            forall k :: 0 <= k < |calls| ==> graphs[k] == Scratch(helper.layers, calls[k].0, calls[k].1).0
  {
    hide Scratch, TidyRest;
    graphs := [];
    for n := 0 to |calls|
      invariant helper.Valid()
      invariant |graphs| == n &&
                forall k :: 0 <= k < n ==> graphs[k] == Scratch(helper.layers, calls[k].0, calls[k].1).0
    {
      var graph := helper.Merge(calls[n].0, calls[n].1);
      graphs := graphs + [graph];
    }
  }
}
