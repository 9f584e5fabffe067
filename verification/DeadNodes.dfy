/**
 Dead node removal (`removeUnusedNodes` in src/graph/ir.cpp).

 A node is dropped as soon as any of its outputs is unreferenced.  That is safe exactly when no
 node has both live and dead outputs, where liveness is the usual backward analysis.
 */
module DeadNodes {
  import opened IR
  import opened Orders

  function ReadBy(nodes: seq<Node>): set<string> {
    if nodes == [] then {} else ReadBy(nodes[..|nodes| - 1]) + Names(nodes[|nodes| - 1].inputs)
  }

  /** `getRequiredValues`: graph outputs and node inputs. */
  function Refs(nodes: seq<Node>, outs: seq<string>): set<string> { Names(outs) + ReadBy(nodes) }

  /** Some output is unreferenced. */
  predicate Unused(n: Node, refs: set<string>) { exists o :: o in n.outputs && o !in refs }

  function KeepUsed(nodes: seq<Node>, refs: set<string>): (r: seq<Node>)
    ensures |r| <= |nodes|
    ensures (exists i :: 0 <= i < |nodes| && Unused(nodes[i], refs)) ==> |r| < |nodes|
    ensures (forall i :: 0 <= i < |nodes| ==> !Unused(nodes[i], refs)) ==> r == nodes
  {
    if nodes == [] then []
    else
      assert nodes == nodes[..|nodes| - 1] + [nodes[|nodes| - 1]];
      KeepUsed(nodes[..|nodes| - 1], refs) + (if Unused(nodes[|nodes| - 1], refs) then [] else [nodes[|nodes| - 1]])
  }

  predicate AnyUnused(nodes: seq<Node>, refs: set<string>) { exists i :: 0 <= i < |nodes| && Unused(nodes[i], refs) }

  /** What the rounds of removal leave. */
  function Prune(nodes: seq<Node>, outs: seq<string>): seq<Node>
    decreases |nodes|
  {
    var refs := Refs(nodes, outs);
    if AnyUnused(nodes, refs) then Prune(KeepUsed(nodes, refs), outs) else nodes
  }

  function KeepNames(xs: seq<string>, s: set<string>): seq<string> {
    if xs == [] then [] else KeepNames(xs[..|xs| - 1], s) + (if xs[|xs| - 1] in s then [xs[|xs| - 1]] else [])
  }

  /** The graph that `removeUnusedNodes` returns. */
  function Removed(g: Graph): Graph {
    var nodes := Prune(g.nodes, g.outputs);
    var required := Refs(nodes, g.outputs);
    Graph(g.name, nodes, map x | x in g.values && x in required :: g.values[x],
          KeepNames(g.inputs, required), KeepNames(g.outputs, required))
  }

  // ---------- the loops ----------

  ghost predicate UniqueIds(nodes: seq<Node>) {
    forall i, j :: 0 <= i < j < |nodes| ==> nodes[i].id != nodes[j].id
  }

  method CollectRefs(nodes: seq<Node>, outs: seq<string>) returns (refs: set<string>)
    ensures refs == Refs(nodes, outs)
  {
    refs := {};
    for i := 0 to |outs|
      invariant refs == Names(outs[..i])
    {
      refs := refs + {outs[i]};
    }
    assert outs[..|outs|] == outs;
    for i := 0 to |nodes|
      invariant refs == Names(outs) + ReadBy(nodes[..i])
    {
      assert nodes[..i + 1][..i] == nodes[..i];
      refs := refs + Names(nodes[i].inputs);
    }
    assert nodes[..|nodes|] == nodes;
  }

  /** The ids of the nodes with an unreferenced output. */
  method DetectUnusedNodes(nodes: seq<Node>, refs: set<string>) returns (ids: set<string>)
    ensures forall id :: id in ids <==> exists i :: 0 <= i < |nodes| && nodes[i].id == id && Unused(nodes[i], refs)
  {
    ids := {};
    for i := 0 to |nodes|
      invariant forall id :: id in ids <==> exists k :: 0 <= k < i && nodes[k].id == id && Unused(nodes[k], refs)
    {
      var unused := false;
      for j := 0 to |nodes[i].outputs|
        invariant unused <==> exists k :: 0 <= k < j && nodes[i].outputs[k] !in refs
      {
        if nodes[i].outputs[j] !in refs { unused := true; }
      }
      if unused { ids := ids + {nodes[i].id}; }
    }
  }

  method DropNodes(nodes: seq<Node>, ids: set<string>, ghost refs: set<string>) returns (kept: seq<Node>)
    requires forall i :: 0 <= i < |nodes| ==> (nodes[i].id in ids <==> Unused(nodes[i], refs))
    ensures kept == KeepUsed(nodes, refs)
  {
    kept := [];
    for i := 0 to |nodes|
      invariant kept == KeepUsed(nodes[..i], refs)
    {
      assert nodes[..i + 1][..i] == nodes[..i];
      if nodes[i].id !in ids { kept := kept + [nodes[i]]; }
    }
    assert nodes[..|nodes|] == nodes;
  }

  method FilterNames(xs: seq<string>, s: set<string>) returns (kept: seq<string>)
    ensures kept == KeepNames(xs, s)
  {
    kept := [];
    for i := 0 to |xs|
      invariant kept == KeepNames(xs[..i], s)
    {
      assert xs[..i + 1][..i] == xs[..i];
      if xs[i] in s { kept := kept + [xs[i]]; }
    }
    assert xs[..|xs|] == xs;
  }

  lemma {:induction false} KeepUsedMembers(nodes: seq<Node>, refs: set<string>)
    ensures forall n :: n in KeepUsed(nodes, refs) <==> n in nodes && !Unused(n, refs)
  {
    if nodes != [] {
      assert nodes == nodes[..|nodes| - 1] + [nodes[|nodes| - 1]];
      KeepUsedMembers(nodes[..|nodes| - 1], refs);
    }
  }

  lemma {:induction false} KeepUsedIds(nodes: seq<Node>, refs: set<string>)
    requires UniqueIds(nodes)
    ensures UniqueIds(KeepUsed(nodes, refs))
  {
    if nodes != [] {
      var front, n := nodes[..|nodes| - 1], nodes[|nodes| - 1];
      KeepUsedIds(front, refs);
      KeepUsedMembers(front, refs);
      forall i | 0 <= i < |KeepUsed(front, refs)| ensures KeepUsed(front, refs)[i].id != n.id {
        assert KeepUsed(front, refs)[i] in front;
      }
    }
  }

  /** `removeUnusedNodes`: every round drops at least one node, so the loop ends. */
  method RemoveUnusedNodes(g: Graph) returns (r: Graph)
    requires UniqueIds(g.nodes)
    ensures r == Removed(g)
  {
    var nodes := g.nodes;
    var refs := CollectRefs(nodes, g.outputs);
    var ids := DetectUnusedNodes(nodes, refs);
    while ids != {}
      invariant Prune(nodes, g.outputs) == Prune(g.nodes, g.outputs)
      invariant UniqueIds(nodes) && refs == Refs(nodes, g.outputs)
      invariant forall id :: id in ids <==> exists i :: 0 <= i < |nodes| && nodes[i].id == id && Unused(nodes[i], refs)
      decreases |nodes|
    {
      KeepUsedIds(nodes, refs);
      nodes := DropNodes(nodes, ids, refs);
      refs := CollectRefs(nodes, g.outputs);
      ids := DetectUnusedNodes(nodes, refs);
    }
    assert forall i :: 0 <= i < |nodes| ==> Unused(nodes[i], refs) ==> nodes[i].id in ids;
    var inputs := FilterNames(g.inputs, refs);
    var outputs := FilterNames(g.outputs, refs);
    r := Graph(g.name, nodes, map x | x in g.values && x in refs :: g.values[x], inputs, outputs);
  }

  // ---------- what is kept ----------

  function Select(nodes: seq<Node>, s: set<Node>): seq<Node> {
    if nodes == [] then []
    else Select(nodes[..|nodes| - 1], s) + (if nodes[|nodes| - 1] in s then [nodes[|nodes| - 1]] else [])
  }

  function NodeSet(nodes: seq<Node>): set<Node> { set n | n in nodes }

  lemma {:induction false} SelectMembers(nodes: seq<Node>, s: set<Node>)
    ensures forall n :: n in Select(nodes, s) <==> n in nodes && n in s
  {
    if nodes != [] {
      assert nodes == nodes[..|nodes| - 1] + [nodes[|nodes| - 1]];
      SelectMembers(nodes[..|nodes| - 1], s);
    }
  }

  lemma {:induction false} SelectAll(nodes: seq<Node>, s: set<Node>)
    requires NodeSet(nodes) <= s
    ensures Select(nodes, s) == nodes
  {
    if nodes != [] {
      assert nodes == nodes[..|nodes| - 1] + [nodes[|nodes| - 1]];
      assert nodes[|nodes| - 1] in NodeSet(nodes);
      SelectAll(nodes[..|nodes| - 1], s);
    }
  }

  lemma SelectSnoc(nodes: seq<Node>, n: Node, s: set<Node>)
    ensures Select(nodes + [n], s) == Select(nodes, s) + (if n in s then [n] else [])
  {
    assert (nodes + [n])[..|nodes|] == nodes;
  }

  lemma {:induction false} SelectOfKept(nodes: seq<Node>, refs: set<string>, s: set<Node>)
    requires forall n :: n in s ==> !Unused(n, refs)
    ensures Select(KeepUsed(nodes, refs), s) == Select(nodes, s)
  {
    if nodes != [] {
      var front, n := nodes[..|nodes| - 1], nodes[|nodes| - 1];
      SelectOfKept(front, refs, s);
      if Unused(n, refs) {
        assert KeepUsed(nodes, refs) == KeepUsed(front, refs);
        assert Select(nodes, s) == Select(front, s);
      } else {
        SelectSnoc(KeepUsed(front, refs), n, s);
      }
    }
  }

  /** What is left is a selection of the original list, in the original order, and no node in it has an unreferenced
      output. */
  lemma {:induction false} PruneIsSelection(nodes: seq<Node>, outs: seq<string>)
    ensures Prune(nodes, outs) == Select(nodes, NodeSet(Prune(nodes, outs)))
    ensures NodeSet(Prune(nodes, outs)) <= NodeSet(nodes)
    ensures forall n :: n in Prune(nodes, outs) ==> !Unused(n, Refs(Prune(nodes, outs), outs))
    decreases |nodes|
  {
    var refs, s := Refs(nodes, outs), NodeSet(Prune(nodes, outs));
    if AnyUnused(nodes, refs) {
      PruneIsSelection(KeepUsed(nodes, refs), outs);
      KeepUsedMembers(nodes, refs);
      forall n | n in s ensures !Unused(n, refs) && n in nodes { assert n in NodeSet(KeepUsed(nodes, refs)); }
      SelectOfKept(nodes, refs, s);
    } else {
      SelectAll(nodes, s);
    }
  }

  lemma {:induction false} ReadByHas(nodes: seq<Node>, x: string)
    ensures x in ReadBy(nodes) <==> exists n :: n in nodes && x in n.inputs
  {
    if nodes != [] {
      assert nodes == nodes[..|nodes| - 1] + [nodes[|nodes| - 1]];
      ReadByHas(nodes[..|nodes| - 1], x);
    }
  }

  /** Every output of every node in `s` is a graph output or read within `s`. */
  ghost predicate SelfSupporting(s: set<Node>, outs: seq<string>) {
    forall n, o :: n in s && o in n.outputs ==> o in outs || exists m :: m in s && o in m.inputs
  }

  /** Removal never touches a self-supporting set of nodes. */
  lemma {:induction false} SupportedIsKept(nodes: seq<Node>, outs: seq<string>, s: set<Node>)
    requires s <= NodeSet(nodes) && SelfSupporting(s, outs)
    ensures s <= NodeSet(Prune(nodes, outs))
    decreases |nodes|
  {
    var refs := Refs(nodes, outs);
    if AnyUnused(nodes, refs) {
      KeepUsedMembers(nodes, refs);
      forall n | n in s ensures n in KeepUsed(nodes, refs) {
        assert n in NodeSet(nodes);
        forall o | o in n.outputs ensures o in refs {
          if o !in outs {
            var m :| m in s && o in m.inputs;
            assert m in NodeSet(nodes);
            ReadByHas(nodes, o);
          }
        }
      }
      SupportedIsKept(KeepUsed(nodes, refs), outs, s);
    }
  }

  // ---------- liveness ----------

  /** The node has a live output, or no output at all. */
  predicate Touches(n: Node, live: set<string>) { n.outputs == [] || exists o :: o in n.outputs && o in live }

  predicate FullyLive(n: Node, live: set<string>) { forall o :: o in n.outputs ==> o in live }

  /** Backward liveness: from the live names after the nodes to those before. */
  function LiveFrom(nodes: seq<Node>, live: set<string>): set<string> {
    if nodes == [] then live
    else
      var n := nodes[|nodes| - 1];
      LiveFrom(nodes[..|nodes| - 1], if Touches(n, live) then live + Names(n.inputs) else live)
  }

  function Live(g: Graph): set<string> { LiveFrom(g.nodes, Names(g.outputs)) }

  /** No node has both a live and a dead output. */
  predicate AllOrNothing(g: Graph) {
    forall n :: n in g.nodes ==> Touches(n, Live(g)) ==> FullyLive(n, Live(g))
  }

  ghost predicate LiveRead(nodes: seq<Node>, live: set<string>, x: string) {
    exists n :: n in nodes && Touches(n, live) && x in n.inputs
  }

  /** The live names are the given ones and those that a live node reads. */
  lemma {:induction false} LiveMeans(nodes: seq<Node>, avail: set<string>, start: set<string>)
    requires Ordered(nodes, avail) && SingleAssignment(nodes, avail)
    ensures var live := LiveFrom(nodes, start); forall x :: x in live <==> x in start || LiveRead(nodes, live, x)
  {
    if nodes != [] {
      var front, n := nodes[..|nodes| - 1], nodes[|nodes| - 1];
      var next := if Touches(n, start) then start + Names(n.inputs) else start;
      var live := LiveFrom(nodes, start);
      FrontIsFine(nodes, avail);
      LiveMeans(front, avail, next);
      forall o | o in n.outputs ensures o in live <==> o in start {
        forall m | m in nodes ensures o !in m.inputs {
          var i :| 0 <= i < |nodes| && nodes[i] == m;
          if o in m.inputs { ReadsEarlier(nodes, avail, i, |nodes| - 1, o); }
        }
        assert n in nodes;
        forall m | m in front ensures o !in m.inputs { assert m in nodes; }
      }
      assert Touches(n, live) <==> Touches(n, start);
      assert nodes == front + [n];
      forall x ensures LiveRead(nodes, live, x) <==> LiveRead(front, live, x) || (Touches(n, live) && x in n.inputs) {
        assert n in nodes;
        if LiveRead(front, live, x) {
          var m :| m in front && Touches(m, live) && x in m.inputs;
          assert m in nodes;
        }
      }
    }
  }

  // ---------- which nodes are kept ----------

  ghost predicate Proper(g: Graph) {
    Runs(g) && SingleAssignment(g.nodes, Names(g.inputs))
  }

  lemma LiveOf(g: Graph)
    requires Proper(g)
    ensures forall x :: x in Live(g) <==> x in g.outputs || LiveRead(g.nodes, Live(g), x)
  {
    LiveMeans(g.nodes, Names(g.inputs), Names(g.outputs));
    hide LiveFrom, LiveRead;
    forall x ensures x in Live(g) <==> x in g.outputs || LiveRead(g.nodes, Live(g), x) {
      assert x in Names(g.outputs) <==> x in g.outputs;
    }
  }

  /** Whoever reads an output of a node comes later. */
  lemma ReaderIsLater(g: Graph, i: nat, o: string, m: Node) returns (j: nat)
    requires Proper(g) && i < |g.nodes| && o in g.nodes[i].outputs && m in g.nodes && o in m.inputs
    ensures i < j < |g.nodes| && g.nodes[j] == m
  {
    j :| 0 <= j < |g.nodes| && g.nodes[j] == m;
    if j <= i { ReadsEarlier(g.nodes, Names(g.inputs), j, i, o); }
  }

  /** An output of a kept node is a graph output or is read by a later kept node. */
  lemma KeptOutput(g: Graph, i: nat, o: string) returns (j: nat)
    requires Proper(g) && i < |g.nodes| && g.nodes[i] in Prune(g.nodes, g.outputs) && o in g.nodes[i].outputs &&
             o !in g.outputs
    ensures i < j < |g.nodes| && g.nodes[j] in Prune(g.nodes, g.outputs) && o in g.nodes[j].inputs
  {
    var kept := Prune(g.nodes, g.outputs);
    PruneIsSelection(g.nodes, g.outputs);
    assert o in Refs(kept, g.outputs);
    ReadByHas(kept, o);
    var m :| m in kept && o in m.inputs;
    assert m in NodeSet(kept) && m in NodeSet(g.nodes);
    j := ReaderIsLater(g, i, o, m);
  }

  lemma ReadLive(g: Graph, j: nat, o: string)
    requires Proper(g) && j < |g.nodes| && Touches(g.nodes[j], Live(g)) && o in g.nodes[j].inputs
    ensures o in Live(g)
  {
    LiveOf(g);
    assert LiveRead(g.nodes, Live(g), o);
  }

  lemma OutputLive(g: Graph, o: string)
    requires Proper(g) && o in g.outputs
    ensures o in Live(g)
  {
    LiveOf(g);
  }

  lemma FullyLiveTouches(n: Node, live: set<string>)
    requires FullyLive(n, live)
    ensures Touches(n, live)
  {
    if n.outputs != [] { assert n.outputs[0] in n.outputs; }
  }

  /** A node that is kept has only live outputs. */
  lemma {:induction false} KeptIsLive(g: Graph, i: nat)
    requires Proper(g) && i < |g.nodes| && g.nodes[i] in Prune(g.nodes, g.outputs)
    ensures FullyLive(g.nodes[i], Live(g))
    decreases |g.nodes| - i
  {
    hide Proper, Live, Prune, Touches;
    forall o | o in g.nodes[i].outputs ensures o in Live(g) {
      if o in g.outputs {
        OutputLive(g, o);
      } else {
        var j := KeptOutput(g, i, o);
        KeptIsLive(g, j);
        FullyLiveTouches(g.nodes[j], Live(g));
        ReadLive(g, j, o);
      }
    }
  }

  // ---------- when removal is safe ----------

  function FullyLiveNodes(g: Graph): set<Node> { set n | n in g.nodes && FullyLive(n, Live(g)) }

  lemma LiveReader(g: Graph, o: string) returns (m: Node)
    requires Proper(g) && o in Live(g) && o !in g.outputs
    ensures m in g.nodes && Touches(m, Live(g)) && o in m.inputs
  {
    LiveOf(g);
    m :| m in g.nodes && Touches(m, Live(g)) && o in m.inputs;
  }

  /** If no node is half live, exactly the live nodes are kept. */
  lemma KeptIffLive(g: Graph)
    requires Proper(g) && AllOrNothing(g)
    ensures NodeSet(Prune(g.nodes, g.outputs)) == FullyLiveNodes(g)
  {
    var s := FullyLiveNodes(g);
    forall n, o | n in s && o in n.outputs ensures o in g.outputs || exists m :: m in s && o in m.inputs {
      if o !in g.outputs {
        var m := LiveReader(g, o);
        assert m in s;
      }
    }
    SupportedIsKept(g.nodes, g.outputs, s);
    PruneIsSelection(g.nodes, g.outputs);
    forall n | n in NodeSet(Prune(g.nodes, g.outputs)) ensures n in s {
      assert n in NodeSet(g.nodes);
      var i :| 0 <= i < |g.nodes| && g.nodes[i] == n;
      KeptIsLive(g, i);
    }
  }

  lemma {:induction false} WrittenBy(nodes: seq<Node>, x: string)
    ensures x in Written(nodes) <==> exists n :: n in nodes && x in n.outputs
  {
    WrittenHas(nodes, x);
    if n :| n in nodes && x in n.outputs {
      var i :| 0 <= i < |nodes| && nodes[i] == n;
      assert x in nodes[i].outputs;
    }
  }

  ghost predicate WrittenIn(nodes: seq<Node>, s: set<Node>, x: string) {
    exists w :: w in nodes && w in s && x in w.outputs
  }

  /** Everything the selected nodes read is available or written by a selected node. */
  ghost predicate Closed(nodes: seq<Node>, s: set<Node>, some: set<string>) {
    forall m, x :: m in nodes && m in s && x in m.inputs ==> x in some || WrittenIn(nodes, s, x)
  }

  lemma WrittenSelected(nodes: seq<Node>, s: set<Node>, x: string)
    ensures x in Written(Select(nodes, s)) <==> WrittenIn(nodes, s, x)
  {
    WrittenBy(Select(nodes, s), x);
    SelectMembers(nodes, s);
    if WrittenIn(nodes, s, x) {
      var w :| w in nodes && w in s && x in w.outputs;
      assert w in Select(nodes, s);
    }
  }

  /** What a node reads is not written by the last node, so its writer is among the others. */
  lemma WriterInFront(nodes: seq<Node>, avail: set<string>, s: set<Node>, m: Node, x: string)
    requires nodes != [] && Ordered(nodes, avail) && SingleAssignment(nodes, avail)
    requires m in nodes && x in m.inputs && WrittenIn(nodes, s, x)
    ensures WrittenIn(nodes[..|nodes| - 1], s, x)
  {
    var i :| 0 <= i < |nodes| && nodes[i] == m;
    ReadsEarlier(nodes, avail, i, |nodes| - 1, x);
    var w :| w in nodes && w in s && x in w.outputs;
    var k :| 0 <= k < |nodes| && nodes[k] == w;
    assert nodes[..|nodes| - 1][k] == w;
  }

  lemma ClosedFront(nodes: seq<Node>, avail: set<string>, s: set<Node>, some: set<string>)
    requires nodes != [] && Ordered(nodes, avail) && SingleAssignment(nodes, avail) && Closed(nodes, s, some)
    ensures Closed(nodes[..|nodes| - 1], s, some)
  {
    var front := nodes[..|nodes| - 1];
    forall m, x | m in front && m in s && x in m.inputs ensures x in some || WrittenIn(front, s, x) {
      assert m in nodes;
      if x !in some { WriterInFront(nodes, avail, s, m, x); }
    }
  }

  lemma OrderedSnoc(kept: seq<Node>, n: Node, some: set<string>)
    requires Ordered(kept, some) && forall x :: x in n.inputs ==> x in some || x in Written(kept)
    ensures Ordered(kept + [n], some)
  {
    var all := kept + [n];
    forall i, x | 0 <= i < |all| && x in all[i].inputs ensures x in some || x in Written(all[..i]) {
      assert all[..i] == kept[..i];
      assert kept[..|kept|] == kept;
    }
  }

  /** A selection stays well ordered if it is closed. */
  lemma {:induction false} SelectOrdered(nodes: seq<Node>, avail: set<string>, s: set<Node>, some: set<string>)
    requires Ordered(nodes, avail) && SingleAssignment(nodes, avail) && Closed(nodes, s, some)
    ensures Ordered(Select(nodes, s), some)
  {
    if nodes != [] {
      var front, n := nodes[..|nodes| - 1], nodes[|nodes| - 1];
      FrontIsFine(nodes, avail);
      ClosedFront(nodes, avail, s, some);
      SelectOrdered(front, avail, s, some);
      if n in s {
        forall x | x in n.inputs ensures x in some || x in Written(Select(front, s)) {
          assert n in nodes;
          if x !in some {
            WriterInFront(nodes, avail, s, n, x);
            WrittenSelected(front, s, x);
          }
        }
        hide Ordered, SingleAssignment, Closed;
        OrderedSnoc(Select(front, s), n, some);
      } else {
        assert Select(front, s) + [] == Select(front, s);
      }
    }
  }

  lemma KeepNamesMembers(xs: seq<string>, s: set<string>)
    ensures forall x :: x in KeepNames(xs, s) <==> x in xs && x in s
  {
    if xs != [] {
      assert xs == xs[..|xs| - 1] + [xs[|xs| - 1]];
      KeepNamesMembers(xs[..|xs| - 1], s);
    }
  }

  lemma KeepNamesAll(xs: seq<string>, s: set<string>)
    requires Names(xs) <= s
    ensures KeepNames(xs, s) == xs
  {
    if xs != [] {
      assert xs == xs[..|xs| - 1] + [xs[|xs| - 1]];
      assert xs[|xs| - 1] in Names(xs);
      assert Names(xs[..|xs| - 1]) <= Names(xs);
      KeepNamesAll(xs[..|xs| - 1], s);
    }
  }

  /** Graph outputs are never dropped. */
  lemma OutputsKept(g: Graph)
    ensures Removed(g).outputs == g.outputs
  {
    KeepNamesAll(g.outputs, Refs(Removed(g).nodes, g.outputs));
  }

  /** The writer of a live name is kept when no node is half live. */
  lemma LiveWriterKept(g: Graph, x: string)
    requires Proper(g) && AllOrNothing(g) && x in Live(g) && x !in g.inputs && x in Written(g.nodes)
    ensures WrittenIn(g.nodes, NodeSet(Prune(g.nodes, g.outputs)), x)
  {
    KeptIffLive(g);
    WrittenBy(g.nodes, x);
    var n :| n in g.nodes && x in n.outputs;
    assert Touches(n, Live(g));
    assert n in FullyLiveNodes(g);
  }

  lemma RemovedRuns(g: Graph)
    requires Proper(g) && AllOrNothing(g)
    ensures Runs(Removed(g))
  {
    var kept := Prune(g.nodes, g.outputs);
    var s, required := NodeSet(kept), Refs(kept, g.outputs);
    PruneIsSelection(g.nodes, g.outputs);
    KeptIffLive(g);
    KeepNamesMembers(g.inputs, required);
    OutputsKept(g);
    forall m, x | m in g.nodes && m in s && x in m.inputs
      ensures x in Names(Removed(g).inputs) || WrittenIn(g.nodes, s, x)
    {
      assert m in kept;
      ReadByHas(kept, x);
      InputDefined(g, m, x);
      if x !in g.inputs {
        var i :| 0 <= i < |g.nodes| && g.nodes[i] == m;
        FullyLiveTouches(m, Live(g));
        ReadLive(g, i, x);
        LiveWriterKept(g, x);
      }
    }
    SelectOrdered(g.nodes, Names(g.inputs), s, Names(Removed(g).inputs));
    forall o | o in g.outputs ensures o in Names(Removed(g).inputs) + Written(kept) {
      assert o in Names(g.inputs) + Written(g.nodes);
      if o !in g.inputs {
        OutputLive(g, o);
        LiveWriterKept(g, o);
        WrittenSelected(g.nodes, s, o);
      }
    }
  }

  lemma {:induction false} WrittenPrefix(nodes: seq<Node>, i: nat, x: string)
    requires i <= |nodes| && x in Written(nodes[..i])
    ensures x in Written(nodes)
  {
    WrittenHas(nodes[..i], x);
    WrittenHas(nodes, x);
    var k :| 0 <= k < i && x in nodes[..i][k].outputs;
    assert x in nodes[k].outputs;
  }

  lemma InputDefined(g: Graph, m: Node, x: string)
    requires Proper(g) && m in g.nodes && x in m.inputs
    ensures x in g.inputs || x in Written(g.nodes)
  {
    var i :| 0 <= i < |g.nodes| && g.nodes[i] == m;
    assert x in Names(g.inputs) || x in Written(g.nodes[..i]);
    if x in Written(g.nodes[..i]) { WrittenPrefix(g.nodes, i, x); }
  }

  // ---------- and when it is not ----------

  predicate HalfLive(n: Node, live: set<string>) { Touches(n, live) && !FullyLive(n, live) }

  lemma LastHalfLive(g: Graph) returns (i: nat)
    requires !AllOrNothing(g)
    ensures i < |g.nodes| && HalfLive(g.nodes[i], Live(g))
    ensures forall j :: i < j < |g.nodes| ==> !HalfLive(g.nodes[j], Live(g))
  {
    var n :| n in g.nodes && Touches(n, Live(g)) && !FullyLive(n, Live(g));
    i :| 0 <= i < |g.nodes| && g.nodes[i] == n;
    var j := i;
    while j < |g.nodes|
      invariant i < |g.nodes| && HalfLive(g.nodes[i], Live(g)) && i <= j <= |g.nodes|
      invariant forall k :: i < k < j ==> !HalfLive(g.nodes[k], Live(g))
    {
      if HalfLive(g.nodes[j], Live(g)) { i := j; }
      j := j + 1;
    }
  }

  /** Live nodes behind the last half-live node are kept. */
  lemma LaterLiveKept(g: Graph, i: nat, j: nat)
    requires Proper(g) && i < j < |g.nodes| && Touches(g.nodes[j], Live(g))
    requires forall k :: i < k < |g.nodes| ==> !HalfLive(g.nodes[k], Live(g))
    ensures g.nodes[j] in Prune(g.nodes, g.outputs)
  {
    var s := set k | i < k < |g.nodes| && Touches(g.nodes[k], Live(g)) :: g.nodes[k];
    forall n, o | n in s && o in n.outputs ensures o in g.outputs || exists m :: m in s && o in m.inputs {
      var k :| i < k < |g.nodes| && Touches(g.nodes[k], Live(g)) && g.nodes[k] == n;
      assert !HalfLive(g.nodes[k], Live(g));
      if o !in g.outputs {
        var m := LiveReader(g, o);
        var k' := ReaderIsLater(g, k, o, m);
        assert m in s;
      }
    }
    SupportedIsKept(g.nodes, g.outputs, s);
    assert g.nodes[j] in NodeSet(Prune(g.nodes, g.outputs));
  }

  lemma KeptIndex(g: Graph, n: Node) returns (k: nat)
    requires n in Prune(g.nodes, g.outputs)
    ensures k < |g.nodes| && g.nodes[k] == n
  {
    PruneIsSelection(g.nodes, g.outputs);
    assert n in NodeSet(Prune(g.nodes, g.outputs)) && n in NodeSet(g.nodes);
    k :| 0 <= k < |g.nodes| && g.nodes[k] == n;
  }

  lemma NotWrittenByKept(g: Graph, i: nat, a: string)
    requires Proper(g) && i < |g.nodes| && a in g.nodes[i].outputs && g.nodes[i] !in Prune(g.nodes, g.outputs)
    ensures a !in Written(Prune(g.nodes, g.outputs))
  {
    hide Prune;
    var kept := Prune(g.nodes, g.outputs);
    forall n | n in kept ensures a !in n.outputs { var k := KeptIndex(g, n); }
    WrittenBy(kept, a);
  }

  /** A name whose only writer is dropped is not defined any more. */
  lemma DroppedWriter(g: Graph, i: nat, a: string)
    requires Proper(g) && i < |g.nodes| && a in g.nodes[i].outputs && g.nodes[i] !in Prune(g.nodes, g.outputs)
    ensures a !in Names(Removed(g).inputs) + Written(Removed(g).nodes)
  {
    hide Prune;
    NotWrittenByKept(g, i, a);
    KeepNamesMembers(g.inputs, Refs(Prune(g.nodes, g.outputs), g.outputs));
    assert a !in Names(g.inputs);
  }

  lemma RemovedBreaks(g: Graph)
    requires Proper(g) && !AllOrNothing(g)
    ensures !Runs(Removed(g))
  {
    var i := LastHalfLive(g);
    var n := g.nodes[i];
    if n in Prune(g.nodes, g.outputs) { KeptIsLive(g, i); }
    var a :| a in n.outputs && a in Live(g);
    DroppedWriter(g, i, a);
    OutputsKept(g);
    if a !in g.outputs {
      var m := LiveReader(g, a);
      var j := ReaderIsLater(g, i, a, m);
      LaterLiveKept(g, i, j);
      var kept := Removed(g).nodes;
      var k :| 0 <= k < |kept| && kept[k] == m;
      assert a in kept[k].inputs;
      if a in Written(kept[..k]) { WrittenPrefix(kept, k, a); }
    }
  }

  /** Removal yields a graph that passes `verifyNodeInputs` and defines its outputs if and only if no node has both
      live and dead outputs. */
  lemma RemovalSafeIff(g: Graph)
    requires Proper(g)
    ensures Runs(Removed(g)) <==> AllOrNothing(g)
  {
    if AllOrNothing(g) { RemovedRuns(g); } else { RemovedBreaks(g); }
  }

  function Restrict<V>(env: Env<V>, xs: seq<string>): Env<V> { map x | x in env && x in xs :: env[x] }

  lemma KeptSolved<V>(f: Operators<V>, g: Graph, val: Env<V>)
    requires Solves(f, val, g.nodes)
    ensures Solves(f, val, Removed(g).nodes)
  {
    hide Prune, SolvesNode;
    forall n | n in Removed(g).nodes ensures SolvesNode(f, val, n) {
      var k := KeptIndex(g, n);
    }
  }

  /** Under any valuation of the original nodes, the remaining nodes compute its values. */
  lemma RemovedWithin<V>(f: Operators<V>, g: Graph, env: Env<V>, val: Env<V>)
    requires Proper(g) && AllOrNothing(g) && env.Keys == Names(g.inputs) && Within(env, val) && Solves(f, val, g.nodes)
    ensures var r, small := Removed(g), Restrict(env, Removed(g).inputs);
            Within(Eval(f, r.nodes, small), val) && forall o :: o in g.outputs ==> o in Eval(f, r.nodes, small)
  {
    var r, small := Removed(g), Restrict(env, Removed(g).inputs);
    RemovedRuns(g);
    OutputsKept(g);
    KeptSolved(f, g, val);
    KeepNamesMembers(g.inputs, Refs(r.nodes, g.outputs));
    hide Proper, AllOrNothing, Prune, Eval;
    assert small.Keys == Names(r.inputs);
    EvalWithin(f, r.nodes, small, val);
  }

  /** A safe removal does not change any output: outputs keep their order and their values. */
  lemma RemovalPreserves<V>(f: Operators<V>, g: Graph, env: Env<V>)
    requires Proper(g) && AllOrNothing(g) && env.Keys == Names(g.inputs)
    ensures Removed(g).outputs == g.outputs
    ensures LookAll(Eval(f, Removed(g).nodes, Restrict(env, Removed(g).inputs)), g.outputs) ==
              LookAll(Eval(f, g.nodes, env), g.outputs)
  {
    OutputsKept(g);
    EvalSolves(f, g.nodes, env);
    RemovedWithin(f, g, env, Eval(f, g.nodes, env));
    hide Removed, Eval, Proper, AllOrNothing;
  }

  /** No node of the result has an unreferenced output. */
  lemma NothingUnusedLeft(g: Graph)
    ensures forall n, o :: n in Removed(g).nodes && o in n.outputs ==> o in Refs(Removed(g).nodes, g.outputs)
  {
    PruneIsSelection(g.nodes, g.outputs);
    forall n, o | n in Removed(g).nodes && o in n.outputs ensures o in Refs(Removed(g).nodes, g.outputs) {
      assert !Unused(n, Refs(Removed(g).nodes, g.outputs));
    }
  }

  lemma {:induction false} KeptInOrder(xs: seq<string>, s: set<string>)
    ensures Sublist(KeepNames(xs, s), xs)
  {
    if xs != [] {
      var front := xs[..|xs| - 1];
      KeptInOrder(front, s);
      assert KeepNames(front, s) + [] == KeepNames(front, s);
      if xs[|xs| - 1] in s { SublistKeeps(KeepNames(front, s), xs); }
    }
  }

  lemma {:induction false} SelectedInOrder(nodes: seq<Node>, s: set<Node>)
    ensures Sublist(Select(nodes, s), nodes)
  {
    if nodes != [] {
      var front := nodes[..|nodes| - 1];
      SelectedInOrder(front, s);
      assert Select(front, s) + [] == Select(front, s);
      if nodes[|nodes| - 1] in s { SublistKeeps(Select(front, s), nodes); }
    }
  }

  /** Somebody refers to `x`: it is an output, or a node reads it. */
  ghost predicate Referred(nodes: seq<Node>, outs: seq<string>, x: string) {
    x in outs || exists n :: n in nodes && x in n.inputs
  }

  /** What is left keeps its order, and exactly the inputs and values that are still referred to stay. */
  lemma RemovedListing(g: Graph)
    ensures var r := Removed(g);
            && Sublist(r.nodes, g.nodes) && Sublist(r.inputs, g.inputs)
            && (forall x :: x in r.inputs <==> x in g.inputs && Referred(r.nodes, g.outputs, x))
            && (forall x :: x in r.values <==> x in g.values && Referred(r.nodes, g.outputs, x))
            && (forall x :: x in r.values ==> r.values[x] == g.values[x])
  {
    var nodes := Prune(g.nodes, g.outputs);
    var required := Refs(nodes, g.outputs);
    PruneIsSelection(g.nodes, g.outputs);
    SelectedInOrder(g.nodes, NodeSet(nodes));
    KeptInOrder(g.inputs, required);
    KeepNamesMembers(g.inputs, required);
    forall x ensures x in required <==> Referred(nodes, g.outputs, x) { ReadByHas(nodes, x); }
  }

  lemma OneNodePruned(n: Node, outs: seq<string>)
    requires Unused(n, Names(outs) + Names(n.inputs))
    ensures Prune([n], outs) == []
  {
    var nodes, empty: seq<Node> := [n], [];
    assert nodes[..0] == empty;
    assert ReadBy(nodes) == ReadBy(empty) + Names(n.inputs);
    assert Unused(nodes[0], Refs(nodes, outs));
    assert KeepUsed(nodes, Refs(nodes, outs)) == empty;
  }

  lemma OneNodeRuns(g: Graph, n: Node)
    requires g.nodes == [n] && Names(n.inputs) <= Names(g.inputs) && Names(g.outputs) <= Names(n.outputs)
    ensures Runs(g)
  {
    assert g.nodes[..0] == [];
    assert Written(g.nodes) == Written(g.nodes[..0]) + Names(n.outputs);
    forall x | x in n.inputs ensures x in g.inputs { assert x in Names(n.inputs); }
    forall o | o in g.outputs ensures o in n.outputs { assert o in Names(g.outputs); }
  }

  /** An output that is neither an input nor written is not defined. */
  lemma NothingDefines(g: Graph, o: string)
    requires g.nodes == [] && o in g.outputs && o !in g.inputs
    ensures !Runs(g)
  {
  }

  /** A node with one used and one unused output is dropped, and with it the used one. */
  lemma HalfUsedNodeBreaks()
    ensures var g := Graph("g", [Node("n", "split", ["x"], ["a", "b"])], map[], ["x"], ["a"]);
            Runs(g) && Removed(g).nodes == [] && Removed(g).outputs == ["a"] && !Runs(Removed(g))
  {
    var n := Node("n", "split", ["x"], ["a", "b"]);
    var g := Graph("g", [n], map[], ["x"], ["a"]);
    assert "a" in n.outputs && "b" in n.outputs;
    hide Prune, Runs;
    OneNodeRuns(g, n);
    OneNodePruned(n, ["a"]);
    OutputsKept(g);
    KeepNamesMembers(["x"], Refs([], ["a"]));
    assert "a" in Removed(g).outputs && "a" !in Removed(g).inputs;
    NothingDefines(Removed(g), "a");
  }
}
