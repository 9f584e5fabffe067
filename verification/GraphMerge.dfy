/**
 Merging two graphs into one (`merge` on IR graphs in src/graph/MLGraph.cpp), in the direction
 first to second.  Both are cut from one single-assignment program, so a name denotes one value and
 nodes that write the same name are copies of one node; copies are dropped by the merge.
 */
module GraphMerge {
  import opened IR
  import opened Orders
  import D = DeadNodes

  function NonParams(g: Graph, xs: seq<string>): seq<string> {
    if xs == [] then [] else NonParams(g, xs[..|xs| - 1]) + (if IsParam(g, xs[|xs| - 1]) then [] else [xs[|xs| - 1]])
  }

  function Params(g: Graph, xs: seq<string>): seq<string> {
    if xs == [] then [] else Params(g, xs[..|xs| - 1]) + (if IsParam(g, xs[|xs| - 1]) then [xs[|xs| - 1]] else [])
  }

  /** Append the names of `xs` that are not yet in the list and not in `skip`. */
  function AddNew(base: seq<string>, xs: seq<string>, skip: seq<string>): seq<string> {
    if xs == [] then base
    else
      var rest := AddNew(base, xs[..|xs| - 1], skip);
      if xs[|xs| - 1] in skip || xs[|xs| - 1] in rest then rest else rest + [xs[|xs| - 1]]
  }

  /** Outputs of the first graph that the second does not read, or that others require. */
  function SurvivingOutputs(xs: seq<string>, read: seq<string>, required: set<string>): seq<string> {
    if xs == [] then []
    else SurvivingOutputs(xs[..|xs| - 1], read, required) +
         var o := xs[|xs| - 1]; if o !in read || o in required then [o] else []
  }

  /** `outputAvailable`. */
  predicate Available(n: Node, avail: set<string>) { exists o :: o in n.outputs && o in avail }

  /** The node pass: skip a node if any of its outputs is available already. */
  function Pass(nodes: seq<Node>, avail: set<string>): seq<Node> {
    if nodes == [] then []
    else
      var front := Pass(nodes[..|nodes| - 1], avail);
      var n := nodes[|nodes| - 1];
      if Available(n, avail + Written(front)) then front else front + [n]
  }

  function MergedNonParams(g1: Graph, g2: Graph): seq<string> {
    AddNew(NonParams(g1, g1.inputs), NonParams(g2, g2.inputs), g1.outputs)
  }

  function MergedParams(g1: Graph, g2: Graph): seq<string> {
    AddNew(AddNew([], Params(g1, g1.inputs), []), Params(g2, g2.inputs), [])
  }

  /** `name` is the generated name of the new graph. */
  function Merged(name: string, g1: Graph, g2: Graph, required: set<string>): Graph {
    Graph(name,
          Pass(g1.nodes + g2.nodes, Names(MergedNonParams(g1, g2))),
          g2.values + g1.values,
          MergedNonParams(g1, g2) + MergedParams(g1, g2),
          SurvivingOutputs(g1.outputs, g2.inputs, required) + g2.outputs)
  }

  // ---------- the loops ----------

  method SplitInputs(g: Graph) returns (nonParams: seq<string>, params: seq<string>)
    ensures nonParams == NonParams(g, g.inputs) && params == Params(g, g.inputs)
  {
    nonParams, params := [], [];
    for i := 0 to |g.inputs|
      invariant nonParams == NonParams(g, g.inputs[..i]) && params == Params(g, g.inputs[..i])
    {
      assert g.inputs[..i + 1][..i] == g.inputs[..i];
      var x := g.inputs[i];
      if IsParam(g, x) { params := params + [x]; } else { nonParams := nonParams + [x]; }
    }
    assert g.inputs[..|g.inputs|] == g.inputs;
  }

  method AppendNew(base: seq<string>, xs: seq<string>, skip: seq<string>) returns (all: seq<string>)
    ensures all == AddNew(base, xs, skip)
  {
    all := base;
    for i := 0 to |xs|
      invariant all == AddNew(base, xs[..i], skip)
    {
      assert xs[..i + 1][..i] == xs[..i];
      if xs[i] !in skip && xs[i] !in all { all := all + [xs[i]]; }
    }
    assert xs[..|xs|] == xs;
  }

  method OutputAvailable(n: Node, avail: set<string>) returns (available: bool)
    ensures available == Available(n, avail)
  {
    available := false;
    for i := 0 to |n.outputs|
      invariant available <==> exists k :: 0 <= k < i && n.outputs[k] in avail
    {
      if n.outputs[i] in avail { available := true; }
    }
  }

  method NodePass(nodes: seq<Node>, avail: set<string>) returns (kept: seq<Node>)
    ensures kept == Pass(nodes, avail)
  {
    kept := [];
    var names := avail;
    for i := 0 to |nodes|
      invariant kept == Pass(nodes[..i], avail) && names == avail + Written(kept)
    {
      assert nodes[..i + 1][..i] == nodes[..i];
      var available := OutputAvailable(nodes[i], names);
      if !available {
        assert (kept + [nodes[i]])[..|kept|] == kept;
        names := names + Names(nodes[i].outputs);
        kept := kept + [nodes[i]];
      }
    }
    assert nodes[..|nodes|] == nodes;
  }

  /** `merge`: one pass over outputs, inputs and nodes of both graphs. */
  method Merge(name: string, g1: Graph, g2: Graph, required: set<string>) returns (g: Graph)
    ensures g == Merged(name, g1, g2, required)
  {
    var outputs: seq<string> := [];
    for i := 0 to |g1.outputs|
      invariant outputs == SurvivingOutputs(g1.outputs[..i], g2.inputs, required)
    {
      assert g1.outputs[..i + 1][..i] == g1.outputs[..i];
      var o := g1.outputs[i];
      if o !in g2.inputs || o in required { outputs := outputs + [o]; }
    }
    assert g1.outputs[..|g1.outputs|] == g1.outputs;
    outputs := outputs + g2.outputs;
    var nonParams1, params1 := SplitInputs(g1);
    var nonParams2, params2 := SplitInputs(g2);
    var nonParams := AppendNew(nonParams1, nonParams2, g1.outputs);
    var params := AppendNew([], params1, []);
    params := AppendNew(params, params2, []);
    var nodes := NodePass(g1.nodes + g2.nodes, Names(nonParams));
    g := Graph(name, nodes, g2.values + g1.values, nonParams + params, outputs);
  }

  /** `getRequiredInputs`: what the other graphs read. */
  function RequiredInputs(g1: Graph, g2: Graph, all: seq<Graph>): set<string> {
    if all == [] then {}
    else
      var g := all[|all| - 1];
      RequiredInputs(g1, g2, all[..|all| - 1]) +
      (if g.name != g1.name && g.name != g2.name then Names(g.inputs) else {})
  }

  // ---------- names ----------

  lemma {:induction false} NonParamsAre(g: Graph, xs: seq<string>)
    ensures forall x :: x in NonParams(g, xs) <==> x in xs && !IsParam(g, x)
    ensures forall x :: x in Params(g, xs) <==> x in xs && IsParam(g, x)
  {
    if xs != [] {
      assert xs == xs[..|xs| - 1] + [xs[|xs| - 1]];
      NonParamsAre(g, xs[..|xs| - 1]);
    }
  }

  lemma {:induction false} AddNewIs(base: seq<string>, xs: seq<string>, skip: seq<string>)
    ensures forall x :: x in AddNew(base, xs, skip) <==> x in base || (x in xs && x !in skip)
  {
    if xs != [] {
      assert xs == xs[..|xs| - 1] + [xs[|xs| - 1]];
      AddNewIs(base, xs[..|xs| - 1], skip);
    }
  }

  lemma {:induction false} SurvivingAre(xs: seq<string>, read: seq<string>, required: set<string>)
    ensures forall x :: x in SurvivingOutputs(xs, read, required) <==> x in xs && (x !in read || x in required)
  {
    if xs != [] {
      assert xs == xs[..|xs| - 1] + [xs[|xs| - 1]];
      SurvivingAre(xs[..|xs| - 1], read, required);
    }
  }

  lemma {:induction false} RequiredHas(g1: Graph, g2: Graph, all: seq<Graph>, x: string)
    ensures x in RequiredInputs(g1, g2, all) <==>
              exists g :: g in all && g.name != g1.name && g.name != g2.name && x in g.inputs
  {
    if all != [] {
      assert all == all[..|all| - 1] + [all[|all| - 1]];
      RequiredHas(g1, g2, all[..|all| - 1], x);
    }
  }

  predicate MergedNonParam(g1: Graph, g2: Graph, x: string) {
    (x in g1.inputs && !IsParam(g1, x)) || (x in g2.inputs && !IsParam(g2, x) && x !in g1.outputs)
  }

  predicate MergedParam(g1: Graph, g2: Graph, x: string) {
    (x in g1.inputs && IsParam(g1, x)) || (x in g2.inputs && IsParam(g2, x))
  }

  lemma MergedInputsAre(g1: Graph, g2: Graph)
    ensures forall x :: x in MergedNonParams(g1, g2) <==> MergedNonParam(g1, g2, x)
    ensures forall x :: x in MergedParams(g1, g2) <==> MergedParam(g1, g2, x)
  {
    NonParamsAre(g1, g1.inputs);
    NonParamsAre(g2, g2.inputs);
    AddNewIs(NonParams(g1, g1.inputs), NonParams(g2, g2.inputs), g1.outputs);
    AddNewIs([], Params(g1, g1.inputs), []);
    AddNewIs(AddNew([], Params(g1, g1.inputs), []), Params(g2, g2.inputs), []);
  }

  predicate Exported(g1: Graph, g2: Graph, required: set<string>, o: string) {
    o in g2.outputs || (o in g1.outputs && (o !in g2.inputs || o in required))
  }

  /** Which outputs survive: all of the second graph, and those of the first that the second does not read or another
      graph reads. A network output that only the second graph reads is therefore dropped. */
  lemma MergedOutputsAre(name: string, g1: Graph, g2: Graph, required: set<string>, o: string)
    ensures o in Merged(name, g1, g2, required).outputs <==> Exported(g1, g2, required, o)
  {
    SurvivingAre(g1.outputs, g2.inputs, required);
  }

  /** Whatever any other graph reads from either of the two is still an output of the merged graph. */
  lemma OthersStillServed(name: string, g1: Graph, g2: Graph, all: seq<Graph>, other: Graph, x: string)
    requires other in all && other.name != g1.name && other.name != g2.name && x in other.inputs
    requires x in g1.outputs || x in g2.outputs
    ensures x in Merged(name, g1, g2, RequiredInputs(g1, g2, all)).outputs
  {
    RequiredHas(g1, g2, all, x);
    MergedOutputsAre(name, g1, g2, RequiredInputs(g1, g2, all), x);
  }

  // ---------- the order of the lists ----------

  lemma {:induction false} SplitInOrder(g: Graph, xs: seq<string>)
    ensures Sublist(NonParams(g, xs), xs) && Sublist(Params(g, xs), xs)
  {
    if xs != [] {
      var front := xs[..|xs| - 1];
      SplitInOrder(g, front);
      assert NonParams(g, front) + [] == NonParams(g, front) && Params(g, front) + [] == Params(g, front);
      if IsParam(g, xs[|xs| - 1]) {
        SublistKeeps(Params(g, front), xs);
      } else {
        SublistKeeps(NonParams(g, front), xs);
      }
    }
  }

  lemma {:induction false} AddedInOrder(base: seq<string>, xs: seq<string>, skip: seq<string>)
    returns (added: seq<string>)
    ensures AddNew(base, xs, skip) == base + added && Sublist(added, xs)
  {
    added := [];
    if xs != [] {
      added := AddedInOrder(base, xs[..|xs| - 1], skip);
      var rest := base + added;
      if xs[|xs| - 1] !in skip && xs[|xs| - 1] !in rest {
        SublistKeeps(added, xs);
        added := added + [xs[|xs| - 1]];
      }
    }
  }

  lemma {:induction false} SurvivingInOrder(xs: seq<string>, read: seq<string>, required: set<string>)
    ensures Sublist(SurvivingOutputs(xs, read, required), xs)
  {
    if xs != [] {
      var front := SurvivingOutputs(xs[..|xs| - 1], read, required);
      SurvivingInOrder(xs[..|xs| - 1], read, required);
      assert front + [] == front;
      if xs[|xs| - 1] !in read || xs[|xs| - 1] in required { SublistKeeps(front, xs); }
    }
  }

  lemma {:induction false} PassInOrder(nodes: seq<Node>, avail: set<string>)
    ensures Sublist(Pass(nodes, avail), nodes)
  {
    if nodes != [] {
      var front := Pass(nodes[..|nodes| - 1], avail);
      PassInOrder(nodes[..|nodes| - 1], avail);
      if !Available(nodes[|nodes| - 1], avail + Written(front)) { SublistKeeps(front, nodes); }
    }
  }

  /** One after the other: a part of `xs`, then a part of `ys`. */
  ghost predicate Listed(zs: seq<string>, xs: seq<string>, ys: seq<string>) {
    exists k: nat :: k <= |zs| && Sublist(zs[..k], xs) && Sublist(zs[k..], ys)
  }

  lemma ListedBy(a: seq<string>, b: seq<string>, xs: seq<string>, ys: seq<string>)
    requires Sublist(a, xs) && Sublist(b, ys)
    ensures Listed(a + b, xs, ys)
  {
    assert (a + b)[..|a|] == a && (a + b)[|a|..] == b;
  }

  lemma NewListed(own: seq<string>, g2: Graph, more: seq<string>, skip: seq<string>, inputs1: seq<string>)
    requires Sublist(own, inputs1) && Sublist(more, g2.inputs)
    ensures Listed(AddNew(own, more, skip), inputs1, g2.inputs)
  {
    var added := AddedInOrder(own, more, skip);
    SublistTransitive(added, more, g2.inputs);
    ListedBy(own, added, inputs1, g2.inputs);
  }

  /** Everything is listed in order, and what comes from the first graph before what comes from the second: the nodes;
      among the inputs those that are no parameters, followed by the parameters; and the outputs, of which those of the
      second graph stay as they are. */
  lemma MergedListing(name: string, g1: Graph, g2: Graph, required: set<string>)
    ensures var g, k := Merged(name, g1, g2, required), |MergedNonParams(g1, g2)|;
            && Sublist(g.nodes, g1.nodes + g2.nodes)
            && k <= |g.inputs| && Listed(g.inputs[..k], g1.inputs, g2.inputs)
            && Listed(g.inputs[k..], g1.inputs, g2.inputs)
            && (forall x :: x in g.inputs[..k] <==> MergedNonParam(g1, g2, x))
            && (forall x :: x in g.inputs[k..] <==> MergedParam(g1, g2, x))
            && |g.outputs| >= |g2.outputs| && Sublist(g.outputs[..|g.outputs| - |g2.outputs|], g1.outputs)
            && g.outputs[|g.outputs| - |g2.outputs|..] == g2.outputs
  {
    PassInOrder(g1.nodes + g2.nodes, Names(MergedNonParams(g1, g2)));
    SurvivingInOrder(g1.outputs, g2.inputs, required);
    SplitInOrder(g1, g1.inputs);
    SplitInOrder(g2, g2.inputs);
    NewListed(NonParams(g1, g1.inputs), g2, NonParams(g2, g2.inputs), g1.outputs, g1.inputs);
    var own := AddedInOrder([], Params(g1, g1.inputs), []);
    SublistTransitive(own, Params(g1, g1.inputs), g1.inputs);
    NewListed(own, g2, Params(g2, g2.inputs), [], g1.inputs);
    MergedInputsAre(g1, g2);
    var g, a, b := Merged(name, g1, g2, required), MergedNonParams(g1, g2), MergedParams(g1, g2);
    assert g.inputs[..|a|] == a && g.inputs[|a|..] == b && [] + own == own;
    var kept := SurvivingOutputs(g1.outputs, g2.inputs, required);
    assert g.outputs[..|kept|] == kept && g.outputs[|kept|..] == g2.outputs;
  }

  // ---------- which names are lost ----------

  /** Nodes that write a common name are copies of one node. */
  ghost predicate Copies(nodes: seq<Node>) {
    forall a, b, x :: a in nodes && b in nodes && x in a.outputs && x in b.outputs ==>
      a.op == b.op && a.inputs == b.inputs && a.outputs == b.outputs
  }

  /** Two graphs cut from one single-assignment program; parameters are not written by nodes. */
  ghost predicate Mergeable(g1: Graph, g2: Graph) {
    && D.Proper(g1) && D.Proper(g2) && Copies(g1.nodes + g2.nodes)
    && forall x :: MergedParam(g1, g2, x) ==> x !in Written(g1.nodes + g2.nodes)
  }

  /** `n` writes a name that the merged graph takes as an input, so the merge skips it. Its other outputs are lost. */
  ghost predicate Lost(nodes: seq<Node>, avail: set<string>, x: string) {
    x !in avail && exists n :: n in nodes && Available(n, avail) && x in n.outputs
  }

  lemma {:induction false} PassMembers(nodes: seq<Node>, avail: set<string>, n: Node)
    requires n in Pass(nodes, avail)
    ensures n in nodes && !Available(n, avail)
  {
    var front, last := nodes[..|nodes| - 1], nodes[|nodes| - 1];
    assert nodes == front + [last];
    if n in Pass(front, avail) { PassMembers(front, avail, n); }
  }

  lemma {:induction false} PassPrefix(nodes: seq<Node>, avail: set<string>, i: nat, j: nat)
    requires i <= j <= |nodes|
    ensures Pass(nodes[..i], avail) <= Pass(nodes[..j], avail)
  {
    if i < j {
      PassPrefix(nodes, avail, i, j - 1);
      assert nodes[..j][..j - 1] == nodes[..j - 1];
    }
  }

  /** What is kept stays kept when more nodes follow. */
  lemma KeptLater(nodes: seq<Node>, avail: set<string>, k: nat, i: nat, w: Node)
    requires k <= i <= |nodes| && w in Pass(nodes[..k], avail)
    ensures w in Pass(nodes[..i], avail)
  {
    hide Pass;
    PassPrefix(nodes, avail, k, i);
    var a, b := Pass(nodes[..k], avail), Pass(nodes[..i], avail);
    assert b[..|a|] == a;
  }

  /** A node that is not clipped is kept or has a kept copy, at the latest when it is reached. */
  lemma KeptCopy(nodes: seq<Node>, avail: set<string>, i: nat, x: string) returns (w: Node)
    requires Copies(nodes) && i < |nodes| && !Available(nodes[i], avail) && x in nodes[i].outputs
    ensures w in Pass(nodes[..i + 1], avail) && x in w.outputs && w.inputs == nodes[i].inputs
  {
    var n, front := nodes[i], Pass(nodes[..i], avail);
    assert nodes[..i + 1][..i] == nodes[..i];
    assert n in nodes;
    if Available(n, avail + Written(front)) {
      var o :| o in n.outputs && o in avail + Written(front);
      D.WrittenBy(front, o);
      w :| w in front && o in w.outputs;
      PassMembers(nodes[..i], avail, w);
      assert w in nodes;
    } else {
      w := n;
    }
  }

  lemma UnclippedWritten(nodes: seq<Node>, avail: set<string>, k: nat, i: nat, x: string)
    requires Copies(nodes) && k < i <= |nodes| && !Available(nodes[k], avail) && x in nodes[k].outputs
    ensures x in Written(Pass(nodes[..i], avail))
  {
    hide Pass, Available, Copies;
    var w := KeptCopy(nodes, avail, k, x);
    KeptLater(nodes, avail, k + 1, i, w);
    D.WrittenBy(Pass(nodes[..i], avail), x);
  }

  /** A lost name is written by no kept node. */
  lemma LostNotWritten(nodes: seq<Node>, avail: set<string>, x: string)
    requires Copies(nodes) && Lost(nodes, avail, x)
    ensures x !in Written(Pass(nodes, avail))
  {
    var n :| n in nodes && Available(n, avail) && x in n.outputs;
    D.WrittenBy(Pass(nodes, avail), x);
    forall w | w in Pass(nodes, avail) ensures x !in w.outputs { PassMembers(nodes, avail, w); }
  }

  // ---------- when the merged graph runs ----------

  ghost function Inputs(g1: Graph, g2: Graph): set<string> { Names(MergedNonParams(g1, g2) + MergedParams(g1, g2)) }

  ghost function Avail(g1: Graph, g2: Graph): set<string> { Names(MergedNonParams(g1, g2)) }

  lemma InputsAre(g1: Graph, g2: Graph)
    ensures forall x :: x in Inputs(g1, g2) <==> MergedNonParam(g1, g2, x) || MergedParam(g1, g2, x)
    ensures forall x :: x in Avail(g1, g2) <==> MergedNonParam(g1, g2, x)
  {
    MergedInputsAre(g1, g2);
  }

  /** A lost name is really gone: it is neither an input of the merged graph nor written in it. */
  lemma LostIsGone(g1: Graph, g2: Graph, x: string)
    requires Mergeable(g1, g2) && Lost(g1.nodes + g2.nodes, Avail(g1, g2), x)
    ensures x !in Inputs(g1, g2) && x !in Written(Pass(g1.nodes + g2.nodes, Avail(g1, g2)))
  {
    InputsAre(g1, g2);
    LostNotWritten(g1.nodes + g2.nodes, Avail(g1, g2), x);
    D.WrittenBy(g1.nodes + g2.nodes, x);
  }

  lemma WriterIndex(nodes: seq<Node>, x: string) returns (k: nat)
    requires x in Written(nodes)
    ensures k < |nodes| && x in nodes[k].outputs
  {
    WrittenHas(nodes, x);
    k :| 0 <= k < |nodes| && x in nodes[k].outputs;
  }

  lemma FirstOutput(g1: Graph, g2: Graph, x: string) returns (k: nat)
    requires Mergeable(g1, g2) && x in g1.outputs && x !in Inputs(g1, g2)
    ensures k < |g1.nodes| && x in (g1.nodes + g2.nodes)[k].outputs
  {
    InputsAre(g1, g2);
    assert x in Names(g1.inputs) + Written(g1.nodes);
    k := WriterIndex(g1.nodes, x);
  }

  lemma FirstReads(g1: Graph, g2: Graph, i: nat, x: string) returns (k: nat)
    requires Mergeable(g1, g2) && i < |g1.nodes| && x in g1.nodes[i].inputs && x !in Inputs(g1, g2)
    ensures k < i && x in g1.nodes[k].outputs
  {
    InputsAre(g1, g2);
    assert x in Names(g1.inputs) || x in Written(g1.nodes[..i]);
    k := WriterIndex(g1.nodes[..i], x);
  }

  lemma SecondReads(g1: Graph, g2: Graph, i: nat, x: string) returns (k: nat)
    requires Mergeable(g1, g2) && i < |g2.nodes| && x in g2.nodes[i].inputs && x !in Inputs(g1, g2)
    ensures k < |g1.nodes| + i && x in (g1.nodes + g2.nodes)[k].outputs
  {
    if x in g2.inputs {
      InputsAre(g1, g2);
      k := FirstOutput(g1, g2, x);
    } else {
      assert x in Names(g2.inputs) || x in Written(g2.nodes[..i]);
      k := WriterIndex(g2.nodes[..i], x);
      k := k + |g1.nodes|;
    }
  }

  /** What a node of either graph reads is an input of the merged graph or written by an earlier node of the two. */
  lemma ReadSource(g1: Graph, g2: Graph, i: nat, x: string) returns (k: nat)
    requires Mergeable(g1, g2)
    requires var all := g1.nodes + g2.nodes; i < |all| && x in all[i].inputs && x !in Inputs(g1, g2)
    ensures k < i && x in (g1.nodes + g2.nodes)[k].outputs
  {
    hide Mergeable, Inputs;
    if i < |g1.nodes| {
      k := FirstReads(g1, g2, i, x);
    } else {
      k := SecondReads(g1, g2, i - |g1.nodes|, x);
    }
  }

  ghost predicate NoLostRead(nodes: seq<Node>, avail: set<string>) {
    forall n, x :: n in nodes && !Available(n, avail) && x in n.inputs ==> !Lost(nodes, avail, x)
  }

  /** No node that is not skipped reads a lost name, and no lost name is exported. */
  ghost predicate NothingLost(g1: Graph, g2: Graph, required: set<string>) {
    var all, avail := g1.nodes + g2.nodes, Avail(g1, g2);
    && NoLostRead(all, avail)
    && forall o :: Exported(g1, g2, required, o) ==> !Lost(all, avail, o)
  }

  /** A written name that is not lost is an input or written by a kept node up to that point. */
  lemma WriterIsThere(nodes: seq<Node>, avail: set<string>, k: nat, i: nat, x: string)
    requires Copies(nodes) && k < i <= |nodes| && x in nodes[k].outputs && !Lost(nodes, avail, x)
    ensures x in avail || x in Written(Pass(nodes[..i], avail))
  {
    assert nodes[k] in nodes;
    if !Available(nodes[k], avail) { UnclippedWritten(nodes, avail, k, i, x); }
  }

  lemma ReadIsThere(g1: Graph, g2: Graph, i: nat, x: string)
    requires Mergeable(g1, g2)
    requires var all := g1.nodes + g2.nodes; i < |all| && x in all[i].inputs && !Lost(all, Avail(g1, g2), x)
    ensures x in Inputs(g1, g2) || x in Written(Pass((g1.nodes + g2.nodes)[..i], Avail(g1, g2)))
  {
    hide Lost, Pass;
    InputsAre(g1, g2);
    if x !in Inputs(g1, g2) {
      var k := ReadSource(g1, g2, i, x);
      WriterIsThere(g1.nodes + g2.nodes, Avail(g1, g2), k, i, x);
    }
  }

  lemma PassExtends(g1: Graph, g2: Graph, i: nat)
    requires Mergeable(g1, g2) && i < |g1.nodes + g2.nodes| && NoLostRead(g1.nodes + g2.nodes, Avail(g1, g2))
    requires Ordered(Pass((g1.nodes + g2.nodes)[..i], Avail(g1, g2)), Inputs(g1, g2))
    ensures Ordered(Pass((g1.nodes + g2.nodes)[..i + 1], Avail(g1, g2)), Inputs(g1, g2))
  {
    var all, avail := g1.nodes + g2.nodes, Avail(g1, g2);
    var n, front := all[i], Pass(all[..i], avail);
    assert all[..i + 1][..i] == all[..i];
    hide Mergeable, Avail, Inputs, Ordered, Lost;
    if !Available(n, avail + Written(front)) {
      assert n in all && !Available(n, avail);
      forall x | x in n.inputs ensures x in Inputs(g1, g2) || x in Written(front) { ReadIsThere(g1, g2, i, x); }
      D.OrderedSnoc(front, n, Inputs(g1, g2));
    }
  }

  lemma {:induction false} PassOrdered(g1: Graph, g2: Graph, i: nat)
    requires Mergeable(g1, g2) && i <= |g1.nodes + g2.nodes| && NoLostRead(g1.nodes + g2.nodes, Avail(g1, g2))
    ensures Ordered(Pass((g1.nodes + g2.nodes)[..i], Avail(g1, g2)), Inputs(g1, g2))
  {
    hide Mergeable, Avail, Inputs, NoLostRead;
    if i > 0 {
      PassOrdered(g1, g2, i - 1);
      PassExtends(g1, g2, i - 1);
    }
  }

  /** An output of either graph that is not an input of the merged graph is written by one of the nodes. */
  lemma OutputWriter(g1: Graph, g2: Graph, o: string) returns (k: nat)
    requires Mergeable(g1, g2) && (o in g1.outputs || o in g2.outputs) && o !in Inputs(g1, g2)
    ensures k < |g1.nodes + g2.nodes| && o in (g1.nodes + g2.nodes)[k].outputs
  {
    if o in g1.outputs {
      k := FirstOutput(g1, g2, o);
    } else {
      InputsAre(g1, g2);
      assert o in Names(g2.inputs) + Written(g2.nodes);
      k := WriterIndex(g2.nodes, o);
      k := k + |g1.nodes|;
    }
  }

  lemma OutputIsThere(name: string, g1: Graph, g2: Graph, required: set<string>, o: string)
    requires Mergeable(g1, g2) && o in Merged(name, g1, g2, required).outputs
    requires !Lost(g1.nodes + g2.nodes, Avail(g1, g2), o)
    ensures o in Inputs(g1, g2) + Written(Pass(g1.nodes + g2.nodes, Avail(g1, g2)))
  {
    var all := g1.nodes + g2.nodes;
    MergedOutputsAre(name, g1, g2, required, o);
    hide Lost, Pass;
    InputsAre(g1, g2);
    if o !in Inputs(g1, g2) {
      var k := OutputWriter(g1, g2, o);
      assert all[..|all|] == all;
      WriterIsThere(all, Avail(g1, g2), k, |all|, o);
    }
  }

  lemma ExportedNotLost(name: string, g1: Graph, g2: Graph, required: set<string>)
    ensures NothingLost(g1, g2, required) <==>
            NoLostRead(g1.nodes + g2.nodes, Avail(g1, g2))
            && forall o :: o in Merged(name, g1, g2, required).outputs ==> !Lost(g1.nodes + g2.nodes, Avail(g1, g2), o)
  {
    hide NoLostRead, Lost, Merged, Exported, Avail;
    forall o ensures o in Merged(name, g1, g2, required).outputs <==> Exported(g1, g2, required, o) {
      MergedOutputsAre(name, g1, g2, required, o);
    }
  }

  lemma MergedRuns(name: string, g1: Graph, g2: Graph, required: set<string>)
    requires Mergeable(g1, g2) && NothingLost(g1, g2, required)
    ensures Runs(Merged(name, g1, g2, required))
  {
    var all, g := g1.nodes + g2.nodes, Merged(name, g1, g2, required);
    ExportedNotLost(name, g1, g2, required);
    hide NothingLost, Mergeable;
    PassOrdered(g1, g2, |all|);
    assert all[..|all|] == all;
    hide NoLostRead, Lost, Ordered;
    forall o | o in g.outputs
      ensures o in Names(g.inputs) + Written(g.nodes)
    {
      OutputIsThere(name, g1, g2, required, o);
    }
  }

  lemma NoOutputKept(nodes: seq<Node>, avail: set<string>, i: nat)
    requires i < |nodes| && nodes[i].outputs == []
    ensures nodes[i] in Pass(nodes[..i + 1], avail)
  {
    assert nodes[..i + 1][..i] == nodes[..i];
  }

  /** A kept node, or a kept copy of it, reads the same names. */
  lemma KeptReader(nodes: seq<Node>, avail: set<string>, n: Node, x: string) returns (w: Node)
    requires Copies(nodes) && n in nodes && !Available(n, avail) && x in n.inputs
    ensures w in Pass(nodes, avail) && x in w.inputs
  {
    var i :| 0 <= i < |nodes| && nodes[i] == n;
    hide Pass, Available, Copies;
    if n.outputs == [] {
      NoOutputKept(nodes, avail, i);
      w := n;
    } else {
      w := KeptCopy(nodes, avail, i, n.outputs[0]);
    }
    KeptLater(nodes, avail, i + 1, |nodes|, w);
    assert nodes[..|nodes|] == nodes;
  }

  lemma MergedBreaks(name: string, g1: Graph, g2: Graph, required: set<string>)
    requires Mergeable(g1, g2) && !NothingLost(g1, g2, required)
    ensures !Runs(Merged(name, g1, g2, required))
  {
    var all, avail, g := g1.nodes + g2.nodes, Avail(g1, g2), Merged(name, g1, g2, required);
    ExportedNotLost(name, g1, g2, required);
    hide NothingLost;
    if o :| o in g.outputs && Lost(all, avail, o) {
      LostIsGone(g1, g2, o);
    } else {
      var n, x :| n in all && !Available(n, avail) && x in n.inputs && Lost(all, avail, x);
      LostIsGone(g1, g2, x);
      var w := KeptReader(all, avail, n, x);
      var k :| 0 <= k < |g.nodes| && g.nodes[k] == w;
      assert x in g.nodes[k].inputs;
      if x in Written(g.nodes[..k]) { D.WrittenPrefix(g.nodes, k, x); }
    }
  }

  /** The merged graph passes `verifyNodeInputs` and defines its outputs if and only if dropping nodes with an available
      output loses nothing that a remaining node reads or the merged graph exports. */
  lemma MergeRunsIff(name: string, g1: Graph, g2: Graph, required: set<string>)
    requires Mergeable(g1, g2)
    ensures Runs(Merged(name, g1, g2, required)) <==> NothingLost(g1, g2, required)
  {
    if NothingLost(g1, g2, required) {
      MergedRuns(name, g1, g2, required);
    } else {
      MergedBreaks(name, g1, g2, required);
    }
  }

  /** In particular it does when nodes are all-or-nothing: a node with one output available has all of them
      available. */
  lemma AllOrNothingRuns(name: string, g1: Graph, g2: Graph, required: set<string>)
    requires Mergeable(g1, g2)
    requires forall n, x :: n in g1.nodes + g2.nodes && Available(n, Avail(g1, g2)) && x in n.outputs ==>
               x in Avail(g1, g2)
    ensures Runs(Merged(name, g1, g2, required))
  {
    MergeRunsIff(name, g1, g2, required);
  }

  // ---------- the merged graph computes the same values ----------

  ghost predicate Gives<V>(env: Env<V>, inputs: set<string>, val: Env<V>) { env.Keys == inputs && Within(env, val) }

  /** What the second graph reads: outputs of the first where it has them, the environment otherwise. */
  function Fed<V>(g1: Graph, g2: Graph, r1: Env<V>, env: Env<V>): Env<V> {
    map x | x in g2.inputs && (if x in g1.outputs then x in r1 else x in env) ::
      if x in g1.outputs then r1[x] else env[x]
  }

  /** The first graph on its inputs, then the second on its inputs and the first one's outputs. */
  function FirstThen<V>(f: Operators<V>, g1: Graph, g2: Graph, env: Env<V>): Env<V> {
    var r1 := Eval(f, g1.nodes, D.Restrict(env, g1.inputs));
    var r2 := Eval(f, g2.nodes, Fed(g1, g2, r1, env));
    (map x | x in r1 && x in g1.outputs :: r1[x]) + (map x | x in r2 && x in g2.outputs :: r2[x])
  }

  lemma SolvesParts<V>(f: Operators<V>, a: seq<Node>, b: seq<Node>, val: Env<V>)
    requires Solves(f, val, a) && Solves(f, val, b)
    ensures Solves(f, val, a + b)
  {
  }

  lemma PassSolved<V>(f: Operators<V>, nodes: seq<Node>, avail: set<string>, val: Env<V>)
    requires Solves(f, val, nodes)
    ensures Solves(f, val, Pass(nodes, avail))
  {
    forall n | n in Pass(nodes, avail) ensures SolvesNode(f, val, n) { PassMembers(nodes, avail, n); }
  }

  lemma MergedWithin<V>(f: Operators<V>, name: string, g1: Graph, g2: Graph, required: set<string>, env: Env<V>,
                        val: Env<V>)
    requires Mergeable(g1, g2) && NothingLost(g1, g2, required)
    requires Gives(env, Inputs(g1, g2), val) && Solves(f, val, g1.nodes) && Solves(f, val, g2.nodes)
    ensures var g := Merged(name, g1, g2, required);
            Within(Eval(f, g.nodes, env), val) && forall o :: o in g.outputs ==> o in Eval(f, g.nodes, env)
  {
    var g := Merged(name, g1, g2, required);
    MergedRuns(name, g1, g2, required);
    SolvesParts(f, g1.nodes, g2.nodes, val);
    PassSolved(f, g1.nodes + g2.nodes, Avail(g1, g2), val);
    EvalWithin(f, g.nodes, env, val);
  }

  /** A graph run on its inputs stays within a valuation of its nodes and defines its outputs. */
  lemma GraphWithin<V>(f: Operators<V>, g: Graph, env: Env<V>, val: Env<V>)
    requires Runs(g) && Gives(env, Names(g.inputs), val) && Solves(f, val, g.nodes)
    ensures Within(Eval(f, g.nodes, env), val) && forall o :: o in g.outputs ==> o in Eval(f, g.nodes, env)
  {
    EvalWithin(f, g.nodes, env, val);
  }

  lemma FedGives<V>(g1: Graph, g2: Graph, r1: Env<V>, env: Env<V>, val: Env<V>)
    requires Gives(env, Inputs(g1, g2), val) && Within(r1, val) && forall o :: o in g1.outputs ==> o in r1
    ensures Gives(Fed(g1, g2, r1, env), Names(g2.inputs), val)
  {
    InputsAre(g1, g2);
    assert Fed(g1, g2, r1, env).Keys == Names(g2.inputs);
  }

  lemma FirstWithin<V>(f: Operators<V>, g1: Graph, g2: Graph, env: Env<V>, val: Env<V>)
    requires Mergeable(g1, g2) && Gives(env, Inputs(g1, g2), val) && Solves(f, val, g1.nodes)
    ensures var r1 := Eval(f, g1.nodes, D.Restrict(env, g1.inputs));
            Within(r1, val) && forall o :: o in g1.outputs ==> o in r1
  {
    var env1 := D.Restrict(env, g1.inputs);
    assert env1.Keys == Names(g1.inputs) by { InputsAre(g1, g2); }
    GraphWithin(f, g1, env1, val);
  }

  lemma SecondWithin<V>(f: Operators<V>, g1: Graph, g2: Graph, r1: Env<V>, env: Env<V>, val: Env<V>)
    requires Mergeable(g1, g2) && Gives(env, Inputs(g1, g2), val) && Solves(f, val, g2.nodes)
    requires Within(r1, val) && forall o :: o in g1.outputs ==> o in r1
    ensures var r2 := Eval(f, g2.nodes, Fed(g1, g2, r1, env));
            Within(r2, val) && forall o :: o in g2.outputs ==> o in r2
  {
    FedGives(g1, g2, r1, env, val);
    GraphWithin(f, g2, Fed(g1, g2, r1, env), val);
  }

  lemma FirstThenWithin<V>(f: Operators<V>, g1: Graph, g2: Graph, env: Env<V>, val: Env<V>)
    requires Mergeable(g1, g2) && Gives(env, Inputs(g1, g2), val) && Solves(f, val, g1.nodes) &&
             Solves(f, val, g2.nodes)
    ensures Within(FirstThen(f, g1, g2, env), val)
    ensures forall o :: o in g1.outputs || o in g2.outputs ==> o in FirstThen(f, g1, g2, env)
  {
    FirstWithin(f, g1, g2, env, val);
    SecondWithin(f, g1, g2, Eval(f, g1.nodes, D.Restrict(env, g1.inputs)), env, val);
    hide Eval, Fed, Mergeable, Gives, Solves, D.Restrict;
  }

  /** The merged graph computes, for each of its outputs, what the first graph followed by the second computes.
      `val` is the valuation of the program that both are cut from. */
  lemma MergePreserves<V>(f: Operators<V>, name: string, g1: Graph, g2: Graph, required: set<string>, env: Env<V>,
                          val: Env<V>)
    requires Mergeable(g1, g2) && NothingLost(g1, g2, required)
    requires Gives(env, Inputs(g1, g2), val) && Solves(f, val, g1.nodes) && Solves(f, val, g2.nodes)
    ensures var g := Merged(name, g1, g2, required);
            forall o :: o in g.outputs ==>
              o in Eval(f, g.nodes, env) && o in FirstThen(f, g1, g2, env) &&
              Eval(f, g.nodes, env)[o] == FirstThen(f, g1, g2, env)[o]
  {
    MergedWithin(f, name, g1, g2, required, env, val);
    FirstThenWithin(f, g1, g2, env, val);
    var g := Merged(name, g1, g2, required);
    hide Eval, FirstThen, Mergeable, NothingLost, Solves;
    forall o | o in g.outputs
      ensures o in Eval(f, g.nodes, env) && o in FirstThen(f, g1, g2, env) &&
              Eval(f, g.nodes, env)[o] == FirstThen(f, g1, g2, env)[o]
    {
      MergedOutputsAre(name, g1, g2, required, o);
    }
  }

  // ---------- merging followed by dead node removal ----------

  ghost predicate DistinctOutputs(nodes: seq<Node>) {
    forall i, a, b :: 0 <= i < |nodes| && 0 <= a < b < |nodes[i].outputs| ==> nodes[i].outputs[a] != nodes[i].outputs[b]
  }

  lemma SingleSnoc(front: seq<Node>, n: Node, inputs: set<string>)
    requires SingleAssignment(front, inputs) && DistinctOutputs([n])
    requires forall x :: x in n.outputs ==> x !in inputs && x !in Written(front)
    ensures SingleAssignment(front + [n], inputs)
  {
    assert [n][0] == n;
    forall i, x | 0 <= i < |front| && x in front[i].outputs ensures x !in n.outputs { WrittenHas(front, x); }
  }

  lemma {:induction false} PassSingle(nodes: seq<Node>, avail: set<string>, inputs: set<string>)
    requires DistinctOutputs(nodes) && forall x :: x in Written(nodes) ==> (x in inputs ==> x in avail)
    ensures SingleAssignment(Pass(nodes, avail), inputs)
  {
    if nodes != [] {
      var front, n := nodes[..|nodes| - 1], nodes[|nodes| - 1];
      PassSingle(front, avail, inputs);
      if !Available(n, avail + Written(Pass(front, avail))) {
        assert DistinctOutputs([n]) by { assert nodes[|nodes| - 1] == n; }
        assert forall x :: x in n.outputs ==> x in Written(nodes);
        SingleSnoc(Pass(front, avail), n, inputs);
      }
    }
  }

  /** The merged graph is again a proper single-assignment graph. */
  lemma MergedProper(name: string, g1: Graph, g2: Graph, required: set<string>)
    requires Mergeable(g1, g2) && NothingLost(g1, g2, required)
    ensures D.Proper(Merged(name, g1, g2, required))
  {
    var all := g1.nodes + g2.nodes;
    MergedRuns(name, g1, g2, required);
    InputsAre(g1, g2);
    assert DistinctOutputs(all) by {
      forall i, a, b | 0 <= i < |all| && 0 <= a < b < |all[i].outputs| ensures all[i].outputs[a] != all[i].outputs[b] {
        if i < |g1.nodes| { assert all[i] == g1.nodes[i]; } else { assert all[i] == g2.nodes[i - |g1.nodes|]; }
      }
    }
    PassSingle(all, Avail(g1, g2), Inputs(g1, g2));
  }

  /** What `merge` on nodes of the coarsened graph builds: merge, then remove unused nodes. When neither step loses
      anything, its outputs have the values that the two graphs compute one after the other. */
  lemma MergeAndRemovePreserves<V>(f: Operators<V>, name: string, g1: Graph, g2: Graph, required: set<string>,
                                   env: Env<V>, val: Env<V>)
    requires Mergeable(g1, g2) && NothingLost(g1, g2, required) && D.AllOrNothing(Merged(name, g1, g2, required))
    requires Gives(env, Inputs(g1, g2), val) && Solves(f, val, g1.nodes) && Solves(f, val, g2.nodes)
    ensures var r := D.Removed(Merged(name, g1, g2, required));
            && Runs(r) && r.outputs == Merged(name, g1, g2, required).outputs
            && forall i :: 0 <= i < |r.outputs| ==>
                 Look(Eval(f, r.nodes, D.Restrict(env, r.inputs)), r.outputs[i]) ==
                   Look(FirstThen(f, g1, g2, env), r.outputs[i])
  {
    var g := Merged(name, g1, g2, required);
    var r := D.Removed(g);
    MergedProper(name, g1, g2, required);
    D.RemovedRuns(g);
    D.RemovalPreserves(f, g, env);
    MergePreserves(f, name, g1, g2, required, env, val);
    hide Eval, FirstThen, Merged, D.Removed, Mergeable, NothingLost, D.AllOrNothing;
    forall i | 0 <= i < |r.outputs|
      ensures Look(Eval(f, r.nodes, D.Restrict(env, r.inputs)), r.outputs[i]) ==
                Look(FirstThen(f, g1, g2, env), r.outputs[i])
    {
      var small := Eval(f, r.nodes, D.Restrict(env, r.inputs));
      assert LookAll(small, g.outputs)[i] == LookAll(Eval(f, g.nodes, env), g.outputs)[i];
    }
  }

  /** A first graph whose node writes `a` and `b` and that outputs only `b`, and a second graph that reads both. */
  function SplitGraph(): Graph { Graph("first", [Node("n", "split", ["x"], ["a", "b"])], map[], ["x"], ["b"]) }

  function JoinGraph(): Graph { Graph("second", [Node("m", "join", ["a", "b"], ["c"])], map[], ["a", "b"], ["c"]) }

  lemma OneNodeProper(g: Graph, n: Node)
    requires g.nodes == [n]
    requires forall x :: x in n.inputs ==> x in g.inputs
    requires forall x :: x in n.outputs ==> x !in g.inputs
    requires forall a, b :: 0 <= a < b < |n.outputs| ==> n.outputs[a] != n.outputs[b]
    requires forall o :: o in g.outputs ==> o in n.outputs
    ensures D.Proper(g) && Written(g.nodes) == Names(n.outputs)
  {
    assert g.nodes[..0] == [];
    assert Written(g.nodes) == Names(n.outputs);
  }

  lemma SplitAndJoinMergeable()
    ensures Mergeable(SplitGraph(), JoinGraph())
  {
    var g1, g2 := SplitGraph(), JoinGraph();
    OneNodeProper(g1, g1.nodes[0]);
    OneNodeProper(g2, g2.nodes[0]);
    hide D.Proper, Written;
  }

  /** The second graph does not take `a` from the first, so the merged graph has it as an input, and the merge skips
      the node that writes it. With that node `b` is lost, which the second graph reads: the merged graph does not
      run. */
  lemma ClippedNodeLoses()
    ensures Mergeable(SplitGraph(), JoinGraph())
    ensures Runs(SplitGraph()) && Runs(JoinGraph())
    ensures !Runs(Merged("merged", SplitGraph(), JoinGraph(), {}))
  {
    var g1, g2 := SplitGraph(), JoinGraph();
    var n, m := g1.nodes[0], g2.nodes[0];
    SplitAndJoinMergeable();
    InputsAre(g1, g2);
    assert MergedNonParam(g1, g2, "a") && !MergedNonParam(g1, g2, "b") && !MergedNonParam(g1, g2, "c");
    assert "a" in n.outputs && "b" in n.outputs && "b" in m.inputs;
    assert Available(n, Avail(g1, g2)) && !Available(m, Avail(g1, g2));
    assert n in g1.nodes + g2.nodes && m in g1.nodes + g2.nodes;
    assert Lost(g1.nodes + g2.nodes, Avail(g1, g2), "b");
    MergeRunsIff("merged", g1, g2, {});
  }
}
