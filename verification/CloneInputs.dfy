/**
 Cloning of graph inputs that several nodes read (`cloneSharedInputs` in src/graph/ir.cpp).

 The number of clones is the number of nodes that read the input, but clones are handed out per
 occurrence.  The transformation succeeds exactly when no node lists a shared input twice.
 */
module CloneInputs {
  import opened IR
  import opened Options

  // ---------- counting ----------

  function Occurrences(xs: seq<string>, x: string): nat {
    if xs == [] then 0 else Occurrences(xs[..|xs| - 1], x) + (if xs[|xs| - 1] == x then 1 else 0)
  }

  function OccurrencesIn(nodes: seq<Node>, x: string): nat {
    if nodes == [] then 0 else OccurrencesIn(nodes[..|nodes| - 1], x) + Occurrences(nodes[|nodes| - 1].inputs, x)
  }

  /** `countValueRefCount`: how many nodes read `x`. */
  function RefCount(nodes: seq<Node>, x: string): nat {
    if nodes == [] then 0 else RefCount(nodes[..|nodes| - 1], x) + (if x in nodes[|nodes| - 1].inputs then 1 else 0)
  }

  predicate Shared(g: Graph, x: string) { x in g.inputs && RefCount(g.nodes, x) > 1 }

  lemma {:induction false} OccurrencesZero(xs: seq<string>, x: string)
    ensures Occurrences(xs, x) > 0 <==> x in xs
  {
    if xs != [] {
      assert xs == xs[..|xs| - 1] + [xs[|xs| - 1]];
      OccurrencesZero(xs[..|xs| - 1], x);
    }
  }

  lemma {:induction false} OccurrencesPrefix(xs: seq<string>, x: string, i: nat, j: nat)
    requires i <= j <= |xs|
    ensures Occurrences(xs[..i], x) <= Occurrences(xs[..j], x)
  {
    if i < j {
      assert xs[..j][..j - 1] == xs[..j - 1];
      OccurrencesPrefix(xs, x, i, j - 1);
    }
  }

  lemma {:induction false} OccurrencesInPrefix(nodes: seq<Node>, x: string, i: nat, j: nat)
    requires i <= j <= |nodes|
    ensures OccurrencesIn(nodes[..i], x) <= OccurrencesIn(nodes[..j], x)
  {
    if i < j {
      assert nodes[..j][..j - 1] == nodes[..j - 1];
      OccurrencesInPrefix(nodes, x, i, j - 1);
    }
  }

  ghost predicate ListsOnce(nodes: seq<Node>, x: string) {
    forall i :: 0 <= i < |nodes| ==> Occurrences(nodes[i].inputs, x) <= 1
  }

  /** There are at least as many occurrences as readers, and as many exactly when every reader lists `x` once. */
  lemma {:induction false} RefCountVsOccurrences(nodes: seq<Node>, x: string)
    ensures RefCount(nodes, x) <= OccurrencesIn(nodes, x)
    ensures RefCount(nodes, x) == OccurrencesIn(nodes, x) <==> ListsOnce(nodes, x)
  {
    if nodes != [] {
      var front, n := nodes[..|nodes| - 1], nodes[|nodes| - 1];
      RefCountVsOccurrences(front, x);
      OccurrencesZero(n.inputs, x);
      assert ListsOnce(nodes, x) <==> ListsOnce(front, x) && Occurrences(n.inputs, x) <= 1 by {
        assert nodes == front + [n];
        if ListsOnce(front, x) && Occurrences(n.inputs, x) <= 1 {
          forall i | 0 <= i < |nodes| ensures Occurrences(nodes[i].inputs, x) <= 1 {
            assert i < |front| ==> nodes[i] == front[i];
          }
        }
        if ListsOnce(nodes, x) {
          forall i | 0 <= i < |front| ensures Occurrences(front[i].inputs, x) <= 1 { assert front[i] == nodes[i]; }
        }
      }
    }
  }

  // ---------- clone names ----------

  function Digit(d: nat): char
    requires d < 10
  {
    "0123456789"[d]
  }

  function Decimal(n: nat): string {
    if n < 10 then [Digit(n)] else Decimal(n / 10) + [Digit(n % 10)]
  }

  function CloneName(x: string, i: nat): string { x + "_cl" + Decimal(i) }

  lemma {:induction false} DecimalIsDigits(n: nat)
    ensures |Decimal(n)| > 0 && forall k :: 0 <= k < |Decimal(n)| ==> '0' <= Decimal(n)[k] <= '9'
  {
    if n >= 10 { DecimalIsDigits(n / 10); }
  }

  lemma {:induction false} DecimalInjective(m: nat, n: nat)
    requires Decimal(m) == Decimal(n)
    ensures m == n
  {
    if m < 10 && n < 10 {
      assert Decimal(m)[0] == Decimal(n)[0];
    } else {
      if m >= 10 { DecimalIsDigits(m / 10); }
      if n >= 10 { DecimalIsDigits(n / 10); }
      var s := Decimal(m);
      assert s[|s| - 1] == Digit(m % 10) == Digit(n % 10);
      assert s[..|s| - 1] == Decimal(m / 10) == Decimal(n / 10);
      DecimalInjective(m / 10, n / 10);
    }
  }

  /** Different inputs or different numbers give different clone names. */
  lemma CloneNameInjective(x: string, i: nat, y: string, j: nat)
    requires CloneName(x, i) == CloneName(y, j)
    ensures x == y && i == j
  {
    var s, a, b := CloneName(x, i), Decimal(i), Decimal(j);
    DecimalIsDigits(i);
    DecimalIsDigits(j);
    assert s[|s| - |a| - 1] == 'l' && s[|s| - |b| - 1] == 'l';
    assert forall k :: |s| - |a| <= k < |s| ==> s[k] == a[k - (|s| - |a|)];
    assert forall k :: |s| - |b| <= k < |s| ==> s[k] == b[k - (|s| - |b|)];
    assert |a| == |b|;
    assert a == s[|s| - |a|..] == b;
    DecimalInjective(i, j);
    assert x == s[..|x|] && y == s[..|y|];
  }

  // ---------- the transformation ----------

  /** The name under which node `k` reads its `j`-th input afterwards. */
  function Renamed(g: Graph, k: nat, j: nat): string
    requires k < |g.nodes| && j < |g.nodes[k].inputs|
  {
    var x := g.nodes[k].inputs[j];
    if Shared(g, x) then CloneName(x, OccurrencesIn(g.nodes[..k], x) + Occurrences(g.nodes[k].inputs[..j], x)) else x
  }

  function ClonedNode(g: Graph, k: nat): Node
    requires k < |g.nodes|
  {
    var n := g.nodes[k];
    Node(n.id, n.op, seq(|n.inputs|, j requires 0 <= j < |n.inputs| => Renamed(g, k, j)), n.outputs)
  }

  function Clones(x: string, n: nat): seq<string> { seq(n, i requires 0 <= i < n => CloneName(x, i)) }

  function ClonedInputs(g: Graph, xs: seq<string>): seq<string> {
    if xs == [] then []
    else ClonedInputs(g, xs[..|xs| - 1]) +
         var x := xs[|xs| - 1]; if Shared(g, x) then Clones(x, RefCount(g.nodes, x)) else [x]
  }

  function ClonedOutput(g: Graph, o: string): string { if Shared(g, o) then CloneName(o, 0) else o }

  /** Nodes, inputs and outputs of the graph that `cloneSharedInputs` returns. */
  datatype Cloned = Cloned(nodes: seq<Node>, inputs: seq<string>, outputs: seq<string>)

  function ClonedGraph(g: Graph): Cloned {
    Cloned(seq(|g.nodes|, k requires 0 <= k < |g.nodes| => ClonedNode(g, k)),
           ClonedInputs(g, g.inputs),
           seq(|g.outputs|, k requires 0 <= k < |g.outputs| => ClonedOutput(g, g.outputs[k])))
  }

  /** No node lists a shared input twice. */
  ghost predicate NoDoubleUse(g: Graph) {
    forall x :: Shared(g, x) ==> ListsOnce(g.nodes, x)
  }

  // ---------- the loops ----------

  method CountRefs(nodes: seq<Node>, x: string) returns (count: nat)
    ensures count == RefCount(nodes, x)
  {
    count := 0;
    for i := 0 to |nodes|
      invariant count == RefCount(nodes[..i], x)
    {
      assert nodes[..i + 1][..i] == nodes[..i];
      if x in nodes[i].inputs { count := count + 1; }
    }
    assert nodes[..|nodes|] == nodes;
  }

  method MakeClones(x: string, n: nat) returns (names: seq<string>)
    ensures names == Clones(x, n)
  {
    names := [];
    for i := 0 to n
      invariant names == Clones(x, i)
    {
      names := names + [CloneName(x, i)];
    }
  }

  /** The shared inputs with their clone names, and the new input list. */
  method CloneInputList(g: Graph) returns (clones: map<string, seq<string>>, inputs: seq<string>)
    ensures inputs == ClonedInputs(g, g.inputs)
    ensures forall x :: x in clones <==> Shared(g, x)
    ensures forall x :: x in clones ==> clones[x] == Clones(x, RefCount(g.nodes, x))
  {
    clones, inputs := map[], [];
    for i := 0 to |g.inputs|
      invariant inputs == ClonedInputs(g, g.inputs[..i])
      invariant forall x :: x in clones <==> x in g.inputs[..i] && RefCount(g.nodes, x) > 1
      invariant forall x :: x in clones ==> clones[x] == Clones(x, RefCount(g.nodes, x))
    {
      var x := g.inputs[i];
      assert g.inputs[..i + 1][..i] == g.inputs[..i];
      assert g.inputs[..i + 1] == g.inputs[..i] + [x];
      var count := CountRefs(g.nodes, x);
      if count > 1 {
        var names := MakeClones(x, count);
        clones := clones[x := names];
        inputs := inputs + names;
      } else {
        inputs := inputs + [x];
      }
    }
    assert g.inputs[..|g.inputs|] == g.inputs;
  }

  function Used(used: map<string, nat>, x: string): nat { if x in used then used[x] else 0 }

  /** How often `x` was handed out before input `j` of node `k`. */
  function Before(g: Graph, k: nat, j: nat, x: string): nat
    requires k < |g.nodes| && j <= |g.nodes[k].inputs|
  {
    OccurrencesIn(g.nodes[..k], x) + Occurrences(g.nodes[k].inputs[..j], x)
  }

  ghost predicate ClonesRight(g: Graph, clones: map<string, seq<string>>) {
    && (forall x :: x in clones <==> Shared(g, x))
    && (forall x :: x in clones ==> clones[x] == Clones(x, RefCount(g.nodes, x)))
  }

  ghost predicate UsedRight(g: Graph, used: map<string, nat>, k: nat, j: nat)
    requires k < |g.nodes| && j <= |g.nodes[k].inputs|
  {
    forall x :: Shared(g, x) ==> Used(used, x) == Before(g, k, j, x)
  }

  /** So far no more clones were handed out than exist. */
  ghost predicate Enough(g: Graph, k: nat, j: nat)
    requires k < |g.nodes| && j <= |g.nodes[k].inputs|
  {
    forall x :: Shared(g, x) && x in g.nodes[k].inputs[..j] ==> Before(g, k, j, x) <= RefCount(g.nodes, x)
  }

  /** One input of one node; `None` when the clone index overruns. */
  method CloneInput(g: Graph, k: nat, j: nat, clones: map<string, seq<string>>, used: map<string, nat>)
    returns (name: Option<string>, used': map<string, nat>)
    requires k < |g.nodes| && j < |g.nodes[k].inputs| && ClonesRight(g, clones)
    requires UsedRight(g, used, k, j) && Enough(g, k, j)
    ensures name.Some? ==> name.value == Renamed(g, k, j) && UsedRight(g, used', k, j + 1) && Enough(g, k, j + 1)
    ensures name.None? ==>
              Shared(g, g.nodes[k].inputs[j]) &&
              Before(g, k, j + 1, g.nodes[k].inputs[j]) > RefCount(g.nodes, g.nodes[k].inputs[j])
  {
    var x := g.nodes[k].inputs[j];
    assert g.nodes[k].inputs[..j + 1] == g.nodes[k].inputs[..j] + [x];
    forall y
      ensures Before(g, k, j + 1, y) == Before(g, k, j, y) + (if x == y then 1 else 0)
    {
      BeforeNext(g, k, j, y);
    }
    used' := used;
    if x in clones {
      if Used(used, x) >= |clones[x]| { return None, used; }
      name := Some(clones[x][Used(used, x)]);
      hide Before, CloneName;
      used' := used[x := Used(used, x) + 1];
    } else {
      hide Before, CloneName;
      name := Some(x);
    }
  }

  /** Rewrite the inputs of node `k`. */
  method CloneNode(g: Graph, k: nat, clones: map<string, seq<string>>, used: map<string, nat>)
    returns (node: Option<Node>, used': map<string, nat>)
    requires k < |g.nodes| && ClonesRight(g, clones) && UsedRight(g, used, k, 0)
    ensures node.Some? ==> node.value == ClonedNode(g, k)
    ensures node.Some? ==> UsedRight(g, used', k, |g.nodes[k].inputs|) && Enough(g, k, |g.nodes[k].inputs|)
    ensures node.None? ==> exists x :: Shared(g, x) && OccurrencesIn(g.nodes, x) > RefCount(g.nodes, x)
  {
    var n := g.nodes[k];
    var names: seq<string> := [];
    used' := used;
    for j := 0 to |n.inputs|
      invariant names == seq(j, i requires 0 <= i < j => Renamed(g, k, i))
      invariant UsedRight(g, used', k, j) && Enough(g, k, j)
    {
      hide ClonesRight, UsedRight, Enough, Renamed, Before;
      var name;
      name, used' := CloneInput(g, k, j, clones, used');
      if name.None? {
        BeforeBound(g, k, j + 1, n.inputs[j]);
        return None, used';
      }
      names := names + [name.value];
    }
    node := Some(Node(n.id, n.op, names, n.outputs));
  }

  lemma BeforeNext(g: Graph, k: nat, j: nat, x: string)
    requires k < |g.nodes| && j < |g.nodes[k].inputs|
    ensures Before(g, k, j + 1, x) == Before(g, k, j, x) + (if g.nodes[k].inputs[j] == x then 1 else 0)
  {
    assert g.nodes[k].inputs[..j + 1][..j] == g.nodes[k].inputs[..j];
  }

  lemma NodeDone(g: Graph, k: nat)
    requires k < |g.nodes|
    ensures forall x :: Before(g, k, |g.nodes[k].inputs|, x) == OccurrencesIn(g.nodes[..k + 1], x)
  {
    assert g.nodes[..k + 1][..k] == g.nodes[..k];
    assert g.nodes[k].inputs[..|g.nodes[k].inputs|] == g.nodes[k].inputs;
  }

  lemma BeforeBound(g: Graph, k: nat, j: nat, x: string)
    requires k < |g.nodes| && j <= |g.nodes[k].inputs|
    ensures Before(g, k, j, x) <= OccurrencesIn(g.nodes, x)
  {
    NodeDone(g, k);
    OccurrencesPrefix(g.nodes[k].inputs, x, j, |g.nodes[k].inputs|);
    assert g.nodes[k].inputs[..|g.nodes[k].inputs|] == g.nodes[k].inputs;
    OccurrencesInPrefix(g.nodes, x, k + 1, |g.nodes|);
    assert g.nodes[..|g.nodes|] == g.nodes;
    assert Before(g, k, j, x) <= Before(g, k, |g.nodes[k].inputs|, x);
  }

  ghost predicate UsedAfter(g: Graph, used: map<string, nat>, k: nat)
    requires k <= |g.nodes|
  {
    forall x :: Shared(g, x) ==> Used(used, x) == OccurrencesIn(g.nodes[..k], x)
  }

  /** No shared input was handed out more often than it has clones. */
  ghost predicate EnoughAfter(g: Graph, k: nat)
    requires k <= |g.nodes|
  {
    forall x :: Shared(g, x) ==> OccurrencesIn(g.nodes[..k], x) <= RefCount(g.nodes, x)
  }

  lemma NodeKeepsEnough(g: Graph, k: nat, used: map<string, nat>)
    requires k < |g.nodes| && EnoughAfter(g, k)
    requires UsedRight(g, used, k, |g.nodes[k].inputs|) && Enough(g, k, |g.nodes[k].inputs|)
    ensures UsedAfter(g, used, k + 1) && EnoughAfter(g, k + 1)
  {
    NodeDone(g, k);
    assert g.nodes[k].inputs[..|g.nodes[k].inputs|] == g.nodes[k].inputs;
    forall x | Shared(g, x) ensures OccurrencesIn(g.nodes[..k + 1], x) <= RefCount(g.nodes, x) {
      if x !in g.nodes[k].inputs {
        OccurrencesZero(g.nodes[k].inputs, x);
        assert g.nodes[..k + 1][..k] == g.nodes[..k];
      }
    }
  }

  /** The clone index stays in range for all inputs if and only if no node lists a shared input twice. */
  lemma EnoughIff(g: Graph)
    ensures EnoughAfter(g, |g.nodes|) <==> NoDoubleUse(g)
  {
    assert g.nodes[..|g.nodes|] == g.nodes;
    forall x | Shared(g, x) ensures OccurrencesIn(g.nodes, x) <= RefCount(g.nodes, x) <==> ListsOnce(g.nodes, x) {
      RefCountVsOccurrences(g.nodes, x);
    }
  }

  method CloneOutputs(g: Graph, clones: map<string, seq<string>>) returns (outputs: seq<string>)
    requires ClonesRight(g, clones)
    ensures outputs == ClonedGraph(g).outputs
  {
    outputs := [];
    for i := 0 to |g.outputs|
      invariant outputs == seq(i, k requires 0 <= k < i => ClonedOutput(g, g.outputs[k]))
    {
      var o := g.outputs[i];
      outputs := outputs + [if o in clones then clones[o][0] else o];
    }
  }

  // ---------- the value table ----------

  /** `info` is how one of the values `seen` describes `c`: itself, or the original that it is a clone of. */
  ghost predicate Describes(g: Graph, seen: set<string>, c: string, info: ValueInfo) {
    || (c in seen && c in g.values && !Shared(g, c) && info == g.values[c])
    || exists x, i :: x in seen && x in g.values && IsClone(g, c, x, i) && info == g.values[x]
  }

  /** The table lists exactly what is described. Where a clone has the name of another value, it is either
      description. */
  ghost predicate TableOf(g: Graph, seen: set<string>, values: map<string, ValueInfo>) {
    && (forall c :: c in values ==> Describes(g, seen, c, values[c]))
    && forall c, info :: Describes(g, seen, c, info) ==> c in values
  }

  /** Entries for the clones of one value. */
  method AddClones(values: map<string, ValueInfo>, names: seq<string>, info: ValueInfo)
    returns (table: map<string, ValueInfo>)
    ensures forall c :: c in table <==> c in values || c in names
    ensures forall c :: c in table ==> table[c] == if c in names then info else values[c]
  {
    table := values;
    for i := 0 to |names|
      invariant forall c :: c in table <==> c in values || c in names[..i]
      invariant forall c :: c in table ==> table[c] == if c in names[..i] then info else values[c]
    {
      assert names[..i + 1] == names[..i] + [names[i]];
      table := table[names[i] := info];
    }
    assert names[..|names|] == names;
  }

  lemma DescribesMore(g: Graph, seen: set<string>, x: string, c: string, info: ValueInfo)
    requires x in g.values
    ensures Describes(g, seen + {x}, c, info) <==>
            Describes(g, seen, c, info)
            || (info == g.values[x] && if Shared(g, x) then c in Clones(x, RefCount(g.nodes, x)) else c == x)
  {
    if Shared(g, x) {
      ClonesMembers(g, x, c);
      if i :| IsClone(g, c, x, i) && info == g.values[x] { assert Describes(g, seen + {x}, c, info); }
    }
  }

  lemma TableMore(g: Graph, seen: set<string>, values: map<string, ValueInfo>, x: string, names: seq<string>,
                  table: map<string, ValueInfo>)
    requires TableOf(g, seen, values) && x in g.values
    requires names == if Shared(g, x) then Clones(x, RefCount(g.nodes, x)) else [x]
    requires forall c :: c in table <==> c in values || c in names
    requires forall c :: c in table ==> table[c] == if c in names then g.values[x] else values[c]
    ensures TableOf(g, seen + {x}, table)
  {
    hide Describes, Clones, Shared;
    forall c | c in table ensures Describes(g, seen + {x}, c, table[c]) { DescribesMore(g, seen, x, c, table[c]); }
    forall c, info | Describes(g, seen + {x}, c, info) ensures c in table { DescribesMore(g, seen, x, c, info); }
  }

  /** The loop over the values; the order in which they come is not fixed. */
  method CloneValues(g: Graph, clones: map<string, seq<string>>) returns (values: map<string, ValueInfo>)
    requires ClonesRight(g, clones)
    ensures TableOf(g, g.values.Keys, values)
  {
    values := map[];
    var seen: set<string> := {};
    while seen != g.values.Keys
      invariant seen <= g.values.Keys && TableOf(g, seen, values)
      decreases g.values.Keys - seen
    {
      var x :| x in g.values && x !in seen;
      hide TableOf;
      var names := if x in clones then clones[x] else [x];
      var table := AddClones(values, names, g.values[x]);
      TableMore(g, seen, values, x, names, table);
      values, seen := table, seen + {x};
    }
  }

  /** When clone names are not names of other values, the table is determined: a value keeps its description, and a
      clone has that of its original. */
  lemma TableIs(g: Graph, values: map<string, ValueInfo>, c: string)
    requires TableOf(g, g.values.Keys, values) && forall y, x, i :: IsClone(g, y, x, i) ==> y !in g.values
    ensures c in g.values && !Shared(g, c) ==> c in values && values[c] == g.values[c]
    ensures forall x, i :: IsClone(g, c, x, i) && x in g.values ==> c in values && values[c] == g.values[x]
    ensures c in values ==> (c in g.values && !Shared(g, c)) || exists x, i :: x in g.values && IsClone(g, c, x, i)
  {
    if c in g.values && !Shared(g, c) { assert Describes(g, g.values.Keys, c, g.values[c]); }
    forall x, i | IsClone(g, c, x, i) && x in g.values ensures c in values && values[c] == g.values[x] {
      assert Describes(g, g.values.Keys, c, g.values[x]);
      var y, j :| y in g.values && IsClone(g, c, y, j) && values[c] == g.values[y];
      CloneNameInjective(x, i, y, j);
    }
  }

  /** `cloneSharedInputs`: fails, with an index out of range, if and only if some node lists a shared input twice. */
  method CloneSharedInputs(g: Graph)
    returns (r: Option<Cloned>, values: map<string, ValueInfo>, clones: map<string, seq<string>>)
    ensures r.Some? <==> NoDoubleUse(g)
    ensures r.Some? ==> r.value == ClonedGraph(g)
    ensures TableOf(g, g.values.Keys, values)
    ensures ClonesRight(g, clones)
  {
    var inputs;
    clones, inputs := CloneInputList(g);
    values := CloneValues(g, clones);
    hide TableOf;
    var used: map<string, nat> := map[];
    var nodes: seq<Node> := [];
    for k := 0 to |g.nodes|
      invariant nodes == seq(k, i requires 0 <= i < k => ClonedNode(g, i))
      invariant UsedAfter(g, used, k) && EnoughAfter(g, k)
    {
      var node;
      assert UsedRight(g, used, k, 0);
      hide ClonesRight, UsedAfter, EnoughAfter, UsedRight, Enough, ClonedNode;
      node, used := CloneNode(g, k, clones, used);
      if node.None? {
        DoubleUseFound(g);
        return None, values, clones;
      }
      NodeKeepsEnough(g, k, used);
      nodes := nodes + [node.value];
    }
    EnoughIff(g);
    var outputs := CloneOutputs(g, clones);
    r := Some(Cloned(nodes, inputs, outputs));
  }

  lemma DoubleUseFound(g: Graph)
    requires exists x :: Shared(g, x) && OccurrencesIn(g.nodes, x) > RefCount(g.nodes, x)
    ensures !NoDoubleUse(g)
  {
    var x :| Shared(g, x) && OccurrencesIn(g.nodes, x) > RefCount(g.nodes, x);
    RefCountVsOccurrences(g.nodes, x);
  }

  // ---------- what the clones mean ----------

  ghost predicate IsClone(g: Graph, c: string, x: string, i: nat) {
    Shared(g, x) && i < RefCount(g.nodes, x) && c == CloneName(x, i)
  }

  /** Clone names are used nowhere in the graph. */
  ghost predicate FreshClones(g: Graph) {
    forall c, x, i :: IsClone(g, c, x, i) ==>
      c !in g.inputs && c !in g.outputs && c !in Written(g.nodes) && forall n :: n in g.nodes ==> c !in n.inputs
  }

  /** `env` gives every clone the value of its original and every other input its own value. */
  ghost predicate ClonesCarry<V>(g: Graph, env: Env<V>, cloned: Env<V>) {
    && cloned.Keys == Names(ClonedGraph(g).inputs)
    && (forall x :: x in g.inputs && !Shared(g, x) ==> x in cloned && x in env && cloned[x] == env[x])
    && (forall c, x, i :: IsClone(g, c, x, i) ==> c in cloned && x in env && cloned[c] == env[x])
  }

  lemma ClonesMembers(g: Graph, x: string, c: string)
    requires Shared(g, x)
    ensures c in Clones(x, RefCount(g.nodes, x)) <==> exists i :: IsClone(g, c, x, i)
  {
    var cs := Clones(x, RefCount(g.nodes, x));
    if c in cs {
      var i :| 0 <= i < |cs| && cs[i] == c;
      assert IsClone(g, c, x, i);
    }
    if i: nat :| IsClone(g, c, x, i) { assert cs[i] == c; }
  }

  lemma {:induction false} ClonedInputsAre(g: Graph, xs: seq<string>)
    ensures forall c :: c in ClonedInputs(g, xs) <==>
              (c in xs && !Shared(g, c)) || exists x, i :: x in xs && IsClone(g, c, x, i)
  {
    if xs != [] {
      var x, front := xs[|xs| - 1], xs[..|xs| - 1];
      ClonedInputsAre(g, front);
      assert xs == front + [x];
      forall c
        ensures c in ClonedInputs(g, xs) <==>
                  (c in xs && !Shared(g, c)) || exists y, i :: y in xs && IsClone(g, c, y, i)
      {
        if Shared(g, x) { ClonesMembers(g, x, c); }
      }
    }
  }

  /** What a clone list of inputs contains, name by name. */
  lemma ClonedInputMeans(g: Graph, c: string)
    ensures c in Names(ClonedGraph(g).inputs) <==>
              (c in g.inputs && !Shared(g, c)) || exists x, i :: IsClone(g, c, x, i)
  {
    ClonedInputsAre(g, g.inputs);
    if x, i :| IsClone(g, c, x, i) { assert x in g.inputs; }
  }

  /** An occurrence of a shared input is rewritten to one of its clones. */
  lemma RenamedIsClone(g: Graph, k: nat, j: nat)
    requires NoDoubleUse(g) && k < |g.nodes| && j < |g.nodes[k].inputs| && Shared(g, g.nodes[k].inputs[j])
    ensures IsClone(g, Renamed(g, k, j), g.nodes[k].inputs[j], Before(g, k, j, g.nodes[k].inputs[j]))
    ensures Before(g, k, j, g.nodes[k].inputs[j]) == RefCount(g.nodes[..k], g.nodes[k].inputs[j])
  {
    var x := g.nodes[k].inputs[j];
    assert ListsOnce(g.nodes, x);
    BeforeNext(g, k, j, x);
    BeforeBound(g, k, j + 1, x);
    RefCountVsOccurrences(g.nodes, x);
    var front := g.nodes[..k];
    assert ListsOnce(front, x) by {
      forall i | 0 <= i < |front| ensures Occurrences(front[i].inputs, x) <= 1 { assert front[i] == g.nodes[i]; }
    }
    RefCountVsOccurrences(front, x);
    NodeDone(g, k);
    OccurrencesPrefix(g.nodes[k].inputs, x, j + 1, |g.nodes[k].inputs|);
    assert g.nodes[k].inputs[..|g.nodes[k].inputs|] == g.nodes[k].inputs;
    assert g.nodes[k].inputs[..j + 1][..j] == g.nodes[k].inputs[..j];
  }

  // ---------- meaning is kept ----------

  ghost predicate Setting<V>(g: Graph, env: Env<V>, cloned: Env<V>, val: Env<V>) {
    && Runs(g) && SingleAssignment(g.nodes, Names(g.inputs)) && NoDoubleUse(g) && FreshClones(g)
    && env.Keys == Names(g.inputs) && ClonesCarry(g, env, cloned) && Within(env, val)
  }

  /** Names other than clones keep their value, clones have the value of their original. */
  lemma OtherNames<V>(g: Graph, env: Env<V>, cloned: Env<V>, val: Env<V>, y: string)
    requires Setting(g, env, cloned, val) && (forall x, i :: !IsClone(g, y, x, i))
    requires y in g.inputs ==> !Shared(g, y)
    ensures Look(val + cloned, y) == Look(val, y)
  {
    ClonedInputMeans(g, y);
    if y in cloned { assert y in g.inputs && !Shared(g, y); }
  }

  lemma CloneValue<V>(g: Graph, env: Env<V>, cloned: Env<V>, val: Env<V>, c: string, x: string, i: nat)
    requires Setting(g, env, cloned, val) && IsClone(g, c, x, i)
    ensures c in cloned && x in val && Look(val + cloned, c) == Look(val, x)
  {
  }

  lemma RenamedValue<V>(g: Graph, env: Env<V>, cloned: Env<V>, val: Env<V>, k: nat, j: nat)
    requires Setting(g, env, cloned, val) && k < |g.nodes| && j < |g.nodes[k].inputs|
    ensures Look(val + cloned, Renamed(g, k, j)) == Look(val, g.nodes[k].inputs[j])
  {
    var x := g.nodes[k].inputs[j];
    if Shared(g, x) {
      RenamedIsClone(g, k, j);
      CloneValue(g, env, cloned, val, Renamed(g, k, j), x, Before(g, k, j, x));
    } else {
      assert g.nodes[k] in g.nodes && x in g.nodes[k].inputs;
      OtherNames(g, env, cloned, val, x);
    }
  }

  lemma ClonedSolves<V>(f: Operators<V>, g: Graph, env: Env<V>, cloned: Env<V>, val: Env<V>, k: nat)
    requires Setting(g, env, cloned, val) && Solves(f, val, g.nodes) && k < |g.nodes|
    ensures SolvesNode(f, val + cloned, ClonedNode(g, k))
  {
    var n, m, all := g.nodes[k], ClonedNode(g, k), val + cloned;
    assert LookAll(all, m.inputs) == LookAll(val, n.inputs) by {
      forall j | 0 <= j < |n.inputs| ensures Look(all, m.inputs[j]) == Look(val, n.inputs[j]) {
        RenamedValue(g, env, cloned, val, k, j);
      }
    }
    assert SolvesNode(f, val, n);
    forall i | 0 <= i < |n.outputs|
      ensures n.outputs[i] in all && all[n.outputs[i]] == f(n.op, i, LookAll(all, m.inputs))
    {
      var o := n.outputs[i];
      assert o in n.outputs;
      WrittenHas(g.nodes, o);
      assert o !in Names(g.inputs);
      OtherNames(g, env, cloned, val, o);
      assert Look(val, o) == Some(val[o]);
    }
  }

  lemma {:induction false} SameWritten(g: Graph, k: nat)
    requires k <= |g.nodes|
    ensures Written(ClonedGraph(g).nodes[..k]) == Written(g.nodes[..k])
  {
    if k > 0 {
      SameWritten(g, k - 1);
      assert ClonedGraph(g).nodes[..k][..k - 1] == ClonedGraph(g).nodes[..k - 1];
      assert g.nodes[..k][..k - 1] == g.nodes[..k - 1];
    }
  }

  lemma ClonedOrdered(g: Graph)
    requires Runs(g) && NoDoubleUse(g)
    ensures Ordered(ClonedGraph(g).nodes, Names(ClonedGraph(g).inputs))
  {
    var c := ClonedGraph(g);
    forall k, y | 0 <= k < |c.nodes| && y in c.nodes[k].inputs
      ensures y in Names(c.inputs) || y in Written(c.nodes[..k])
    {
      var j :| 0 <= j < |c.nodes[k].inputs| && c.nodes[k].inputs[j] == y;
      var x := g.nodes[k].inputs[j];
      ClonedInputMeans(g, y);
      SameWritten(g, k);
      assert x in g.nodes[k].inputs;
      if Shared(g, x) {
        RenamedIsClone(g, k, j);
        assert IsClone(g, y, x, Before(g, k, j, x));
      } else {
        assert x in Names(g.inputs) || x in Written(g.nodes[..k]);
      }
    }
  }

  lemma OutputValue<V>(g: Graph, env: Env<V>, cloned: Env<V>, val: Env<V>, o: string)
    requires Setting(g, env, cloned, val) && o in g.outputs
    ensures Look(val + cloned, ClonedOutput(g, o)) == Look(val, o)
    ensures ClonedOutput(g, o) in cloned || o in Written(g.nodes)
  {
    if Shared(g, o) {
      assert IsClone(g, CloneName(o, 0), o, 0);
      CloneValue(g, env, cloned, val, CloneName(o, 0), o, 0);
    } else {
      OtherNames(g, env, cloned, val, o);
      ClonedInputMeans(g, o);
    }
  }

  lemma AllClonedSolve<V>(f: Operators<V>, g: Graph, env: Env<V>, cloned: Env<V>, val: Env<V>)
    requires Setting(g, env, cloned, val) && Solves(f, val, g.nodes)
    ensures Solves(f, val + cloned, ClonedGraph(g).nodes)
  {
    hide Setting, SolvesNode, ClonedNode;
    var nodes := ClonedGraph(g).nodes;
    forall n | n in nodes ensures SolvesNode(f, val + cloned, n) {
      var k :| 0 <= k < |nodes| && nodes[k] == n;
      ClonedSolves(f, g, env, cloned, val, k);
    }
  }

  /** If every clone carries the value of its original, the outputs of the graph are unchanged. */
  lemma ClonePreserves<V>(f: Operators<V>, g: Graph, env: Env<V>, cloned: Env<V>)
    requires Runs(g) && SingleAssignment(g.nodes, Names(g.inputs)) && NoDoubleUse(g) && FreshClones(g)
    requires env.Keys == Names(g.inputs) && ClonesCarry(g, env, cloned)
    ensures LookAll(Eval(f, ClonedGraph(g).nodes, cloned), ClonedGraph(g).outputs) ==
              LookAll(Eval(f, g.nodes, env), g.outputs)
  {
    EvalSolves(f, g.nodes, env);
    var val, c := Eval(f, g.nodes, env), ClonedGraph(g);
    assert Setting(g, env, cloned, val);
    AllClonedSolve(f, g, env, cloned, val);
    ClonedOrdered(g);
    EvalWithin(f, c.nodes, cloned, val + cloned);
    SameWritten(g, |g.nodes|);
    assert c.nodes[..|g.nodes|] == c.nodes && g.nodes[..|g.nodes|] == g.nodes;
    hide Eval, Setting, ClonesCarry, FreshClones, NoDoubleUse, Runs, SingleAssignment, Solves, Ordered, ClonedOutput;
    forall i | 0 <= i < |g.outputs| ensures Look(Eval(f, c.nodes, cloned), c.outputs[i]) == Look(val, g.outputs[i]) {
      OutputIs(f, g, env, cloned, val, i);
    }
  }

  lemma OutputIs<V>(f: Operators<V>, g: Graph, env: Env<V>, cloned: Env<V>, val: Env<V>, i: nat)
    requires Setting(g, env, cloned, val) && i < |g.outputs|
    requires Within(Eval(f, ClonedGraph(g).nodes, cloned), val + cloned)
    requires Eval(f, ClonedGraph(g).nodes, cloned).Keys == cloned.Keys + Written(g.nodes)
    ensures Look(Eval(f, ClonedGraph(g).nodes, cloned), ClonedGraph(g).outputs[i]) == Look(val, g.outputs[i])
  {
    var o := g.outputs[i];
    OutputValue(g, env, cloned, val, o);
    if o in Written(g.nodes) {
      WrittenHas(g.nodes, o);
      assert o !in Names(g.inputs);
    }
  }

  // ---------- each clone has one consumer ----------

  ghost predicate Consumes(g: Graph, k: nat, c: string) {
    k < |g.nodes| && c in ClonedNode(g, k).inputs
  }

  lemma ConsumerIs(g: Graph, k: nat, c: string, x: string, i: nat)
    requires NoDoubleUse(g) && FreshClones(g) && IsClone(g, c, x, i) && k < |g.nodes|
    ensures Consumes(g, k, c) <==> x in g.nodes[k].inputs && RefCount(g.nodes[..k], x) == i
  {
    var n, m := g.nodes[k], ClonedNode(g, k);
    assert n in g.nodes && c !in n.inputs;
    if Consumes(g, k, c) {
      var j :| 0 <= j < |m.inputs| && m.inputs[j] == c;
      assert n.inputs[j] != c && Shared(g, n.inputs[j]);
      RenamedIsClone(g, k, j);
      CloneNameInjective(x, i, n.inputs[j], Before(g, k, j, n.inputs[j]));
    }
    if x in n.inputs && RefCount(g.nodes[..k], x) == i {
      var j :| 0 <= j < |n.inputs| && n.inputs[j] == x;
      RenamedIsClone(g, k, j);
      assert m.inputs[j] == c;
    }
  }

  lemma {:induction false} RefCountStep(nodes: seq<Node>, k: nat, x: string)
    requires k < |nodes|
    ensures RefCount(nodes[..k + 1], x) == RefCount(nodes[..k], x) + (if x in nodes[k].inputs then 1 else 0)
  {
    assert nodes[..k + 1][..k] == nodes[..k];
  }

  lemma {:induction false} RefCountMonotone(nodes: seq<Node>, i: nat, j: nat, x: string)
    requires i <= j <= |nodes|
    ensures RefCount(nodes[..i], x) <= RefCount(nodes[..j], x)
  {
    if i < j {
      RefCountMonotone(nodes, i, j - 1, x);
      RefCountStep(nodes, j - 1, x);
    }
  }

  /** The reader that brings the count past `i`. */
  lemma {:induction false} ReaderNumber(nodes: seq<Node>, x: string, i: nat, m: nat) returns (k: nat)
    requires m <= |nodes| && i < RefCount(nodes[..m], x)
    ensures k < m && x in nodes[k].inputs && RefCount(nodes[..k], x) == i
  {
    RefCountStep(nodes, m - 1, x);
    if RefCount(nodes[..m - 1], x) > i { k := ReaderNumber(nodes, x, i, m - 1); } else { k := m - 1; }
  }

  /** Each clone is consumed by exactly one node. */
  lemma OneConsumer(g: Graph, c: string, x: string, i: nat) returns (k: nat)
    requires NoDoubleUse(g) && FreshClones(g) && IsClone(g, c, x, i)
    ensures forall m: nat :: m < |g.nodes| ==> (Consumes(g, m, c) <==> m == k)
    ensures k < |g.nodes|
  {
    assert g.nodes[..|g.nodes|] == g.nodes;
    k := ReaderNumber(g.nodes, x, i, |g.nodes|);
    forall m: nat | m < |g.nodes| ensures Consumes(g, m, c) <==> m == k {
      ConsumerIs(g, m, c, x, i);
      RefCountStep(g.nodes, m, x);
      RefCountStep(g.nodes, k, x);
      if m < k { RefCountMonotone(g.nodes, m + 1, k, x); }
      if k < m { RefCountMonotone(g.nodes, k + 1, m, x); }
    }
  }

  /** A node that adds a shared input to itself makes the clones run out. */
  lemma DoubleUseFails()
    ensures var g := Graph("g", [Node("a", "neg", ["x"], ["u"]), Node("b", "add", ["x", "x"], ["v"])], map[], ["x"],
                           ["v"]);
            Shared(g, "x") && !NoDoubleUse(g)
  {
    var a, b := Node("a", "neg", ["x"], ["u"]), Node("b", "add", ["x", "x"], ["v"]);
    var nodes := [a, b];
    var g := Graph("g", nodes, map[], ["x"], ["v"]);
    assert nodes[..1] == [a] && [a][..0] == [];
    assert RefCount([a], "x") == 1;
    assert RefCount(nodes, "x") == 2;
    assert ["x", "x"][..1] == ["x"] && ["x"][..0] == [];
    assert Occurrences(["x"], "x") == 1;
    assert Occurrences(nodes[1].inputs, "x") == 2;
    assert !ListsOnce(nodes, "x");
  }
}
