/**
 The intermediate representation of a network (src/graph/ir.h): a list of nodes that read and write
 named values, with graph inputs and outputs.  Operators are uninterpreted.
 */
module IR {
  import opened Options

  datatype Node = Node(id: string, op: string, inputs: seq<string>, outputs: seq<string>)

  datatype ValueInfo = ValueInfo(isParam: bool, isBatch: bool, isLoss: bool, forBackward: bool)

  datatype Graph = Graph(name: string, nodes: seq<Node>, values: map<string, ValueInfo>, inputs: seq<string>,
                         outputs: seq<string>)

  predicate IsParam(g: Graph, x: string) { x in g.values && g.values[x].isParam }

  // ---------- meaning ----------

  /** `op(name, k, args)` is what output `k` of operator `name` computes; a missing argument is `None`. */
  type Operators<!V> = (string, nat, seq<Option<V>>) -> V

  type Env<V> = map<string, V>

  function Look<V>(env: Env<V>, x: string): Option<V> { if x in env then Some(env[x]) else None }

  function LookAll<V>(env: Env<V>, xs: seq<string>): seq<Option<V>> {
    seq(|xs|, i requires 0 <= i < |xs| => Look(env, xs[i]))
  }

  /** Bind outputs 0..k-1 of an operator applied to `args`. */
  function BindOutputs<V>(f: Operators<V>, n: Node, args: seq<Option<V>>, env: Env<V>, k: nat): Env<V>
    requires k <= |n.outputs|
  {
    if k == 0 then env else BindOutputs(f, n, args, env, k - 1)[n.outputs[k - 1] := f(n.op, k - 1, args)]
  }

  function EvalNode<V>(f: Operators<V>, n: Node, env: Env<V>): Env<V> {
    BindOutputs(f, n, LookAll(env, n.inputs), env, |n.outputs|)
  }

  function Eval<V>(f: Operators<V>, nodes: seq<Node>, env: Env<V>): Env<V> {
    if nodes == [] then env else EvalNode(f, nodes[|nodes| - 1], Eval(f, nodes[..|nodes| - 1], env))
  }

  // ---------- well-formedness ----------

  function Names(xs: seq<string>): set<string> { set x | x in xs }

  /** Everything written by the nodes. */
  function Written(nodes: seq<Node>): set<string> {
    if nodes == [] then {} else Written(nodes[..|nodes| - 1]) + Names(nodes[|nodes| - 1].outputs)
  }

  /** `verifyNodeInputs`: each node reads only graph inputs and outputs of earlier nodes. */
  ghost predicate Ordered(nodes: seq<Node>, avail: set<string>) {
    forall i, x :: 0 <= i < |nodes| && x in nodes[i].inputs ==> x in avail || x in Written(nodes[..i])
  }

  /** `verifyNoDuplicatedOutputs`: no name is both a graph input and written, or written twice. */
  ghost predicate SingleAssignment(nodes: seq<Node>, avail: set<string>) {
    && (forall i, x :: 0 <= i < |nodes| && x in nodes[i].outputs ==> x !in avail)
    && (forall i, j, x :: 0 <= i < |nodes| && 0 <= j < |nodes| && x in nodes[i].outputs && x in nodes[j].outputs ==>
          i == j)
    && (forall i, a, b :: 0 <= i < |nodes| && 0 <= a < b < |nodes[i].outputs| ==>
          nodes[i].outputs[a] != nodes[i].outputs[b])
  }

  /** A graph that passes `verifyNodeInputs` and defines its outputs. */
  ghost predicate Runs(g: Graph) {
    && Ordered(g.nodes, Names(g.inputs))
    && forall o :: o in g.outputs ==> o in Names(g.inputs) + Written(g.nodes)
  }

  lemma {:induction false} WrittenHas(nodes: seq<Node>, x: string)
    ensures x in Written(nodes) <==> exists i :: 0 <= i < |nodes| && x in nodes[i].outputs
  {
    if nodes != [] {
      WrittenHas(nodes[..|nodes| - 1], x);
      if i :| 0 <= i < |nodes| && x in nodes[i].outputs {
        assert i < |nodes| - 1 ==> nodes[..|nodes| - 1][i] == nodes[i];
      }
    }
  }

  /** `verifyNodeInputs` as a loop. */
  method VerifyNodeInputs(g: Graph) returns (ok: bool)
    ensures ok <==> Ordered(g.nodes, Names(g.inputs))
  {
    var names: set<string> := {};
    for i := 0 to |g.inputs|
      invariant names == Names(g.inputs[..i])
    {
      names := names + {g.inputs[i]};
    }
    assert g.inputs[..|g.inputs|] == g.inputs;
    for i := 0 to |g.nodes|
      invariant names == Names(g.inputs) + Written(g.nodes[..i])
      invariant forall k, x :: 0 <= k < i && x in g.nodes[k].inputs ==>
                  x in Names(g.inputs) || x in Written(g.nodes[..k])
    {
      var n := g.nodes[i];
      for j := 0 to |n.inputs|
        invariant forall k :: 0 <= k < j ==> n.inputs[k] in names
      {
        if n.inputs[j] !in names {
          assert n.inputs[j] in g.nodes[i].inputs;
          return false;
        }
      }
      assert g.nodes[..i + 1][..i] == g.nodes[..i];
      names := names + Names(n.outputs);
    }
    return true;
  }

  // ---------- one valuation for many graphs ----------

  /** `val` gives every name the nodes write the value that its operator computes under `val`. */
  ghost predicate Solves<V>(f: Operators<V>, val: Env<V>, nodes: seq<Node>) {
    forall n :: n in nodes ==> SolvesNode(f, val, n)
  }

  ghost predicate SolvesNode<V>(f: Operators<V>, val: Env<V>, n: Node) {
    forall k :: 0 <= k < |n.outputs| ==>
      n.outputs[k] in val && val[n.outputs[k]] == f(n.op, k, LookAll(val, n.inputs))
  }

  ghost predicate Within<V>(env: Env<V>, val: Env<V>) {
    forall x :: x in env ==> x in val && env[x] == val[x]
  }

  lemma {:induction false} BindSolved<V>(f: Operators<V>, n: Node, args: seq<Option<V>>, env: Env<V>, val: Env<V>,
                                         k: nat)
    requires k <= |n.outputs| && Within(env, val)
    requires forall i :: 0 <= i < |n.outputs| ==> n.outputs[i] in val && val[n.outputs[i]] == f(n.op, i, args)
    ensures Within(BindOutputs(f, n, args, env, k), val)
    ensures BindOutputs(f, n, args, env, k).Keys == env.Keys + Names(n.outputs[..k])
  {
    if k > 0 {
      BindSolved(f, n, args, env, val, k - 1);
      assert n.outputs[..k] == n.outputs[..k - 1] + [n.outputs[k - 1]];
    }
  }

  /** Evaluating well-ordered nodes that `val` solves, from an environment within `val`, stays within `val`
      and defines exactly what the nodes write. */
  lemma {:induction false} EvalWithin<V>(f: Operators<V>, nodes: seq<Node>, env: Env<V>, val: Env<V>)
    requires Ordered(nodes, env.Keys) && Solves(f, val, nodes) && Within(env, val)
    ensures Within(Eval(f, nodes, env), val)
    ensures Eval(f, nodes, env).Keys == env.Keys + Written(nodes)
  {
    if nodes != [] {
      var front, n := nodes[..|nodes| - 1], nodes[|nodes| - 1];
      forall i, x | 0 <= i < |front| && x in front[i].inputs ensures x in env.Keys || x in Written(front[..i]) {
        assert front[..i] == nodes[..i];
      }
      EvalWithin(f, front, env, val);
      var before := Eval(f, front, env);
      assert LookAll(before, n.inputs) == LookAll(val, n.inputs);
      assert SolvesNode(f, val, n);
      BindSolved(f, n, LookAll(before, n.inputs), before, val, |n.outputs|);
      assert n.outputs[..|n.outputs|] == n.outputs;
    }
  }

  lemma {:induction false} BindKeeps<V>(f: Operators<V>, n: Node, args: seq<Option<V>>, env: Env<V>, k: nat)
    requires k <= |n.outputs| && forall a, b :: 0 <= a < b < |n.outputs| ==> n.outputs[a] != n.outputs[b]
    ensures forall x :: x !in n.outputs ==> Look(BindOutputs(f, n, args, env, k), x) == Look(env, x)
    ensures forall i :: 0 <= i < k ==> Look(BindOutputs(f, n, args, env, k), n.outputs[i]) == Some(f(n.op, i, args))
  {
    if k > 0 { BindKeeps(f, n, args, env, k - 1); }
  }

  /** Adding a node that writes fresh names, which nobody so far reads, keeps all equations solved. */
  lemma SolvesSnoc<V>(f: Operators<V>, front: seq<Node>, n: Node, before: Env<V>, after: Env<V>)
    requires Solves(f, before, front) && after == EvalNode(f, n, before)
    requires forall a, b :: 0 <= a < b < |n.outputs| ==> n.outputs[a] != n.outputs[b]
    requires forall i, x :: 0 <= i < |front| && (x in front[i].inputs || x in front[i].outputs) ==> x !in n.outputs
    requires forall x :: x in n.inputs ==> x !in n.outputs
    ensures Solves(f, after, front + [n])
    ensures forall x :: x !in n.outputs ==> Look(after, x) == Look(before, x)
    ensures after.Keys == before.Keys + Names(n.outputs)
  {
    BindKeeps(f, n, LookAll(before, n.inputs), before, |n.outputs|);
    BindKeys(f, n, LookAll(before, n.inputs), before, |n.outputs|);
    assert n.outputs[..|n.outputs|] == n.outputs;
    assert LookAll(after, n.inputs) == LookAll(before, n.inputs);
    forall i | 0 <= i < |n.outputs|
      ensures n.outputs[i] in after && after[n.outputs[i]] == f(n.op, i, LookAll(after, n.inputs))
    {
      assert Look(after, n.outputs[i]) == Some(f(n.op, i, LookAll(before, n.inputs)));
    }
    forall m | m in front ensures SolvesNode(f, after, m) {
      var i :| 0 <= i < |front| && front[i] == m;
      assert LookAll(after, m.inputs) == LookAll(before, m.inputs);
      SolvedStays(f, before, after, front, i, n);
    }
  }

  /** A single-assignment program solves its own equations: its final environment is a valuation for all its nodes. */
  lemma {:induction false} EvalSolves<V>(f: Operators<V>, nodes: seq<Node>, env: Env<V>)
    requires Ordered(nodes, env.Keys) && SingleAssignment(nodes, env.Keys)
    ensures Solves(f, Eval(f, nodes, env), nodes)
    ensures Within(env, Eval(f, nodes, env))
    ensures Eval(f, nodes, env).Keys == env.Keys + Written(nodes)
  {
    if nodes != [] {
      var front, n := nodes[..|nodes| - 1], nodes[|nodes| - 1];
      FrontIsFine(nodes, env.Keys);
      EvalSolves(f, front, env);
      forall i, x | 0 <= i < |front| && (x in front[i].inputs || x in front[i].outputs) ensures x !in n.outputs {
        LastWritesFresh(nodes, env.Keys, i);
      }
      LastWritesFresh(nodes, env.Keys, |nodes| - 1);
      assert forall x :: x in n.outputs ==> x !in env;
      hide Ordered, SingleAssignment, Solves, EvalNode;
      SolvesSnoc(f, front, n, Eval(f, front, env), Eval(f, nodes, env));
      assert nodes == front + [n];
      forall x | x in env ensures x in Eval(f, nodes, env) && env[x] == Eval(f, nodes, env)[x] {
        assert Look(Eval(f, nodes, env), x) == Look(Eval(f, front, env), x);
      }
    }
  }

  lemma SolvedStays<V>(f: Operators<V>, before: Env<V>, after: Env<V>, front: seq<Node>, i: nat, n: Node)
    requires i < |front| && Solves(f, before, front)
    requires LookAll(after, front[i].inputs) == LookAll(before, front[i].inputs)
    requires forall x :: x !in n.outputs ==> Look(after, x) == Look(before, x)
    requires forall x :: x in front[i].outputs ==> x !in n.outputs
    ensures SolvesNode(f, after, front[i])
  {
    var m := front[i];
    assert SolvesNode(f, before, m);
    forall k | 0 <= k < |m.outputs|
      ensures m.outputs[k] in after && after[m.outputs[k]] == f(m.op, k, LookAll(after, m.inputs))
    {
      assert Look(after, m.outputs[k]) == Look(before, m.outputs[k]);
    }
  }

  lemma {:induction false} BindKeys<V>(f: Operators<V>, n: Node, args: seq<Option<V>>, env: Env<V>, k: nat)
    requires k <= |n.outputs|
    ensures BindOutputs(f, n, args, env, k).Keys == env.Keys + Names(n.outputs[..k])
  {
    if k > 0 {
      BindKeys(f, n, args, env, k - 1);
      assert n.outputs[..k] == n.outputs[..k - 1] + [n.outputs[k - 1]];
    }
  }

  lemma FrontIsFine(nodes: seq<Node>, avail: set<string>)
    requires nodes != [] && Ordered(nodes, avail) && SingleAssignment(nodes, avail)
    ensures Ordered(nodes[..|nodes| - 1], avail) && SingleAssignment(nodes[..|nodes| - 1], avail)
  {
    var front := nodes[..|nodes| - 1];
    forall i, x | 0 <= i < |front| && x in front[i].inputs ensures x in avail || x in Written(front[..i]) {
      assert front[..i] == nodes[..i];
    }
  }

  /** No node reads what a later node, or itself, writes. */
  lemma ReadsEarlier(nodes: seq<Node>, avail: set<string>, i: nat, j: nat, x: string)
    requires Ordered(nodes, avail) && SingleAssignment(nodes, avail) && i <= j < |nodes| && x in nodes[i].inputs
    ensures x !in nodes[j].outputs
  {
    WrittenHas(nodes[..i], x);
    if k :| 0 <= k < i && x in nodes[..i][k].outputs {
      assert x in nodes[k].outputs;
      assert k != j;
    } else {
      assert x in avail;
    }
  }

  lemma LastWritesFresh(nodes: seq<Node>, avail: set<string>, i: nat)
    requires Ordered(nodes, avail) && SingleAssignment(nodes, avail) && i < |nodes|
    ensures forall x :: x in nodes[i].inputs ==> x !in nodes[|nodes| - 1].outputs
    ensures i < |nodes| - 1 ==> forall x :: x in nodes[i].outputs ==> x !in nodes[|nodes| - 1].outputs
  {
    forall x | x in nodes[i].inputs ensures x !in nodes[|nodes| - 1].outputs {
      ReadsEarlier(nodes, avail, i, |nodes| - 1, x);
    }
  }
}
