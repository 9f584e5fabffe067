/**
 Coarsening of the layer graph (src/graph/Partitioner.cpp): one level merges every node with at most
 one successor; levels repeat until nothing changes; at the end small neighbours in the sorted list
 are merged.  Evaluations, convexity and memory tests are arbitrary functions.
 */
module Coarsening {
  import opened Arithmetic
  import opened Options

  /** A node lifted to the next level, or two nodes merged. */
  datatype Tree = Leaf(name: string) | Up(sub: Tree) | Pair(left: Tree, right: Tree)

  datatype MLGraph = MLGraph(nodes: seq<Tree>, edges: seq<(nat, nat)>) {
    /** Edges run between different nodes. */
    ghost predicate Valid() { forall e :: e in edges ==> e.0 < |nodes| && e.1 < |nodes| && e.0 != e.1 }

    /** The list is topologically sorted. */
    ghost predicate Sorted() { forall e :: e in edges ==> e.0 < e.1 < |nodes| }
  }

  /** `getSize`. */
  function Size(t: Tree): int {
    match t
    case Leaf(_) => 1
    case Up(sub) => Size(sub)
    case Pair(left, right) => Size(left) + Size(right)
  }

  /** How often the leaf `name` occurs. */
  function Occurs(name: string, t: Tree): int {
    match t
    case Leaf(other) => if other == name then 1 else 0
    case Up(sub) => Occurs(name, sub)
    case Pair(left, right) => Occurs(name, left) + Occurs(name, right)
  }

  /** Anything that counts parts of a tree. */
  ghost predicate Additive(f: Tree -> int) {
    (forall t :: f(Up(t)) == f(t)) && forall a, b :: f(Pair(a, b)) == f(a) + f(b)
  }

  function OccursIn(name: string): Tree -> int { t => Occurs(name, t) }

  lemma Additives(name: string)
    ensures Additive(Size) && Additive(OccursIn(name))
  {
  }

  function Total(f: Tree -> int, nodes: seq<Tree>): int {
    if nodes == [] then 0 else Total(f, nodes[..|nodes| - 1]) + f(nodes[|nodes| - 1])
  }

  // ---------- edges ----------

  ghost predicate Image(edges: seq<(nat, nat)>, names: map<nat, nat>, p: (nat, nat)) {
    p.0 != p.1 && exists e :: e in edges && e.0 in names && e.1 in names && names[e.0] == p.0 && names[e.1] == p.1
  }

  /** `mergeEdges`: rename the ends, drop loops, and join edges with the same ends. */
  method MergeEdges(edges: seq<(nat, nat)>, names: map<nat, nat>) returns (merged: seq<(nat, nat)>)
    requires forall e :: e in edges ==> e.0 in names && e.1 in names
    ensures forall p :: p in merged <==> Image(edges, names, p)
    ensures forall i, j :: 0 <= i < j < |merged| ==> merged[i] != merged[j]
  {
    merged := [];
    for k := 0 to |edges|
      invariant forall p :: p in merged <==> Image(edges[..k], names, p)
      invariant forall i, j :: 0 <= i < j < |merged| ==> merged[i] != merged[j]
    {
      var p := (names[edges[k].0], names[edges[k].1]);
      ImageNext(edges, names, k);
      if p.0 != p.1 && p !in merged { merged := merged + [p]; }
    }
    assert edges[..|edges|] == edges;
  }

  lemma ImageNext(edges: seq<(nat, nat)>, names: map<nat, nat>, k: nat)
    requires k < |edges| && edges[k].0 in names && edges[k].1 in names
    ensures forall p :: Image(edges[..k + 1], names, p) <==>
              Image(edges[..k], names, p) || (p.0 != p.1 && p == (names[edges[k].0], names[edges[k].1]))
  {
    assert edges[..k + 1] == edges[..k] + [edges[k]];
  }

  // ---------- mergeAdjacents: matching ----------

  /** A node alone, or with one successor. */
  datatype Group = Group(head: nat, tail: Option<nat>)

  function MembersOf(g: Group): seq<nat> { if g.tail.Some? then [g.head, g.tail.value] else [g.head] }

  function Members(groups: seq<Group>): seq<nat> {
    if groups == [] then []
    else
      Members(groups[..|groups| - 1]) + MembersOf(groups[|groups| - 1])
  }

  /** `best`: how much merging the node with the successor improves; `None` when a test forbids it. */
  type Improvement = (nat, nat) -> Option<int>

  /** Partners taken at an improvement of exactly -1, which are not marked as matched. */
  function Unmarked(groups: seq<Group>, best: Improvement): seq<nat> {
    if groups == [] then []
    else
      var g := groups[|groups| - 1];
      Unmarked(groups[..|groups| - 1], best)
      + (if g.tail.Some? && best(g.head, g.tail.value) == Some(-1) then [g.tail.value] else [])
  }

  function Count(xs: seq<nat>, v: nat): nat {
    if xs == [] then 0 else Count(xs[..|xs| - 1], v) + (if xs[|xs| - 1] == v then 1 else 0)
  }

  lemma {:induction false} CountConcat(a: seq<nat>, b: seq<nat>, v: nat)
    ensures Count(a + b, v) == Count(a, v) + Count(b, v)
  {
    if b == [] {
      assert a + b == a;
    } else {
      assert (a + b)[..|a + b| - 1] == a + b[..|b| - 1];
      CountConcat(a, b[..|b| - 1], v);
    }
  }

  lemma {:induction false} CountIn(xs: seq<nat>, v: nat)
    ensures Count(xs, v) > 0 <==> exists i :: 0 <= i < |xs| && xs[i] == v
  {
    if xs != [] {
      CountIn(xs[..|xs| - 1], v);
      if i :| 0 <= i < |xs| && xs[i] == v { assert i < |xs| - 1 ==> xs[..|xs| - 1][i] == v; }
    }
  }

  /** Every node below `n` once, and nothing else. */
  ghost predicate IsPermutation(order: seq<nat>, n: nat) {
    forall v: nat :: Count(order, v) == if v < n then 1 else 0
  }

  /** `a` is one of the targets, and every unmatched target that follows it improves less. */
  ghost predicate LastBest(v: nat, a: nat, targets: seq<nat>, matched: set<nat>, best: Improvement)
    requires best(v, a).Some?
  {
    exists k ::
      0 <= k < |targets| && targets[k] == a && Less(v, targets, k + 1, |targets|, matched, best, best(v, a).value)
  }

  ghost predicate Less(v: nat, targets: seq<nat>, lo: nat, hi: nat, matched: set<nat>, best: Improvement, value: int)
    requires hi <= |targets|
  {
    forall k :: lo <= k < hi && targets[k] !in matched && best(v, targets[k]).Some? ==>
      best(v, targets[k]).value < value
  }

  /** The loop over the successors of one node: the last one with the largest improvement of at least -1. */
  method BestSuccessor(v: nat, targets: seq<nat>, matched: set<nat>, best: Improvement)
    returns (tail: Option<nat>, value: int)
    ensures tail.Some? ==>
              tail.value in targets && tail.value !in matched && best(v, tail.value) == Some(value) && value >= -1
    ensures tail.Some? ==> LastBest(v, tail.value, targets, matched, best)
    ensures tail.None? ==> value == -1
    ensures forall a :: a in targets && a !in matched && best(v, a).Some? ==>
              best(v, a).value <= value && (best(v, a).value >= -1 ==> tail.Some?)
  {
    tail, value := None, -1;
    ghost var at := 0;
    for k := 0 to |targets|
      invariant value >= -1
      invariant tail.Some? ==> tail.value !in matched && best(v, tail.value) == Some(value)
      invariant tail.Some? ==> at < k && targets[at] == tail.value && Less(v, targets, at + 1, k, matched, best, value)
      invariant tail.None? ==> value == -1
      invariant forall j :: 0 <= j < k && targets[j] !in matched && best(v, targets[j]).Some? ==>
                  best(v, targets[j]).value <= value && (best(v, targets[j]).value >= -1 ==> tail.Some?)
    {
      var a := targets[k];
      if a !in matched && best(v, a).Some? && value <= best(v, a).value {
        tail, value, at := Some(a), best(v, a).value, k;
      }
    }
  }

  /** The nodes that a list of groups has matched: heads, and partners taken at an improvement of at least 0. */
  function Marked(groups: seq<Group>, best: Improvement): set<nat> {
    if groups == [] then {} else Marked(groups[..|groups| - 1], best) + MarkedBy(groups[|groups| - 1], best)
  }

  function MarkedBy(g: Group, best: Improvement): set<nat> {
    match g.tail
    case None => {g.head}
    case Some(a) => {g.head} + (if best(g.head, a).Some? && best(g.head, a).value >= 0 then {a} else {})
  }

  /** An unmatched target that may be merged, with an improvement of at least -1. */
  ghost predicate Candidate(v: nat, a: nat, matched: set<nat>, targets: seq<nat>, best: Improvement) {
    a in targets && a !in matched && best(v, a).Some? && best(v, a).value >= -1
  }

  /** The partner of `g` is the last candidate with the largest improvement; it has none if there is no candidate, or
      if no more groups may be merged. */
  ghost predicate Chosen(g: Group, matched: set<nat>, room: bool, targets: seq<nat>, best: Improvement) {
    match g.tail
    case None => room ==> forall a :: a in targets ==> !Candidate(g.head, a, matched, targets, best)
    case Some(tail) =>
      && room && Candidate(g.head, tail, matched, targets, best) && LastBest(g.head, tail, targets, matched, best)
      && forall a :: Candidate(g.head, a, matched, targets, best) ==> best(g.head, a).value <= best(g.head, tail).value
  }

  /** The first node of `order` that is not matched. */
  ghost predicate Next(v: nat, order: seq<nat>, matched: set<nat>) {
    v !in matched && exists k :: 0 <= k < |order| && order[k] == v && Passed(order, k, matched)
  }

  ghost predicate Passed(order: seq<nat>, k: nat, matched: set<nat>)
    requires k <= |order|
  {
    forall j :: 0 <= j < k ==> order[j] in matched
  }

  /** Every group is formed from the next unmatched head by this choice, given the groups before it. */
  ghost predicate Greedy(groups: seq<Group>, order: seq<nat>, n: nat, targets: nat -> seq<nat>, best: Improvement,
                         minPartitions: nat) {
    forall i :: 0 <= i < |groups| ==> GreedyAt(groups, i, order, n, targets, best, minPartitions)
  }

  ghost predicate GreedyAt(groups: seq<Group>, i: nat, order: seq<nat>, n: nat, targets: nat -> seq<nat>,
                           best: Improvement, minPartitions: nat)
    requires i < |groups|
  {
    var matched := Marked(groups[..i], best);
    && Next(groups[i].head, order, matched)
    && Chosen(groups[i], matched, n - |matched| + i > minPartitions, targets(groups[i].head), best)
  }

  /** The groups that one pass over `order` forms: by this choice, until every node is matched. */
  ghost predicate Formed(groups: seq<Group>, order: seq<nat>, n: nat, targets: nat -> seq<nat>, best: Improvement,
                         minPartitions: nat) {
    Greedy(groups, order, n, targets, best, minPartitions) && forall v :: v in order ==> v in Marked(groups, best)
  }

  lemma GreedyMore(groups: seq<Group>, g: Group, order: seq<nat>, n: nat, targets: nat -> seq<nat>, best: Improvement,
                   minPartitions: nat)
    requires Greedy(groups, order, n, targets, best, minPartitions) && Next(g.head, order, Marked(groups, best))
    requires Chosen(g, Marked(groups, best), n - |Marked(groups, best)| + |groups| > minPartitions,
                    targets(g.head), best)
    ensures Greedy(groups + [g], order, n, targets, best, minPartitions)
    ensures Marked(groups + [g], best) == Marked(groups, best) + MarkedBy(g, best)
  {
    hide Chosen, Next;
    var longer := groups + [g];
    assert longer[..|groups|] == groups;
    forall i | 0 <= i < |longer| ensures GreedyAt(longer, i, order, n, targets, best, minPartitions) {
      if i < |groups| {
        assert GreedyAt(groups, i, order, n, targets, best, minPartitions);
        assert longer[..i] == groups[..i] && longer[i] == groups[i];
      }
    }
  }

  // ---------- mergeAdjacents: the groups are determined ----------

  lemma NextIsOne(v: nat, w: nat, order: seq<nat>, matched: set<nat>)
    requires Next(v, order, matched) && Next(w, order, matched)
    ensures v == w
  {
    var j :| 0 <= j < |order| && order[j] == v && Passed(order, j, matched);
    var k :| 0 <= k < |order| && order[k] == w && Passed(order, k, matched);
  }

  lemma LastBestIsOne(v: nat, a: nat, b: nat, targets: seq<nat>, matched: set<nat>, best: Improvement)
    requires a !in matched && b !in matched && best(v, a).Some? && best(v, a) == best(v, b)
    requires LastBest(v, a, targets, matched, best) && LastBest(v, b, targets, matched, best)
    ensures a == b
  {
    var j :| 0 <= j < |targets| && targets[j] == a &&
      Less(v, targets, j + 1, |targets|, matched, best, best(v, a).value);
    var k :| 0 <= k < |targets| && targets[k] == b &&
      Less(v, targets, k + 1, |targets|, matched, best, best(v, b).value);
  }

  lemma ChosenIfAny(g: Group, matched: set<nat>, room: bool, targets: seq<nat>, best: Improvement)
    requires Chosen(g, matched, room, targets, best)
    ensures g.tail.Some? <==> room && exists a :: Candidate(g.head, a, matched, targets, best)
    ensures g.tail.Some? ==> Candidate(g.head, g.tail.value, matched, targets, best)
  {
  }

  lemma ChosenIsOne(g: Group, h: Group, matched: set<nat>, room: bool, targets: seq<nat>, best: Improvement)
    requires g.head == h.head && Chosen(g, matched, room, targets, best) && Chosen(h, matched, room, targets, best)
    ensures g == h
  {
    ChosenIfAny(g, matched, room, targets, best);
    ChosenIfAny(h, matched, room, targets, best);
    hide LastBest;
    if g.tail.Some? { LastBestIsOne(g.head, g.tail.value, h.tail.value, targets, matched, best); }
  }

  lemma {:induction false} GreedyPrefix(a: seq<Group>, b: seq<Group>, k: nat, order: seq<nat>, n: nat,
                                        targets: nat -> seq<nat>, best: Improvement, minPartitions: nat)
    requires Greedy(a, order, n, targets, best, minPartitions) && Greedy(b, order, n, targets, best, minPartitions)
    requires k <= |a| && k <= |b|
    ensures a[..k] == b[..k]
  {
    if k > 0 {
      GreedyPrefix(a, b, k - 1, order, n, targets, best, minPartitions);
      assert GreedyAt(a, k - 1, order, n, targets, best, minPartitions) &&
        GreedyAt(b, k - 1, order, n, targets, best, minPartitions);
      hide Chosen, Next;
      var matched := Marked(a[..k - 1], best);
      NextIsOne(a[k - 1].head, b[k - 1].head, order, matched);
      ChosenIsOne(a[k - 1], b[k - 1], matched, n - |matched| + (k - 1) > minPartitions, targets(a[k - 1].head), best);
    }
  }

  lemma MoreToForm(a: seq<Group>, b: seq<Group>, order: seq<nat>, n: nat, targets: nat -> seq<nat>, best: Improvement,
                   minPartitions: nat)
    requires Greedy(a, order, n, targets, best, minPartitions) && Greedy(b, order, n, targets, best, minPartitions) &&
             |a| < |b|
    ensures !Formed(a, order, n, targets, best, minPartitions)
  {
    GreedyPrefix(a, b, |a|, order, n, targets, best, minPartitions);
    assert a[..|a|] == a;
    assert GreedyAt(b, |a|, order, n, targets, best, minPartitions);
    assert b[|a|].head in order && b[|a|].head !in Marked(a, best);
  }

  /** The order of the nodes and the improvements determine the groups. */
  lemma FormedIsOne(a: seq<Group>, b: seq<Group>, order: seq<nat>, n: nat, targets: nat -> seq<nat>, best: Improvement,
                    minPartitions: nat)
    requires Formed(a, order, n, targets, best, minPartitions) && Formed(b, order, n, targets, best, minPartitions)
    ensures a == b
  {
    if |a| < |b| { MoreToForm(a, b, order, n, targets, best, minPartitions); }
    if |b| < |a| { MoreToForm(b, a, order, n, targets, best, minPartitions); }
    GreedyPrefix(a, b, |a|, order, n, targets, best, minPartitions);
    assert a == a[..|a|] && b == b[..|b|];
  }

  lemma {:induction false} MarkedHas(groups: seq<Group>, best: Improvement, i: nat)
    requires i < |groups|
    ensures MarkedBy(groups[i], best) <= Marked(groups, best)
  {
    if i < |groups| - 1 { MarkedHas(groups[..|groups| - 1], best, i); }
  }

  /** A node is matched in one group only. */
  lemma MarkedOnce(groups: seq<Group>, i: nat, j: nat, v: nat, order: seq<nat>, n: nat, targets: nat -> seq<nat>,
                   best: Improvement, minPartitions: nat)
    requires Greedy(groups, order, n, targets, best, minPartitions) && i < j < |groups|
    requires v in MarkedBy(groups[i], best)
    ensures v !in MarkedBy(groups[j], best)
  {
    MarkedHas(groups[..j], best, i);
    assert GreedyAt(groups, j, order, n, targets, best, minPartitions);
    assert v in Marked(groups[..j], best);
    var g := groups[j];
    assert g.tail.Some? ==> Candidate(g.head, g.tail.value, Marked(groups[..j], best), targets(g.head), best);
  }

  /** Every node is in as many groups as it has been matched, and once more for every time it was taken without being
      marked. */
  ghost predicate Balanced(groups: seq<Group>, taken: seq<nat>, best: Improvement) {
    forall v: nat :: Count(Members(groups), v) == Count(taken, v) + Count(Unmarked(groups, best), v)
  }

  lemma GroupsSnoc(groups: seq<Group>, g: Group, best: Improvement)
    ensures Members(groups + [g]) == Members(groups) + MembersOf(g)
    ensures Unmarked(groups + [g], best)
         == Unmarked(groups, best) +
         (if g.tail.Some? && best(g.head, g.tail.value) == Some(-1) then [g.tail.value] else [])
  {
    assert (groups + [g])[..|groups|] == groups;
  }

  lemma BalancedMore(groups: seq<Group>, taken: seq<nat>, best: Improvement, v: nat, tail: Option<nat>, value: int)
    requires Balanced(groups, taken, best)
    requires tail.Some? ==> best(v, tail.value) == Some(value) && value >= -1
    requires tail.None? ==> value == -1
    ensures value < 0 ==> Balanced(groups + [Group(v, tail)], taken + [v], best)
    ensures value >= 0 ==> Balanced(groups + [Group(v, tail)], taken + [v] + [tail.value], best)
  {
    var g := Group(v, tail);
    var extra := if tail.Some? && best(v, tail.value) == Some(-1) then [tail.value] else [];
    var more := if value >= 0 then [v] + [tail.value] else [v];
    GroupsSnoc(groups, g, best);
    assert value >= 0 ==> taken + [v] + [tail.value] == taken + more;
    forall w: nat
      ensures Count(Members(groups) + MembersOf(g), w) == Count(taken + more, w) +
              Count(Unmarked(groups, best) + extra, w)
    {
      CountConcat(Members(groups), MembersOf(g), w);
      CountConcat(Unmarked(groups, best), extra, w);
      CountConcat(taken, more, w);
      GroupCount(g, more, extra, w);
    }
  }

  lemma GroupCount(g: Group, more: seq<nat>, extra: seq<nat>, w: nat)
    requires if g.tail.None? then more == [g.head] && extra == []
             else (more == [g.head] && extra == [g.tail.value]) || (more == [g.head] + [g.tail.value] && extra == [])
    ensures Count(MembersOf(g), w) == Count(more, w) + Count(extra, w)
  {
    if g.tail.Some? {
      assert MembersOf(g) == [g.head] + [g.tail.value];
      CountConcat([g.head], [g.tail.value], w);
    }
  }

  /** `v` is filed under the group that it was matched with. */
  ghost predicate InGroup(groups: seq<Group>, names: map<nat, nat>, best: Improvement, v: nat) {
    v in names && names[v] < |groups| && v in MarkedBy(groups[names[v]], best)
  }

  /** Every matched node is. */
  ghost predicate Filed(groups: seq<Group>, names: map<nat, nat>, best: Improvement, matched: set<nat>) {
    names.Keys == matched && forall v :: v in matched ==> InGroup(groups, names, best, v)
  }

  lemma FiledMore(groups: seq<Group>, names: map<nat, nat>, best: Improvement, matched: set<nat>, g: Group, v: nat)
    requires Filed(groups, names, best, matched) && v in MarkedBy(g, best)
    ensures Filed(groups + [g], names[v := |groups|], best, matched + {v})
  {
    var longer := groups + [g];
    hide MarkedBy;
    forall w | w in matched + {v} ensures InGroup(longer, names[v := |groups|], best, w) {
      if w != v { assert InGroup(groups, names, best, w); }
    }
  }

  lemma FiledPair(groups: seq<Group>, names: map<nat, nat>, best: Improvement, matched: set<nat>, g: Group, v: nat,
                  a: nat)
    requires Filed(groups, names, best, matched) && v in MarkedBy(g, best) && a in MarkedBy(g, best)
    ensures Filed(groups + [g], names[v := |groups|][a := |groups|], best, matched + {v} + {a})
  {
    var longer := groups + [g];
    hide MarkedBy;
    forall w | w in matched + {v} + {a} ensures InGroup(longer, names[v := |groups|][a := |groups|], best, w) {
      if w != v && w != a { assert InGroup(groups, names, best, w); }
    }
  }

  /** The nodes taken so far, each once. */
  ghost predicate TakenIs(taken: seq<nat>, matched: set<nat>) {
    forall v: nat :: Count(taken, v) == if v in matched then 1 else 0
  }

  ghost predicate Proper(groups: seq<Group>, n: nat, targets: nat -> seq<nat>) {
    forall i :: 0 <= i < |groups| ==> GroupProper(groups[i], n, targets)
  }

  ghost predicate GroupProper(g: Group, n: nat, targets: nat -> seq<nat>) {
    g.head < n && (g.tail.Some? ==> g.tail.value < n && g.tail.value in targets(g.head))
  }

  ghost predicate TargetsOk(n: nat, targets: nat -> seq<nat>) {
    forall v: nat, a: nat :: v < n && a in targets(v) ==> a < n && a != v
  }

  /** The loop of `mergeAdjacents`: every node ends up in one group, alone or with one successor; a partner taken at
      exactly -1 is in a group once more.  There are never fewer groups than asked for, unless there were fewer
      nodes. */
  method Match(order: seq<nat>, n: nat, targets: nat -> seq<nat>, best: Improvement, minPartitions: nat)
    returns (groups: seq<Group>, names: map<nat, nat>)
    requires IsPermutation(order, n) && TargetsOk(n, targets)
    ensures Balanced(groups, order, best) && Formed(groups, order, n, targets, best, minPartitions)
    ensures Min(minPartitions, n) <= |groups| <= n
    ensures Proper(groups, n, targets)
    ensures forall v: nat :: v < n <==> v in names
    ensures forall v: nat :: v < n ==> InGroup(groups, names, best, v)
  {
    hide TargetsOk, MatchState, Balanced, Proper, InGroup, IsPermutation, Greedy, Formed;
    MatchStart(order, n, targets, best, minPartitions);
    groups, names := [], map[];
    var matched: set<nat> := {};
    ghost var taken: seq<nat> := [];
    for k := 0 to |order|
      invariant MatchState(groups, names, matched, taken, order, n, targets, best, minPartitions)
      invariant forall j :: 0 <= j < k ==> order[j] in matched
    {
      var v := order[k];
      PermutationAt(order, n, k);
      if v !in matched {
        groups, names, matched, taken :=
          MatchNode(groups, names, matched, taken, v, order, n, targets, best, minPartitions);
      }
    }
    MatchDone(groups, names, matched, taken, order, n, targets, best, minPartitions);
  }

  ghost predicate MatchState(groups: seq<Group>, names: map<nat, nat>, matched: set<nat>, taken: seq<nat>,
                             order: seq<nat>, n: nat, targets: nat -> seq<nat>, best: Improvement, minPartitions: nat)
  {
    && TakenIs(taken, matched) && Balanced(groups, taken, best) && Filed(groups, names, best, matched)
    && Below(matched, n) && Proper(groups, n, targets)
    && Sizes(groups, matched, n, minPartitions)
    && matched == Marked(groups, best) && Greedy(groups, order, n, targets, best, minPartitions)
  }

  lemma MatchStart(order: seq<nat>, n: nat, targets: nat -> seq<nat>, best: Improvement, minPartitions: nat)
    ensures MatchState([], map[], {}, [], order, n, targets, best, minPartitions)
  {
  }

  lemma PermutationAt(order: seq<nat>, n: nat, k: nat)
    requires IsPermutation(order, n) && k < |order|
    ensures order[k] < n
  {
    CountIn(order, order[k]);
    assert Count(order, order[k]) > 0;
  }

  ghost predicate Below(s: set<nat>, n: nat) { forall v :: v in s ==> v < n }

  lemma MatchDone(groups: seq<Group>, names: map<nat, nat>, matched: set<nat>, taken: seq<nat>, order: seq<nat>, n: nat,
                  targets: nat -> seq<nat>, best: Improvement, minPartitions: nat)
    requires IsPermutation(order, n) &&
             MatchState(groups, names, matched, taken, order, n, targets, best, minPartitions)
    requires forall j :: 0 <= j < |order| ==> order[j] in matched
    ensures Balanced(groups, order, best) && Proper(groups, n, targets) &&
            Formed(groups, order, n, targets, best, minPartitions)
    ensures Min(minPartitions, n) <= |groups| <= n
    ensures forall v: nat :: v < n <==> v in names
    ensures forall v: nat :: v < n ==> InGroup(groups, names, best, v)
  {
    hide InGroup, Count, Members, Unmarked, Greedy, Marked;
    forall v: nat ensures v in matched <==> v < n {
      if v < n {
        CountIn(order, v);
        var i :| 0 <= i < |order| && order[i] == v;
      }
    }
    FullSet(matched, n);
    assert forall v: nat :: Count(taken, v) == Count(order, v);
  }

  /** One node that is not matched yet. */
  method MatchNode(groups: seq<Group>, names: map<nat, nat>, matched: set<nat>, ghost taken: seq<nat>, v: nat,
                   ghost order: seq<nat>, n: nat, targets: nat -> seq<nat>, best: Improvement, minPartitions: nat)
    returns (groups': seq<Group>, names': map<nat, nat>, matched': set<nat>, ghost taken': seq<nat>)
    requires v < n && Next(v, order, matched) && TargetsOk(n, targets)
    requires MatchState(groups, names, matched, taken, order, n, targets, best, minPartitions)
    ensures MatchState(groups', names', matched', taken', order, n, targets, best, minPartitions)
    ensures matched + {v} <= matched'
  {
    hide MatchState, TargetsOk, TargetsAt, Chosen, MarkedBy;
    TargetsHere(targets, v, n);
    var tail, value := ChooseTail(v, targets(v), n, matched, n - |matched| + |groups| > minPartitions, best);
    groups', names', matched', taken' := groups + [Group(v, tail)], names[v := |groups|], matched + {v}, taken + [v];
    if value >= 0 {
      MatchPair(groups, names, matched, taken, v, order, n, targets, best, minPartitions, tail.value, value,
                names'[tail.value := |groups|]);
      names', matched', taken' := names'[tail.value := |groups|], matched' + {tail.value}, taken' + [tail.value];
    } else {
      MatchAlone(groups, names, matched, taken, v, order, n, targets, best, minPartitions, tail);
    }
  }

  ghost predicate Sizes(groups: seq<Group>, matched: set<nat>, n: nat, minPartitions: nat) {
    |groups| <= |matched| && n - |matched| + |groups| >= Min(minPartitions, n)
  }

  lemma SizesMore(groups: seq<Group>, matched: set<nat>, n: nat, minPartitions: nat, g: Group, v: nat)
    requires Sizes(groups, matched, n, minPartitions) && v !in matched
    ensures Sizes(groups + [g], matched + {v}, n, minPartitions)
  {
  }

  lemma SizesPair(groups: seq<Group>, matched: set<nat>, n: nat, minPartitions: nat, g: Group, v: nat, a: nat)
    requires Sizes(groups, matched, n, minPartitions) && v !in matched && a !in matched && a != v
    requires n - |matched| + |groups| > minPartitions
    ensures Sizes(groups + [g], matched + {v} + {a}, n, minPartitions)
  {
  }

  lemma BelowMore(matched: set<nat>, n: nat, v: nat)
    requires Below(matched, n) && v < n
    ensures Below(matched + {v}, n)
  {
  }

  /** A head whose partner, if any, stays unmarked. */
  lemma MatchAlone(groups: seq<Group>, names: map<nat, nat>, matched: set<nat>, taken: seq<nat>, v: nat,
                   order: seq<nat>, n: nat, targets: nat -> seq<nat>, best: Improvement, minPartitions: nat,
                   tail: Option<nat>)
    requires v < n && Next(v, order, matched) && GroupProper(Group(v, tail), n, targets)
    requires tail.Some? ==> best(v, tail.value) == Some(-1)
    requires Chosen(Group(v, tail), matched, n - |matched| + |groups| > minPartitions, targets(v), best)
    requires MarkedBy(Group(v, tail), best) == {v}
    requires MatchState(groups, names, matched, taken, order, n, targets, best, minPartitions)
    ensures MatchState(groups + [Group(v, tail)], names[v := |groups|], matched + {v}, taken + [v],
                       order, n, targets, best, minPartitions)
  {
    hide Balanced, Filed, TakenIs, Proper, GroupProper, Greedy, Below, Sizes, Marked, MarkedBy, Chosen;
    BalancedMore(groups, taken, best, v, tail, -1);
    FiledMore(groups, names, best, matched, Group(v, tail), v);
    ProperMore(groups, n, targets, Group(v, tail));
    TakenMore(taken, matched, v);
    GreedyMore(groups, Group(v, tail), order, n, targets, best, minPartitions);
    BelowMore(matched, n, v);
    SizesMore(groups, matched, n, minPartitions, Group(v, tail), v);
  }

  lemma ChosenNeedsRoom(groups: seq<Group>, matched: set<nat>, n: nat, minPartitions: nat, g: Group, targets: seq<nat>,
                        best: Improvement)
    requires Chosen(g, matched, n - |matched| + |groups| > minPartitions, targets, best) && g.tail.Some?
    ensures n - |matched| + |groups| > minPartitions
  {
  }

  /** A head with a marked partner. */
  lemma MatchPair(groups: seq<Group>, names: map<nat, nat>, matched: set<nat>, taken: seq<nat>, v: nat, order: seq<nat>,
                  n: nat, targets: nat -> seq<nat>, best: Improvement, minPartitions: nat, a: nat, value: int,
                  names': map<nat, nat>)
    requires names' == names[v := |groups|][a := |groups|]
    requires v < n && a < n && a != v && v !in matched && a !in matched && best(v, a) == Some(value) && value >= 0
    requires GroupProper(Group(v, Some(a)), n, targets) && Next(v, order, matched)
    requires Chosen(Group(v, Some(a)), matched, n - |matched| + |groups| > minPartitions, targets(v), best)
    requires MarkedBy(Group(v, Some(a)), best) == {v} + {a}
    requires MatchState(groups, names, matched, taken, order, n, targets, best, minPartitions)
    ensures MatchState(groups + [Group(v, Some(a))], names', matched + {v} + {a}, taken + [v] + [a],
                       order, n, targets, best, minPartitions)
  {
    var g := Group(v, Some(a));
    hide Next, Balanced, Filed, TakenIs, Proper, GroupProper, Greedy, Below, Sizes, Marked, MarkedBy, Chosen;
    assert Sizes(groups + [g], matched + {v} + {a}, n, minPartitions) by {
      ChosenNeedsRoom(groups, matched, n, minPartitions, g, targets(v), best);
      SizesPair(groups, matched, n, minPartitions, g, v, a);
    }
    assert Balanced(groups + [g], taken + [v] + [a], best) by { BalancedMore(groups, taken, best, v, Some(a), value); }
    assert Filed(groups + [g], names', best, matched + {v} + {a}) by {
      FiledPair(groups, names, best, matched, g, v, a);
    }
    assert Proper(groups + [g], n, targets) by { ProperMore(groups, n, targets, g); }
    assert TakenIs(taken + [v] + [a], matched + {v} + {a}) by {
      TakenMore(taken, matched, v);
      TakenMore(taken + [v], matched + {v}, a);
    }
    assert Below(matched + {v} + {a}, n) by {
      BelowMore(matched, n, v);
      BelowMore(matched + {v}, n, a);
    }
    assert Greedy(groups + [g], order, n, targets, best, minPartitions) &&
      matched + {v} + {a} == Marked(groups + [g], best) by {
      GreedyMore(groups, g, order, n, targets, best, minPartitions);
      assert matched + ({v} + {a}) == matched + {v} + {a};
    }
  }

  ghost predicate TargetsAt(targets: seq<nat>, v: nat, n: nat) { forall a: nat :: a in targets ==> a < n && a != v }

  lemma TargetsHere(targets: nat -> seq<nat>, v: nat, n: nat)
    requires TargetsOk(n, targets) && v < n
    ensures TargetsAt(targets(v), v, n)
  {
  }

  /** The partner of one node. */
  method ChooseTail(v: nat, targets: seq<nat>, n: nat, matched: set<nat>, room: bool, best: Improvement)
    returns (tail: Option<nat>, value: int)
    requires TargetsAt(targets, v, n)
    ensures Chosen(Group(v, tail), matched, room, targets, best)
    ensures tail.Some? ==> tail.value in targets && tail.value < n && tail.value != v && tail.value !in matched
                           && best(v, tail.value) == Some(value) && value >= -1
    ensures tail.None? ==> value == -1
    ensures MarkedBy(Group(v, tail), best) == {v} + (if value >= 0 then {tail.value} else {})
  {
    tail, value := None, -1;
    if room { tail, value := BestSuccessor(v, targets, matched, best); }
  }

  lemma ProperMore(groups: seq<Group>, n: nat, targets: nat -> seq<nat>, g: Group)
    requires Proper(groups, n, targets) && GroupProper(g, n, targets)
    ensures Proper(groups + [g], n, targets)
  {
    hide GroupProper;
  }

  lemma TakenMore(taken: seq<nat>, matched: set<nat>, v: nat)
    requires TakenIs(taken, matched) && v !in matched
    ensures TakenIs(taken + [v], matched + {v})
  {
    forall w: nat ensures Count(taken + [v], w) == if w in matched + {v} then 1 else 0 { CountConcat(taken, [v], w); }
  }

  lemma {:induction false} BoundedSet(s: set<nat>, n: nat)
    requires forall v :: v in s ==> v < n
    ensures |s| <= n
  {
    if n == 0 {
      assert s == {};
    } else if n - 1 in s {
      BoundedSet(s - {n - 1}, n - 1);
    } else {
      BoundedSet(s, n - 1);
    }
  }

  lemma {:induction false} FullSet(s: set<nat>, n: nat)
    requires forall v: nat :: v in s <==> v < n
    ensures |s| == n
  {
    if n == 0 { assert s == {}; } else { FullSet(s - {n - 1}, n - 1); }
  }

  /** No partner is taken at exactly -1. */
  ghost predicate Conserving(groups: seq<Group>, best: Improvement) {
    forall g :: g in groups && g.tail.Some? ==> best(g.head, g.tail.value) != Some(-1)
  }

  lemma {:induction false} UnmarkedNone(groups: seq<Group>, best: Improvement)
    ensures Unmarked(groups, best) == [] <==> Conserving(groups, best)
  {
    if groups != [] {
      UnmarkedNone(groups[..|groups| - 1], best);
      assert groups == groups[..|groups| - 1] + [groups[|groups| - 1]];
    }
  }

  /** Every node is in exactly one group if and only if no partner was taken at exactly -1. */
  lemma OneGroupEachIff(groups: seq<Group>, order: seq<nat>, n: nat, best: Improvement)
    requires Balanced(groups, order, best) && IsPermutation(order, n)
    ensures (forall v: nat :: Count(Members(groups), v) == if v < n then 1 else 0) <==> Conserving(groups, best)
  {
    UnmarkedNone(groups, best);
    var extra := Unmarked(groups, best);
    if extra != [] {
      var v := extra[0];
      CountIn(extra, v);
      assert Count(Members(groups), v) == Count(order, v) + Count(extra, v);
    }
  }

  // ---------- mergeAdjacents: the new level ----------

  predicate GroupInside(g: Group, n: nat) { g.head < n && (g.tail.Some? ==> g.tail.value < n) }

  function TreeOf(nodes: seq<Tree>, g: Group): Tree
    requires GroupInside(g, |nodes|)
  {
    if g.tail.Some? then Pair(nodes[g.head], nodes[g.tail.value]) else Up(nodes[g.head])
  }

  ghost predicate Inside(groups: seq<Group>, n: nat) { forall i :: 0 <= i < |groups| ==> GroupInside(groups[i], n) }

  function Trees(nodes: seq<Tree>, groups: seq<Group>): seq<Tree>
    requires Inside(groups, |nodes|)
  {
    seq(|groups|, i requires 0 <= i < |groups| => TreeOf(nodes, groups[i]))
  }

  /** What `f` counts in the nodes with these indices. */
  function Weigh(f: Tree -> int, nodes: seq<Tree>, xs: seq<nat>): int
    requires forall i :: 0 <= i < |xs| ==> xs[i] < |nodes|
  {
    if xs == [] then 0 else Weigh(f, nodes, xs[..|xs| - 1]) + f(nodes[xs[|xs| - 1]])
  }

  /** The same, node by node. */
  function ByNode(f: Tree -> int, nodes: seq<Tree>, xs: seq<nat>, k: nat): int
    requires k <= |nodes|
  {
    if k == 0 then 0 else ByNode(f, nodes, xs, k - 1) + Count(xs, k - 1) * f(nodes[k - 1])
  }

  lemma {:induction false} ByNodeMore(f: Tree -> int, nodes: seq<Tree>, xs: seq<nat>, k: nat)
    requires k <= |nodes| && xs != []
    ensures var x := xs[|xs| - 1];
            ByNode(f, nodes, xs, k) == ByNode(f, nodes, xs[..|xs| - 1], k) + (if x < k then f(nodes[x]) else 0)
  {
    if k > 0 {
      ByNodeMore(f, nodes, xs, k - 1);
      if xs[|xs| - 1] == k - 1 { MulOneMore(Count(xs[..|xs| - 1], k - 1), f(nodes[k - 1])); }
    }
  }

  lemma {:induction false} WeighByNode(f: Tree -> int, nodes: seq<Tree>, xs: seq<nat>)
    requires forall i :: 0 <= i < |xs| ==> xs[i] < |nodes|
    ensures Weigh(f, nodes, xs) == ByNode(f, nodes, xs, |nodes|)
  {
    if xs == [] {
      ByNodeNone(f, nodes, |nodes|);
    } else {
      WeighByNode(f, nodes, xs[..|xs| - 1]);
      ByNodeMore(f, nodes, xs, |nodes|);
    }
  }

  lemma {:induction false} ByNodeNone(f: Tree -> int, nodes: seq<Tree>, k: nat)
    requires k <= |nodes|
    ensures ByNode(f, nodes, [], k) == 0
  {
    if k > 0 { ByNodeNone(f, nodes, k - 1); }
  }

  lemma {:induction false} ByNodeSum(f: Tree -> int, nodes: seq<Tree>, a: seq<nat>, b: seq<nat>, c: seq<nat>, k: nat)
    requires k <= |nodes| && forall v: nat :: Count(a, v) == Count(b, v) + Count(c, v)
    ensures ByNode(f, nodes, a, k) == ByNode(f, nodes, b, k) + ByNode(f, nodes, c, k)
  {
    if k > 0 {
      ByNodeSum(f, nodes, a, b, c, k - 1);
      Distribute(Count(b, k - 1), Count(c, k - 1), f(nodes[k - 1]));
    }
  }

  lemma {:induction false} ByNodeOnce(f: Tree -> int, nodes: seq<Tree>, order: seq<nat>, k: nat)
    requires k <= |nodes| && IsPermutation(order, |nodes|)
    ensures ByNode(f, nodes, order, k) == Total(f, nodes[..k])
  {
    if k > 0 {
      ByNodeOnce(f, nodes, order, k - 1);
      assert nodes[..k][..k - 1] == nodes[..k - 1];
    }
  }

  lemma {:induction false} MembersInside(groups: seq<Group>, n: nat, best: Improvement)
    requires Inside(groups, n)
    ensures forall i :: 0 <= i < |Members(groups)| ==> Members(groups)[i] < n
    ensures forall i :: 0 <= i < |Unmarked(groups, best)| ==> Unmarked(groups, best)[i] < n
  {
    if groups != [] {
      MembersInside(groups[..|groups| - 1], n, best);
      assert GroupInside(groups[|groups| - 1], n);
    }
  }

  lemma {:induction false} WeighConcat(f: Tree -> int, nodes: seq<Tree>, a: seq<nat>, b: seq<nat>)
    requires (forall i :: 0 <= i < |a| ==> a[i] < |nodes|) && forall i :: 0 <= i < |b| ==> b[i] < |nodes|
    ensures Weigh(f, nodes, a + b) == Weigh(f, nodes, a) + Weigh(f, nodes, b)
  {
    if b == [] {
      assert a + b == a;
    } else {
      assert (a + b)[..|a + b| - 1] == a + b[..|b| - 1];
      WeighConcat(f, nodes, a, b[..|b| - 1]);
    }
  }

  lemma TreeWeight(f: Tree -> int, nodes: seq<Tree>, g: Group)
    requires Additive(f) && GroupInside(g, |nodes|)
    ensures f(TreeOf(nodes, g)) == Weigh(f, nodes, MembersOf(g))
  {
    if g.tail.Some? {
      assert MembersOf(g) == [g.head] + [g.tail.value];
      WeighConcat(f, nodes, [g.head], [g.tail.value]);
    }
  }

  lemma TreesSnoc(f: Tree -> int, nodes: seq<Tree>, groups: seq<Group>, g: Group)
    requires Inside(groups, |nodes|) && GroupInside(g, |nodes|)
    ensures Inside(groups + [g], |nodes|)
    ensures Total(f, Trees(nodes, groups + [g])) == Total(f, Trees(nodes, groups)) + f(TreeOf(nodes, g))
  {
    assert Trees(nodes, groups + [g])[..|groups|] == Trees(nodes, groups);
  }

  /** What is counted in the new nodes is what is counted in the members. */
  lemma {:induction false} TreesWeight(f: Tree -> int, nodes: seq<Tree>, groups: seq<Group>)
    requires Additive(f) && Inside(groups, |nodes|)
    ensures forall i :: 0 <= i < |Members(groups)| ==> Members(groups)[i] < |nodes|
    ensures Total(f, Trees(nodes, groups)) == Weigh(f, nodes, Members(groups))
  {
    MembersInside(groups, |nodes|, (v: nat, a: nat) => None);
    if groups != [] {
      var front, g := groups[..|groups| - 1], groups[|groups| - 1];
      assert groups == front + [g] && GroupInside(g, |nodes|);
      TreesWeight(f, nodes, front);
      TreeWeight(f, nodes, g);
      TreesSnoc(f, nodes, front, g);
      hide Weigh, Additive, Trees, Total, TreeOf;
      WeighConcat(f, nodes, Members(front), MembersOf(g));
    }
  }

  /** The exact law: a new level counts what the old one counted, and once more whatever was taken at exactly -1. */
  lemma LevelLaw(f: Tree -> int, nodes: seq<Tree>, groups: seq<Group>, order: seq<nat>, best: Improvement)
    requires Additive(f) && Inside(groups, |nodes|) && IsPermutation(order, |nodes|) && Balanced(groups, order, best)
    ensures forall i :: 0 <= i < |Unmarked(groups, best)| ==> Unmarked(groups, best)[i] < |nodes|
    ensures Total(f, Trees(nodes, groups)) == Total(f, nodes) + Weigh(f, nodes, Unmarked(groups, best))
  {
    MembersInside(groups, |nodes|, best);
    var extra := Unmarked(groups, best);
    TreesWeight(f, nodes, groups);
    WeighByNode(f, nodes, Members(groups));
    WeighByNode(f, nodes, extra);
    ByNodeSum(f, nodes, Members(groups), order, extra, |nodes|);
    ByNodeOnce(f, nodes, order, |nodes|);
    assert nodes[..|nodes|] == nodes;
  }

  // ---------- one level and all levels ----------

  /** Evaluations of a level: the order in which nodes are visited, and what merging two of them improves. */
  datatype Profile = Profile(order: MLGraph -> seq<nat>, improvement: (MLGraph, nat, nat) -> Option<int>) {
    ghost predicate Valid() { forall g: MLGraph :: IsPermutation(order(g), |g.nodes|) }

    /** No improvement is exactly -1. */
    ghost predicate NeverMinusOne() { forall g: MLGraph, v: nat, a: nat :: improvement(g, v, a) != Some(-1) }
  }

  function Successors(edges: seq<(nat, nat)>, v: nat): seq<nat> {
    if edges == [] then []
    else Successors(edges[..|edges| - 1], v) + (if edges[|edges| - 1].0 == v then [edges[|edges| - 1].1] else [])
  }

  lemma {:induction false} SuccessorsAre(edges: seq<(nat, nat)>, v: nat, a: nat)
    ensures a in Successors(edges, v) <==> (v, a) in edges
  {
    if edges != [] {
      SuccessorsAre(edges[..|edges| - 1], v, a);
      assert edges == edges[..|edges| - 1] + [edges[|edges| - 1]];
    }
  }

  /** The same total size, and the same leaves. */
  ghost predicate SameLeaves(g: MLGraph, g': MLGraph) {
    Total(Size, g'.nodes) == Total(Size, g.nodes)
    && forall name :: Total(OccursIn(name), g'.nodes) == Total(OccursIn(name), g.nodes)
  }

  function TargetsOf(g: MLGraph): nat -> seq<nat> { (v: nat) => Successors(g.edges, v) }

  function BestOf(profile: Profile, g: MLGraph): Improvement { (v: nat, a: nat) => profile.improvement(g, v, a) }

  /** `g'` is the next level: its nodes are the groups that one pass forms, and its edges are the edges between
      different groups, where every node counts for the group that it was matched with. */
  ghost predicate LevelBy(g: MLGraph, profile: Profile, minPartitions: nat, g': MLGraph, groups: seq<Group>,
                          names: map<nat, nat>) {
    var best := BestOf(profile, g);
    && Inside(groups, |g.nodes|) && g'.nodes == Trees(g.nodes, groups)
    && Formed(groups, profile.order(g), |g.nodes|, TargetsOf(g), best, minPartitions)
    && Balanced(groups, profile.order(g), best)
    && (forall v: nat :: v < |g.nodes| ==> InGroup(groups, names, best, v))
    && forall p :: p in g'.edges <==> Image(g.edges, names, p)
  }

  ghost predicate IsLevel(g: MLGraph, profile: Profile, minPartitions: nat, g': MLGraph) {
    exists groups, names :: LevelBy(g, profile, minPartitions, g', groups, names)
  }

  /** `mergeAdjacents`. */
  method MergeAdjacents(g: MLGraph, profile: Profile, minPartitions: nat)
    returns (g': MLGraph, ghost groups: seq<Group>, ghost names: map<nat, nat>)
    requires g.Valid() && profile.Valid()
    ensures g'.Valid() && LevelBy(g, profile, minPartitions, g', groups, names)
    ensures forall i, j :: 0 <= i < j < |g'.edges| ==> g'.edges[i] != g'.edges[j]
    ensures forall r :: r in groups && r.tail.Some? ==> (r.head, r.tail.value) in g.edges
    ensures Min(minPartitions, |g.nodes|) <= |g'.nodes| <= |g.nodes|
    ensures SameLeaves(g, g') <==> Conserving(groups, BestOf(profile, g))
    ensures profile.NeverMinusOne() ==> SameLeaves(g, g')
  {
    var best, targets := BestOf(profile, g), TargetsOf(g);
    SuccessorsOk(g);
    var made, filed := Match(profile.order(g), |g.nodes|, targets, best, minPartitions);
    groups, names := made, filed;
    GroupsFollowEdges(g, made, targets);
    NamesCover(g, made, filed, best);
    hide Balanced, Proper, InGroup, IsPermutation, Formed, LevelBy, SameLeaves, Conserving;
    var edges := MergeEdges(g.edges, filed);
    g' := MLGraph(Trees(g.nodes, made), edges);
    IsNextLevel(g, profile, minPartitions, g', made, filed);
    LeavesKeptIff(g, made, profile.order(g), best, g');
    if profile.NeverMinusOne() { NoneAtMinusOne(made, best); }
  }

  lemma IsNextLevel(g: MLGraph, profile: Profile, minPartitions: nat, g': MLGraph, groups: seq<Group>,
                    names: map<nat, nat>)
    requires Inside(groups, |g.nodes|) && g'.nodes == Trees(g.nodes, groups)
    requires Formed(groups, profile.order(g), |g.nodes|, TargetsOf(g), BestOf(profile, g), minPartitions)
    requires Balanced(groups, profile.order(g), BestOf(profile, g))
    requires forall v: nat :: v < |g.nodes| ==> InGroup(groups, names, BestOf(profile, g), v)
    requires forall p :: p in g'.edges <==> Image(g.edges, names, p)
    ensures LevelBy(g, profile, minPartitions, g', groups, names)
  {
    hide Formed, Balanced, InGroup, Image, Inside;
  }

  lemma NoneAtMinusOne(groups: seq<Group>, best: Improvement)
    requires forall v: nat, a: nat :: best(v, a) != Some(-1)
    ensures Conserving(groups, best)
  {
  }

  lemma SuccessorsOk(g: MLGraph)
    requires g.Valid()
    ensures TargetsOk(|g.nodes|, TargetsOf(g))
  {
    forall v: nat, a: nat | v < |g.nodes| && a in Successors(g.edges, v)
      ensures a < |g.nodes| && a != v
    {
      SuccessorsAre(g.edges, v, a);
    }
  }

  lemma GroupsFollowEdges(g: MLGraph, groups: seq<Group>, targets: nat -> seq<nat>)
    requires Proper(groups, |g.nodes|, targets) && targets == TargetsOf(g)
    ensures Inside(groups, |g.nodes|) && forall r :: r in groups && r.tail.Some? ==> (r.head, r.tail.value) in g.edges
  {
    forall r | r in groups && r.tail.Some?
      ensures (r.head, r.tail.value) in g.edges
    {
      SuccessorsAre(g.edges, r.head, r.tail.value);
    }
  }

  lemma NamesCover(g: MLGraph, groups: seq<Group>, names: map<nat, nat>, best: Improvement)
    requires g.Valid() && forall v: nat :: v < |g.nodes| ==> v in names && InGroup(groups, names, best, v)
    ensures forall e :: e in g.edges ==> e.0 in names && e.1 in names && names[e.0] < |groups| && names[e.1] < |groups|
  {
  }

  lemma {:induction false} SizePositive(t: Tree)
    ensures Size(t) >= 1
  {
    match t
    case Leaf(_) =>
    case Up(sub) => SizePositive(sub);
    case Pair(left, right) => SizePositive(left); SizePositive(right);
  }

  lemma {:induction false} WeighPositive(nodes: seq<Tree>, xs: seq<nat>)
    requires forall i :: 0 <= i < |xs| ==> xs[i] < |nodes|
    ensures Weigh(Size, nodes, xs) >= |xs|
  {
    if xs != [] {
      WeighPositive(nodes, xs[..|xs| - 1]);
      SizePositive(nodes[xs[|xs| - 1]]);
    }
  }

  /** Size and leaves are conserved if and only if no partner was taken at exactly -1. Size never shrinks. */
  lemma LeavesKeptIff(g: MLGraph, groups: seq<Group>, order: seq<nat>, best: Improvement, g': MLGraph)
    requires IsPermutation(order, |g.nodes|) && Inside(groups, |g.nodes|) && Balanced(groups, order, best)
    requires g'.nodes == Trees(g.nodes, groups)
    ensures Total(Size, g.nodes) <= Total(Size, g'.nodes)
    ensures SameLeaves(g, g') <==> Conserving(groups, best)
    ensures SameLeaves(g, g') <==> Total(Size, g.nodes) == Total(Size, g'.nodes)
  {
    UnmarkedNone(groups, best);
    hide IsPermutation, Balanced, Total, Additive, Conserving;
    Additives("");
    LevelLaw(Size, g.nodes, groups, order, best);
    WeighPositive(g.nodes, Unmarked(groups, best));
    if Unmarked(groups, best) == [] {
      forall name ensures Total(OccursIn(name), g'.nodes) == Total(OccursIn(name), g.nodes) {
        Additives(name);
        LevelLaw(OccursIn(name), g.nodes, groups, order, best);
      }
    }
  }

  /** The next level of a graph is determined, up to the order of its edges. */
  lemma LevelIsOne(g: MLGraph, profile: Profile, minPartitions: nat, g1: MLGraph, groups1: seq<Group>,
                   names1: map<nat, nat>, g2: MLGraph, groups2: seq<Group>, names2: map<nat, nat>)
    requires g.Valid()
    requires LevelBy(g, profile, minPartitions, g1, groups1, names1) &&
             LevelBy(g, profile, minPartitions, g2, groups2, names2)
    ensures groups1 == groups2 && g1.nodes == g2.nodes && forall p :: p in g1.edges <==> p in g2.edges
  {
    var best, order, targets := BestOf(profile, g), profile.order(g), TargetsOf(g);
    FormedIsOne(groups1, groups2, order, |g.nodes|, targets, best, minPartitions);
    forall v: nat | v < |g.nodes| ensures v in names1 && v in names2 && names1[v] == names2[v] {
      assert InGroup(groups1, names1, best, v) && InGroup(groups1, names2, best, v);
      var i, j := names1[v], names2[v];
      if i < j { MarkedOnce(groups1, i, j, v, order, |g.nodes|, targets, best, minPartitions); }
      if j < i { MarkedOnce(groups1, j, i, v, order, |g.nodes|, targets, best, minPartitions); }
    }
    hide Formed, Balanced, InGroup;
    forall p ensures p in g1.edges <==> p in g2.edges { SameImage(g, names1, names2, p); }
  }

  lemma SameImage(g: MLGraph, a: map<nat, nat>, b: map<nat, nat>, p: (nat, nat))
    requires g.Valid() && forall v: nat :: v < |g.nodes| ==> v in a && v in b && a[v] == b[v]
    ensures Image(g.edges, a, p) <==> Image(g.edges, b, p)
  {
  }

  /** One more level would have as many nodes. */
  ghost predicate Settled(g: MLGraph, profile: Profile, minPartitions: nat) {
    exists g' :: IsLevel(g, profile, minPartitions, g') && |g'.nodes| == |g.nodes|
  }

  /** Each graph is the next level of the one before it, as long as that is not small; a level that does not reach the
      minimum is smaller than the one before it. */
  ghost predicate Levels(levels: seq<MLGraph>, profile: Profile, minPartitions: nat) {
    forall i :: 0 <= i < |levels| - 1 ==> NextLevel(levels[i], profile, minPartitions, levels[i + 1])
  }

  ghost predicate NextLevel(g: MLGraph, profile: Profile, minPartitions: nat, g': MLGraph) {
    |g.nodes| > 3 && IsLevel(g, profile, minPartitions, g') && (|g'.nodes| > minPartitions ==> |g'.nodes| < |g.nodes|)
  }

  /** `sub` is a part of `t`. */
  ghost predicate PartOf(sub: Tree, t: Tree) {
    sub == t || match t
                case Leaf(_) => false
                case Up(s) => PartOf(sub, s)
                case Pair(left, right) => PartOf(sub, left) || PartOf(sub, right)
  }

  lemma {:induction false} PartOfPart(a: Tree, b: Tree, c: Tree)
    requires PartOf(a, b) && PartOf(b, c)
    ensures PartOf(a, c)
  {
    if b != c {
      match c
      case Leaf(_) =>
      case Up(s) => PartOfPart(a, b, s);
      case Pair(left, right) => if PartOf(b, left) { PartOfPart(a, b, left); } else { PartOfPart(a, b, right); }
    }
  }

  /** Every node of `g` is part of the node of `last` that it is at home in, and the edges of `last` are those of `g`
      between different homes. */
  ghost predicate Housed(g: MLGraph, last: MLGraph, home: map<nat, nat>) {
    && (forall v: nat :: v < |g.nodes| ==>
          v in home && home[v] < |last.nodes| && PartOf(g.nodes[v], last.nodes[home[v]]))
    && forall p :: p in last.edges <==> Image(g.edges, home, p)
  }

  function Composed(home: map<nat, nat>, names: map<nat, nat>): map<nat, nat> {
    map v | v in home && home[v] in names :: names[home[v]]
  }

  lemma ImageTwice(g: MLGraph, mid: seq<(nat, nat)>, home: map<nat, nat>, names: map<nat, nat>, p: (nat, nat))
    requires forall q :: q in mid <==> Image(g.edges, home, q)
    requires forall e :: e in g.edges ==> e.0 in home && e.1 in home && home[e.0] in names && home[e.1] in names
    ensures Image(mid, names, p) <==> Image(g.edges, Composed(home, names), p)
  {
    var both := Composed(home, names);
    if Image(mid, names, p) {
      var q :| q in mid && q.0 in names && q.1 in names && names[q.0] == p.0 && names[q.1] == p.1;
      var e :| e in g.edges && e.0 in home && e.1 in home && home[e.0] == q.0 && home[e.1] == q.1;
      assert both[e.0] == p.0 && both[e.1] == p.1;
    }
    if Image(g.edges, both, p) {
      var e :| e in g.edges && e.0 in both && e.1 in both && both[e.0] == p.0 && both[e.1] == p.1;
      var q := (home[e.0], home[e.1]);
      assert Image(g.edges, home, q);
    }
  }

  lemma MatchedPart(nodes: seq<Tree>, groups: seq<Group>, names: map<nat, nat>, best: Improvement, v: nat)
    requires Inside(groups, |nodes|) && v < |nodes| && InGroup(groups, names, best, v)
    ensures PartOf(nodes[v], Trees(nodes, groups)[names[v]])
  {
    assert GroupInside(groups[names[v]], |nodes|);
  }

  lemma HousedNext(g: MLGraph, mid: MLGraph, home: map<nat, nat>, profile: Profile, minPartitions: nat, g': MLGraph,
                   groups: seq<Group>, names: map<nat, nat>)
    requires g.Valid() && Housed(g, mid, home) && LevelBy(mid, profile, minPartitions, g', groups, names)
    ensures Housed(g, g', Composed(home, names))
  {
    var best := BestOf(profile, mid);
    hide Formed, Image;
    forall v: nat | v < |g.nodes|
      ensures home[v] in names && names[home[v]] < |g'.nodes| && PartOf(g.nodes[v], g'.nodes[names[home[v]]])
    {
      assert InGroup(groups, names, best, home[v]);
      MatchedPart(mid.nodes, groups, names, best, home[v]);
      PartOfPart(g.nodes[v], mid.nodes[home[v]], g'.nodes[names[home[v]]]);
    }
    forall p
      ensures p in g'.edges <==> Image(g.edges, Composed(home, names), p)
    {
      ImageTwice(g, mid.edges, home, names, p);
    }
  }

  function Identity(n: nat): (same: map<nat, nat>)
    ensures forall v: nat :: (v in same <==> v < n) && (v < n ==> same[v] == v)
  {
    if n == 0 then map[] else Identity(n - 1)[n - 1 := n - 1]
  }

  lemma HousedAtStart(g: MLGraph)
    requires g.Valid()
    ensures Housed(g, g, Identity(|g.nodes|))
  {
    forall p ensures p in g.edges <==> Image(g.edges, Identity(|g.nodes|), p) {
      if Image(g.edges, Identity(|g.nodes|), p) {
        var e :| e in g.edges && Identity(|g.nodes|)[e.0] == p.0 && Identity(|g.nodes|)[e.1] == p.1;
        assert e == p;
      }
    }
  }

  lemma LevelsMore(levels: seq<MLGraph>, profile: Profile, minPartitions: nat, g': MLGraph)
    requires Levels(levels, profile, minPartitions)
    requires levels != [] ==> NextLevel(levels[|levels| - 1], profile, minPartitions, g')
    ensures Levels(levels + [g'], profile, minPartitions)
  {
    hide NextLevel;
  }

  /** The level after `g` conserves size and leaves. */
  ghost predicate ConservingLevel(g: MLGraph, profile: Profile, minPartitions: nat, g': MLGraph) {
    exists groups, names ::
      LevelBy(g, profile, minPartitions, g', groups, names) && Conserving(groups, BestOf(profile, g))
  }

  lemma LevelConserves(g: MLGraph, profile: Profile, minPartitions: nat, g': MLGraph)
    requires profile.Valid() && IsLevel(g, profile, minPartitions, g')
    ensures Total(Size, g.nodes) <= Total(Size, g'.nodes)
    ensures SameLeaves(g, g') <==> ConservingLevel(g, profile, minPartitions, g')
    ensures SameLeaves(g, g') <==> Total(Size, g.nodes) == Total(Size, g'.nodes)
  {
    var groups, names :| LevelBy(g, profile, minPartitions, g', groups, names);
    ConservesBy(g, profile, minPartitions, g', groups, names);
    hide LevelBy, Total, Conserving;
    if ConservingLevel(g, profile, minPartitions, g') {
      var others, filed :| LevelBy(g, profile, minPartitions, g', others, filed) &&
        Conserving(others, BestOf(profile, g));
      ConservesBy(g, profile, minPartitions, g', others, filed);
    }
  }

  lemma ConservesBy(g: MLGraph, profile: Profile, minPartitions: nat, g': MLGraph, groups: seq<Group>,
                    names: map<nat, nat>)
    requires profile.Valid() && LevelBy(g, profile, minPartitions, g', groups, names)
    ensures Total(Size, g.nodes) <= Total(Size, g'.nodes)
    ensures SameLeaves(g, g') <==> Conserving(groups, BestOf(profile, g))
    ensures SameLeaves(g, g') <==> Total(Size, g.nodes) == Total(Size, g'.nodes)
  {
    hide Balanced, Formed, Inside, InGroup, IsPermutation, Conserving, Total;
    LeavesKeptIff(g, groups, profile.order(g), BestOf(profile, g), g');
  }

  /** Size and leaves are conserved over all levels if and only if every level conserves them. */
  lemma {:induction false} LevelsConserveIff(levels: seq<MLGraph>, profile: Profile, minPartitions: nat, k: nat)
    requires profile.Valid() && Levels(levels, profile, minPartitions) && k < |levels|
    ensures Total(Size, levels[0].nodes) <= Total(Size, levels[k].nodes)
    ensures SameLeaves(levels[0], levels[k]) <==> Total(Size, levels[0].nodes) == Total(Size, levels[k].nodes)
    ensures SameLeaves(levels[0], levels[k]) <==>
            forall i :: 0 <= i < k ==> ConservingLevel(levels[i], profile, minPartitions, levels[i + 1])
  {
    if k > 0 {
      LevelsConserveIff(levels, profile, minPartitions, k - 1);
      assert NextLevel(levels[k - 1], profile, minPartitions, levels[k]);
      LevelConserves(levels[k - 1], profile, minPartitions, levels[k]);
      assert levels[k - 1 + 1] == levels[k];
      hide ConservingLevel, Total;
    }
  }

  /** `coarsen`: levels are added until the number of nodes stays the same, is small, or reaches the minimum.  It
      always ends, never with fewer nodes than asked for, and loses or repeats nothing if and only if no level takes a
      partner at exactly -1.  Whatever the levels, the edges of the last one are the edges of the first between
      different nodes of the last. */
  method Coarsen(g: MLGraph, profile: Profile, minPartitions: nat)
    returns (last: MLGraph, ghost levels: seq<MLGraph>, ghost home: map<nat, nat>)
    requires g.Valid() && profile.Valid()
    ensures last.Valid() && Min(minPartitions, |g.nodes|) <= |last.nodes| <= |g.nodes|
    ensures |levels| > 0 && levels[0] == g && levels[|levels| - 1] == last && Levels(levels, profile, minPartitions)
    ensures |last.nodes| <= 3 || (|levels| > 1 && |last.nodes| <= minPartitions) ||
            Settled(last, profile, minPartitions)
    ensures Housed(g, last, home)
    ensures SameLeaves(g, last) <==>
            forall i :: 0 <= i < |levels| - 1 ==> ConservingLevel(levels[i], profile, minPartitions, levels[i + 1])
    ensures profile.NeverMinusOne() ==> SameLeaves(g, last)
  {
    hide SameLeaves, Housed, LevelBy, Levels;
    last, levels, home := MLGraph([], []), [], map[];
    var current := g;
    ghost var at := Identity(|g.nodes|);
    HousedAtStart(g);
    NoLevels(g, profile, minPartitions);
    while |last.nodes| != |current.nodes|
      invariant last.Valid() && current.Valid()
      invariant Min(minPartitions, |g.nodes|) <= |current.nodes| <= |g.nodes|
      invariant Housed(g, current, at)
      invariant Levels(levels, profile, minPartitions)
      invariant if levels == [] then current == g && last.nodes == []
                else
                  && levels[0] == g && levels[|levels| - 1] == last
                  && Housed(g, last, home)
                  && |last.nodes| > 3 && |current.nodes| <= |last.nodes| <= |g.nodes|
                  && |current.nodes| > minPartitions && IsLevel(last, profile, minPartitions, current)
      decreases |current.nodes| + (if |last.nodes| == |current.nodes| then 0 else 1)
    {
      LevelsMore(levels, profile, minPartitions, current);
      last, levels, home := current, levels + [current], at;
      if |last.nodes| <= 3 { break; }
      ghost var groups, names;
      current, groups, names := MergeAdjacents(current, profile, minPartitions);
      assert IsLevel(last, profile, minPartitions, current);
      HousedNext(g, last, home, profile, minPartitions, current, groups, names);
      at := Composed(home, names);
      if |current.nodes| <= minPartitions {
        LevelsMore(levels, profile, minPartitions, current);
        last, levels, home := current, levels + [current], at;
        break;
      }
    }
    if levels == [] {
      EmptyGraph(g);
      EmptyGraph(last);
      levels, home := [g], at;
    }
    hide ConservingLevel;
    LevelsConserveIff(levels, profile, minPartitions, |levels| - 1);
    if profile.NeverMinusOne() { NeverConserves(levels, profile, minPartitions); }
  }

  lemma NeverConserves(levels: seq<MLGraph>, profile: Profile, minPartitions: nat)
    requires Levels(levels, profile, minPartitions) && profile.NeverMinusOne()
    ensures forall i :: 0 <= i < |levels| - 1 ==> ConservingLevel(levels[i], profile, minPartitions, levels[i + 1])
  {
    forall i | 0 <= i < |levels| - 1 ensures ConservingLevel(levels[i], profile, minPartitions, levels[i + 1]) {
      assert NextLevel(levels[i], profile, minPartitions, levels[i + 1]);
      var groups, names :| LevelBy(levels[i], profile, minPartitions, levels[i + 1], groups, names);
      hide LevelBy;
      NoneAtMinusOne(groups, BestOf(profile, levels[i]));
    }
  }

  lemma NoLevels(g: MLGraph, profile: Profile, minPartitions: nat)
    ensures Levels([], profile, minPartitions) && Levels([g], profile, minPartitions)
  {
  }

  lemma FirstEdge(edges: seq<(nat, nat)>)
    ensures edges == [] || exists e :: e in edges
  {
    if edges != [] { assert edges[0] in edges; }
  }

  lemma EmptyGraph(g: MLGraph)
    requires g.Valid() && g.nodes == []
    ensures g == MLGraph([], [])
  {
    FirstEdge(g.edges);
  }

  // ---------- a partner taken at exactly -1 ----------

  function Upto(n: nat): seq<nat> { if n == 0 then [] else Upto(n - 1) + [n - 1] }

  lemma {:induction false} UptoIsPermutation(n: nat)
    ensures IsPermutation(Upto(n), n)
  {
    if n > 0 {
      UptoIsPermutation(n - 1);
      forall v: nat ensures Count(Upto(n), v) == if v < n then 1 else 0 {
        assert Count(Upto(n - 1), v) == if v < n - 1 then 1 else 0;
        assert Upto(n)[..|Upto(n)| - 1] == Upto(n - 1);
      }
    }
  }

  function MinusOne(): Profile { Profile((g: MLGraph) => Upto(|g.nodes|), (g: MLGraph, v: nat, a: nat) => Some(-1)) }

  function TwoLayers(): MLGraph { MLGraph([Leaf("a"), Leaf("b")], [(0, 1)]) }

  lemma PairFirst(order: seq<nat>, targets: nat -> seq<nat>, best: Improvement)
    requires order == [0, 1] && targets(0) == [1] && best(0, 1) == Some(-1)
    ensures Next(0, order, {}) && Chosen(Group(0, Some(1)), {}, true, targets(0), best)
  {
    assert order[0] == 0 && Passed(order, 0, {});
    assert targets(0)[0] == 1 && Less(0, targets(0), 1, 1, {}, best, -1);
    assert LastBest(0, 1, targets(0), {}, best);
  }

  lemma ThenAlone(order: seq<nat>, targets: nat -> seq<nat>, best: Improvement)
    requires order == [0, 1] && targets(1) == []
    ensures Next(1, order, {0}) && Chosen(Group(1, None), {0}, true, targets(1), best)
  {
    assert order[1] == 1 && Passed(order, 1, {0});
  }

  lemma PairThenAlone(order: seq<nat>, targets: nat -> seq<nat>, best: Improvement)
    requires order == [0, 1] && targets(0) == [1] && targets(1) == [] && best(0, 1) == Some(-1)
    ensures Formed([Group(0, Some(1)), Group(1, None)], order, 2, targets, best, 0)
  {
    var pair, alone := Group(0, Some(1)), Group(1, None);
    PairFirst(order, targets, best);
    ThenAlone(order, targets, best);
    hide Next, Chosen;
    GreedyMore([], pair, order, 2, targets, best, 0);
    assert [] + [pair] == [pair] && {} + MarkedBy(pair, best) == {0};
    GreedyMore([pair], alone, order, 2, targets, best, 0);
    assert [pair] + [alone] == [pair, alone] && {0} + MarkedBy(alone, best) == {0, 1};
  }

  lemma TwoLayersInOrder()
    ensures Upto(2) == [0, 1] && TargetsOf(TwoLayers())(0) == [1] && TargetsOf(TwoLayers())(1) == []
  {
    assert Upto(1) == [0];
    assert TwoLayers().edges[..0] == [];
  }

  /** Two layers, and merging them improves by exactly -1: the next level holds the second layer twice. */
  lemma MinusOneCountsTwice(g': MLGraph)
    requires IsLevel(TwoLayers(), MinusOne(), 0, g')
    ensures MinusOne().Valid() && TwoLayers().Valid()
    ensures g'.nodes == [Pair(Leaf("a"), Leaf("b")), Up(Leaf("b"))]
    ensures Total(OccursIn("b"), TwoLayers().nodes) == 1 && Total(OccursIn("b"), g'.nodes) == 2
    ensures Total(Size, TwoLayers().nodes) == 2 && Total(Size, g'.nodes) == 3
  {
    forall g: MLGraph ensures IsPermutation(MinusOne().order(g), |g.nodes|) { UptoIsPermutation(|g.nodes|); }
    var g := TwoLayers();
    var groups, names :| LevelBy(g, MinusOne(), 0, g', groups, names);
    TwoLayersInOrder();
    PairThenAlone(Upto(2), TargetsOf(g), BestOf(MinusOne(), g));
    FormedIsOne(groups, [Group(0, Some(1)), Group(1, None)], Upto(2), 2, TargetsOf(g), BestOf(MinusOne(), g), 0);
    hide LevelBy, IsPermutation;
    assert g'.nodes[..1] == [g'.nodes[0]] && g.nodes[..1] == [g.nodes[0]];
  }

  // ---------- mergeSmall ----------

  function Flat(t: Tree): seq<string> {
    match t
    case Leaf(name) => [name]
    case Up(sub) => Flat(sub)
    case Pair(left, right) => Flat(left) + Flat(right)
  }

  function FlatAll(nodes: seq<Tree>): seq<string> {
    if nodes == [] then [] else FlatAll(nodes[..|nodes| - 1]) + Flat(nodes[|nodes| - 1])
  }

  lemma {:induction false} FlatConcat(a: seq<Tree>, b: seq<Tree>)
    ensures FlatAll(a + b) == FlatAll(a) + FlatAll(b)
  {
    if b == [] {
      assert a + b == a;
    } else {
      assert (a + b)[..|a + b| - 1] == a + b[..|b| - 1];
      FlatConcat(a, b[..|b| - 1]);
    }
  }

  /** Positions at which the original list is cut into consecutive blocks. */
  ghost predicate IsCut(cuts: seq<nat>, n: nat, blocks: nat) {
    && |cuts| == blocks + 1 && cuts[0] == 0 && cuts[blocks] == n
    && forall i, j :: 0 <= i < j <= blocks ==> cuts[i] < cuts[j]
  }

  ghost predicate InBlock(cuts: seq<nat>, j: nat, i: nat) { j + 1 < |cuts| && cuts[j] <= i < cuts[j + 1] }

  ghost predicate EdgeOfBlocks(g: MLGraph, cuts: seq<nat>, p: (nat, nat)) {
    p.0 != p.1 && exists e :: e in g.edges && InBlock(cuts, p.0, e.0) && InBlock(cuts, p.1, e.1)
  }

  ghost predicate BlockLeaves(g: MLGraph, cuts: seq<nat>, t: Tree, j: nat) {
    j + 1 < |cuts| && cuts[j] <= cuts[j + 1] <= |g.nodes| && Flat(t) == FlatAll(g.nodes[cuts[j]..cuts[j + 1]])
  }

  /** `g'` is `g` with consecutive blocks of nodes contracted: each new node has the leaves of its block, in order,
      and there is an edge between two new nodes exactly when there was one between their blocks. */
  ghost predicate Contracts(g: MLGraph, g': MLGraph, cuts: seq<nat>) {
    && IsCut(cuts, |g.nodes|, |g'.nodes|)
    && (forall j :: 0 <= j < |g'.nodes| ==> BlockLeaves(g, cuts, g'.nodes[j], j))
    && (forall p :: p in g'.edges <==> EdgeOfBlocks(g, cuts, p))
  }

  /** Contracting consecutive blocks of a sorted list leaves a sorted list. */
  lemma ContractedIsSorted(g: MLGraph, g': MLGraph, cuts: seq<nat>)
    requires g.Sorted() && Contracts(g, g', cuts)
    ensures g'.Sorted()
  {
    forall p | p in g'.edges ensures p.0 < p.1 < |g'.nodes| {
      assert EdgeOfBlocks(g, cuts, p);
      var e :| e in g.edges && InBlock(cuts, p.0, e.0) && InBlock(cuts, p.1, e.1);
    }
  }

  function Shift(k: nat, i: nat): nat { if i <= k then i else i - 1 }

  /** `cuts'` is `cuts` without the cut between blocks k and k + 1. */
  ghost predicate Dropped(cuts: seq<nat>, cuts': seq<nat>, k: nat) {
    k + 2 < |cuts| && |cuts'| == |cuts| - 1 && cuts' == cuts[..k + 1] + cuts[k + 2..]
  }

  lemma DropCut(cuts: seq<nat>, cuts': seq<nat>, n: nat, blocks: nat, k: nat)
    requires IsCut(cuts, n, blocks) && Dropped(cuts, cuts', k)
    ensures IsCut(cuts', n, blocks - 1)
  {
  }

  lemma BlockDown(cuts: seq<nat>, cuts': seq<nat>, n: nat, k: nat, j: nat, i: nat)
    requires Dropped(cuts, cuts', k) && IsCut(cuts, n, |cuts| - 1) && InBlock(cuts, j, i)
    ensures InBlock(cuts', Shift(k, j), i)
  {
    if j == k { assert cuts'[k + 1] == cuts[k + 2] && cuts[k + 1] < cuts[k + 2]; }
    if j == k + 1 { assert cuts'[k] == cuts[k] && cuts[k] < cuts[k + 1]; }
  }

  lemma BlockUp(cuts: seq<nat>, cuts': seq<nat>, n: nat, k: nat, j: nat, i: nat) returns (j0: nat)
    requires Dropped(cuts, cuts', k) && IsCut(cuts, n, |cuts| - 1) && InBlock(cuts', j, i)
    ensures InBlock(cuts, j0, i) && Shift(k, j0) == j
  {
    if j < k || (j == k && i < cuts[k + 1]) { j0 := j; } else { j0 := j + 1; }
  }

  // ---------- one merge ----------

  /** Nodes k and k + 1 become one. */
  function MergedNodes(nodes: seq<Tree>, k: nat): seq<Tree>
    requires k + 1 < |nodes|
  {
    nodes[..k] + [Pair(nodes[k], nodes[k + 1])] + nodes[k + 2..]
  }

  ghost predicate ShiftedEdges(edges: seq<(nat, nat)>, edges': seq<(nat, nat)>, k: nat) {
    forall p :: p in edges' <==> p.0 != p.1 && exists q :: q in edges && p == (Shift(k, q.0), Shift(k, q.1))
  }

  lemma MergedEdgeDown(g: MLGraph, c: MLGraph, cuts: seq<nat>, cuts': seq<nat>, k: nat, q: (nat, nat))
    requires Contracts(g, c, cuts) && Dropped(cuts, cuts', k) && q in c.edges && Shift(k, q.0) != Shift(k, q.1)
    ensures EdgeOfBlocks(g, cuts', (Shift(k, q.0), Shift(k, q.1)))
  {
    assert EdgeOfBlocks(g, cuts, q) && IsCut(cuts, |g.nodes|, |cuts| - 1);
    hide Contracts, IsCut, Dropped, InBlock, Shift;
    var e :| e in g.edges && InBlock(cuts, q.0, e.0) && InBlock(cuts, q.1, e.1);
    BlockDown(cuts, cuts', |g.nodes|, k, q.0, e.0);
    BlockDown(cuts, cuts', |g.nodes|, k, q.1, e.1);
  }

  lemma MergedEdgeUp(g: MLGraph, c: MLGraph, cuts: seq<nat>, cuts': seq<nat>, k: nat, p: (nat, nat))
    returns (q: (nat, nat))
    requires Contracts(g, c, cuts) && Dropped(cuts, cuts', k) && EdgeOfBlocks(g, cuts', p)
    ensures q in c.edges && p == (Shift(k, q.0), Shift(k, q.1))
  {
    assert IsCut(cuts, |g.nodes|, |cuts| - 1);
    hide IsCut, Dropped, InBlock, Shift;
    var e :| e in g.edges && InBlock(cuts', p.0, e.0) && InBlock(cuts', p.1, e.1);
    var a := BlockUp(cuts, cuts', |g.nodes|, k, p.0, e.0);
    var b := BlockUp(cuts, cuts', |g.nodes|, k, p.1, e.1);
    assert EdgeOfBlocks(g, cuts, (a, b));
    q := (a, b);
  }

  lemma MergedEdgesContract(g: MLGraph, c: MLGraph, cuts: seq<nat>, cuts': seq<nat>, k: nat, edges': seq<(nat, nat)>,
                            p: (nat, nat))
    requires Contracts(g, c, cuts) && Dropped(cuts, cuts', k) && ShiftedEdges(c.edges, edges', k)
    ensures p in edges' <==> EdgeOfBlocks(g, cuts', p)
  {
    hide Contracts, Dropped, Shift;
    assert EdgeOfBlocks(g, cuts', p) ==> p.0 != p.1;
    hide EdgeOfBlocks;
    if p in edges' {
      var q :| q in c.edges && p == (Shift(k, q.0), Shift(k, q.1));
      MergedEdgeDown(g, c, cuts, cuts', k, q);
    }
    if EdgeOfBlocks(g, cuts', p) {
      var q := MergedEdgeUp(g, c, cuts, cuts', k, p);
    }
  }

  lemma CutAt(cuts: seq<nat>, cuts': seq<nat>, k: nat, j: nat)
    requires Dropped(cuts, cuts', k) && j < |cuts'|
    ensures cuts'[j] == cuts[if j <= k then j else j + 1]
  {
  }

  lemma MergedNodeAt(nodes: seq<Tree>, k: nat, j: nat)
    requires k + 1 < |nodes| && j < |nodes| - 1
    ensures |MergedNodes(nodes, k)| == |nodes| - 1
    ensures MergedNodes(nodes, k)[j]
         == if j < k then nodes[j] else if j == k then Pair(nodes[k], nodes[k + 1]) else nodes[j + 1]
  {
  }

  lemma JoinBlocks(nodes: seq<Tree>, a: nat, b: nat, c: nat, left: Tree, right: Tree)
    requires a <= b <= c <= |nodes| && Flat(left) == FlatAll(nodes[a..b]) && Flat(right) == FlatAll(nodes[b..c])
    ensures Flat(Pair(left, right)) == FlatAll(nodes[a..c])
  {
    FlatConcat(nodes[a..b], nodes[b..c]);
    assert nodes[a..b] + nodes[b..c] == nodes[a..c];
  }

  lemma MergedLeavesContract(g: MLGraph, c: MLGraph, cuts: seq<nat>, cuts': seq<nat>, k: nat, j: nat)
    requires Contracts(g, c, cuts) && Dropped(cuts, cuts', k) && j < |c.nodes| - 1
    ensures |MergedNodes(c.nodes, k)| == |c.nodes| - 1 && BlockLeaves(g, cuts', MergedNodes(c.nodes, k)[j], j)
  {
    CutAt(cuts, cuts', k, j);
    CutAt(cuts, cuts', k, j + 1);
    MergedNodeAt(c.nodes, k, j);
    var i := if j <= k then j else j + 1;
    assert BlockLeaves(g, cuts, c.nodes[i], i);
    assert j == k ==> BlockLeaves(g, cuts, c.nodes[k + 1], k + 1);
    hide MergedNodes, FlatAll, Flat, Contracts, Dropped;
    if j == k { JoinBlocks(g.nodes, cuts[k], cuts[k + 1], cuts[k + 2], c.nodes[k], c.nodes[k + 1]); }
  }

  lemma MergedContracts(g: MLGraph, c: MLGraph, cuts: seq<nat>, cuts': seq<nat>, k: nat, edges': seq<(nat, nat)>)
    requires Contracts(g, c, cuts) && Dropped(cuts, cuts', k) && ShiftedEdges(c.edges, edges', k)
    ensures Contracts(g, MLGraph(MergedNodes(c.nodes, k), edges'), cuts')
  {
    DropCut(cuts, cuts', |g.nodes|, |c.nodes|, k);
    forall p
      ensures p in edges' <==> EdgeOfBlocks(g, cuts', p)
    {
      MergedEdgesContract(g, c, cuts, cuts', k, edges', p);
    }
    forall j | 0 <= j < |c.nodes| - 1 ensures BlockLeaves(g, cuts', MergedNodes(c.nodes, k)[j], j) {
      MergedLeavesContract(g, c, cuts, cuts', k, j);
    }
  }

  /** The update of nodes and edges. */
  method MergeNeighbours(c: MLGraph, k: nat) returns (c': MLGraph)
    requires c.Sorted() && k + 1 < |c.nodes|
    ensures c'.nodes == MergedNodes(c.nodes, k) && ShiftedEdges(c.edges, c'.edges, k)
  {
    var nodes: seq<Tree> := [];
    var names: map<nat, nat> := map[];
    var added := false;
    for i := 0 to |c.nodes|
      invariant added == (i > k)
      invariant nodes == if i <= k then c.nodes[..i]
                         else if i == k + 1 then c.nodes[..k] + [Pair(c.nodes[k], c.nodes[k + 1])]
                         else MergedNodes(c.nodes, k)[..i - 1]
      invariant names.Keys == set v: nat | v in names && v < i
      invariant forall v: nat :: v < i ==> v in names && names[v] == Shift(k, v)
    {
      if i == k || i == k + 1 {
        if !added {
          nodes := nodes + [Pair(c.nodes[k], c.nodes[k + 1])];
          added := true;
        }
        names := names[i := |nodes| - 1];
      } else {
        nodes := nodes + [c.nodes[i]];
        names := names[i := |nodes| - 1];
      }
    }
    var edges := MergeEdges(c.edges, names);
    forall p ensures p in edges <==> p.0 != p.1 && exists q :: q in c.edges && p == (Shift(k, q.0), Shift(k, q.1)) {
      ImageIsShift(c, names, k, p);
    }
    c' := MLGraph(nodes, edges);
  }

  lemma ImageIsShift(c: MLGraph, names: map<nat, nat>, k: nat, p: (nat, nat))
    requires c.Sorted() && forall v: nat :: v < |c.nodes| ==> v in names && names[v] == Shift(k, v)
    ensures Image(c.edges, names, p) <==> p.0 != p.1 && exists q :: q in c.edges && p == (Shift(k, q.0), Shift(k, q.1))
  {
  }

  // ---------- the loop ----------

  /** The node at `at` has the least value, and no node before it has the same. */
  predicate FirstSmallest(nodes: seq<Tree>, at: nat, eval: Tree -> int) {
    && at < |nodes| && (forall i :: 0 <= i < |nodes| ==> eval(nodes[at]) <= eval(nodes[i]))
    && forall i :: 0 <= i < at ==> eval(nodes[at]) < eval(nodes[i])
  }

  method Smallest(nodes: seq<Tree>, eval: Tree -> int) returns (at: nat)
    requires nodes != []
    ensures FirstSmallest(nodes, at, eval)
  {
    at := 0;
    for i := 1 to |nodes|
      invariant at < i && forall j :: 0 <= j < i ==> eval(nodes[at]) <= eval(nodes[j])
      invariant forall j :: 0 <= j < at ==> eval(nodes[at]) < eval(nodes[j])
    {
      if eval(nodes[i]) < eval(nodes[at]) { at := i; }
    }
  }

  /** The merge of the node at `at` with the one before or after it is too large for the memory, or there is no
      neighbour. */
  predicate Stuck(nodes: seq<Tree>, at: nat, fits: Tree -> bool)
    requires at < |nodes|
  {
    || (at > 0 && !fits(Pair(nodes[at - 1], nodes[at])))
    || (at + 1 < |nodes| && !fits(Pair(nodes[at], nodes[at + 1])))
    || |nodes| == 1
  }

  /** What nodes `i` and `i + 1` are together. */
  function Together(nodes: seq<Tree>, i: nat): Tree
    requires i + 1 < |nodes|
  {
    Pair(nodes[i], nodes[i + 1])
  }

  /** Nodes `k` and `k + 1` are the node at `at` and the neighbour with which it makes the smaller merge; of two equal
      ones it is the one before. */
  predicate SmallerMerge(nodes: seq<Tree>, at: nat, k: nat, eval: Tree -> int) {
    && at < |nodes| && k + 1 < |nodes| && (k + 1 == at || k == at)
    && (k + 1 == at && at + 1 < |nodes| ==> eval(Together(nodes, at - 1)) <= eval(Together(nodes, at)))
    && (k == at && at > 0 ==> eval(Together(nodes, at)) < eval(Together(nodes, at - 1)))
  }

  /** Which neighbours to merge: the smallest node with the one before it, unless merging it with the one after is
      smaller. */
  method ChooseMerge(nodes: seq<Tree>, eval: Tree -> int, fits: Tree -> bool) returns (k: Option<nat>, at: nat)
    requires nodes != []
    ensures FirstSmallest(nodes, at, eval)
    ensures k.None? <==> Stuck(nodes, at, fits)
    ensures k.Some? ==> SmallerMerge(nodes, at, k.value, eval)
  {
    at := Smallest(nodes, eval);
    k := None;
    if at > 0 {
      if !fits(Pair(nodes[at - 1], nodes[at])) { return; }
      k := Some(at - 1);
    }
    if at + 1 < |nodes| {
      if !fits(Pair(nodes[at], nodes[at + 1])) { return None, at; }
      if k.None? || eval(Pair(nodes[at], nodes[at + 1])) < eval(Pair(nodes[at - 1], nodes[at])) { k := Some(at); }
    }
  }

  /** One merge: of the first smallest node, neither of whose merges is refused, with its better neighbour. */
  ghost predicate MergesSmallest(c: MLGraph, c': MLGraph, eval: Tree -> int, fits: Tree -> bool, at: nat, k: nat) {
    && FirstSmallest(c.nodes, at, eval) && !Stuck(c.nodes, at, fits) && SmallerMerge(c.nodes, at, k, eval)
    && c'.nodes == MergedNodes(c.nodes, k) && ShiftedEdges(c.edges, c'.edges, k)
  }

  ghost predicate SmallStep(c: MLGraph, c': MLGraph, eval: Tree -> int, fits: Tree -> bool) {
    exists at: nat, k: nat :: MergesSmallest(c, c', eval, fits, at, k)
  }

  /** `steps` are the lists that the merging of small nodes goes through so far. */
  ghost predicate SmallSteps(g: MLGraph, steps: seq<MLGraph>, eval: Tree -> int, fits: Tree -> bool, min: nat) {
    && steps != [] && steps[0] == g
    && forall j :: 0 <= j < |steps| - 1 ==> |steps[j].nodes| > min && SmallStep(steps[j], steps[j + 1], eval, fits)
  }

  /** Where it stops: the list is short enough, or the first smallest node is refused a merge. */
  ghost predicate SmallDone(c: MLGraph, eval: Tree -> int, fits: Tree -> bool, min: nat) {
    |c.nodes| <= min || exists at: nat :: FirstSmallest(c.nodes, at, eval) && Stuck(c.nodes, at, fits)
  }

  /** Merging twice by the same rules gives the same nodes at every step. */
  lemma {:induction false} SmallStepsAreOne(g: MLGraph, a: seq<MLGraph>, b: seq<MLGraph>, eval: Tree -> int,
                                            fits: Tree -> bool, min: nat, j: nat)
    requires SmallSteps(g, a, eval, fits, min) && SmallSteps(g, b, eval, fits, min) && j < |a| && j < |b|
    ensures a[j].nodes == b[j].nodes
  {
    if j > 0 {
      SmallStepsAreOne(g, a, b, eval, fits, min, j - 1);
      assert SmallStep(a[j - 1], a[j - 1 + 1], eval, fits) && SmallStep(b[j - 1], b[j - 1 + 1], eval, fits);
      SmallStepIsOne(a[j - 1], a[j], b[j - 1], b[j], eval, fits);
    }
  }

  lemma SmallStepIsOne(a: MLGraph, a': MLGraph, b: MLGraph, b': MLGraph, eval: Tree -> int, fits: Tree -> bool)
    requires a.nodes == b.nodes && SmallStep(a, a', eval, fits) && SmallStep(b, b', eval, fits)
    ensures a'.nodes == b'.nodes
  {
    var at: nat, k: nat :| MergesSmallest(a, a', eval, fits, at, k);
    var at': nat, k': nat :| MergesSmallest(b, b', eval, fits, at', k');
    FirstSmallestIsOne(a.nodes, at, at', eval);
  }

  lemma StepTaken(c: MLGraph, c': MLGraph, eval: Tree -> int, fits: Tree -> bool, at: nat, k: nat)
    requires FirstSmallest(c.nodes, at, eval) && !Stuck(c.nodes, at, fits) && SmallerMerge(c.nodes, at, k, eval)
    requires c'.nodes == MergedNodes(c.nodes, k) && ShiftedEdges(c.edges, c'.edges, k)
    ensures SmallStep(c, c', eval, fits)
  {
    assert MergesSmallest(c, c', eval, fits, at, k);
  }

  lemma FirstSmallestIsOne(nodes: seq<Tree>, a: nat, b: nat, eval: Tree -> int)
    requires FirstSmallest(nodes, a, eval) && FirstSmallest(nodes, b, eval)
    ensures a == b
  {
    assert eval(nodes[a]) == eval(nodes[b]);
  }

  /** So the rules determine the nodes that are left. */
  lemma SmallIsOne(g: MLGraph, a: seq<MLGraph>, b: seq<MLGraph>, eval: Tree -> int, fits: Tree -> bool, min: nat)
    requires SmallSteps(g, a, eval, fits, min) && SmallDone(a[|a| - 1], eval, fits, min)
    requires SmallSteps(g, b, eval, fits, min) && SmallDone(b[|b| - 1], eval, fits, min)
    ensures |a| == |b| && a[|a| - 1].nodes == b[|b| - 1].nodes
  {
    if |a| <= |b| { NoStepAfterDone(g, a, b, eval, fits, min); } else { NoStepAfterDone(g, b, a, eval, fits, min); }
    SmallStepsAreOne(g, a, b, eval, fits, min, |a| - 1);
  }

  lemma NoStepAfterDone(g: MLGraph, a: seq<MLGraph>, b: seq<MLGraph>, eval: Tree -> int, fits: Tree -> bool, min: nat)
    requires SmallSteps(g, a, eval, fits, min) && SmallDone(a[|a| - 1], eval, fits, min)
    requires SmallSteps(g, b, eval, fits, min) && |a| <= |b|
    ensures |a| == |b|
  {
    var j := |a| - 1;
    SmallStepsAreOne(g, a, b, eval, fits, min, j);
    if |a| < |b| {
      hide SmallDone, SmallStep;
      DoneTakesNoStep(a[j], b[j], b[j + 1], eval, fits, min);
    }
  }

  lemma DoneTakesNoStep(c: MLGraph, d: MLGraph, d': MLGraph, eval: Tree -> int, fits: Tree -> bool, min: nat)
    requires c.nodes == d.nodes && SmallDone(c, eval, fits, min) && |d.nodes| > min
    ensures !SmallStep(d, d', eval, fits)
  {
    var at: nat :| FirstSmallest(c.nodes, at, eval) && Stuck(c.nodes, at, fits);
    forall at': nat, k: nat ensures !MergesSmallest(d, d', eval, fits, at', k) {
      if MergesSmallest(d, d', eval, fits, at', k) { FirstSmallestIsOne(c.nodes, at, at', eval); }
    }
  }

  /** `mergeSmall`: as long as there are more nodes than asked for, the first smallest node is merged with its better
      neighbour, until a merge of it is refused. The list is contracted by consecutive blocks and stays sorted, and it
      never gets shorter than asked for. */
  method MergeSmall(g: MLGraph, eval: Tree -> int, fits: Tree -> bool, minPartitions: nat)
    returns (g': MLGraph, ghost cuts: seq<nat>, ghost steps: seq<MLGraph>)
    requires g.Sorted()
    ensures SmallSteps(g, steps, eval, fits, minPartitions) && g' == steps[|steps| - 1]
    ensures SmallDone(g', eval, fits, minPartitions)
    ensures Contracts(g, g', cuts) && g'.Sorted()
    ensures Min(minPartitions, |g.nodes|) <= |g'.nodes| <= |g.nodes|
  {
    g', steps := g, [g];
    cuts := seq(|g.nodes| + 1, i => i);
    ContractsItself(g, cuts);
    hide Contracts, SmallSteps, SmallStep, SmallDone;
    assert SmallSteps(g, steps, eval, fits, minPartitions) by { NoStepsYet(g, eval, fits, minPartitions); }
    while |g'.nodes| > minPartitions
      invariant SmallSteps(g, steps, eval, fits, minPartitions) && steps != [] && g' == steps[|steps| - 1]
      invariant Contracts(g, g', cuts) && g'.Sorted()
      invariant Min(minPartitions, |g.nodes|) <= |g'.nodes| <= |g.nodes|
      decreases |g'.nodes|
    {
      var done, next;
      done, next, cuts := MergeOnce(g, g', cuts, eval, fits, minPartitions);
      if done { return; }
      OneStepMore(g, steps, next, eval, fits, minPartitions);
      g', steps := next, steps + [next];
    }
    assert SmallDone(g', eval, fits, minPartitions) by { ShortIsDone(g', eval, fits, minPartitions); }
  }

  lemma ShortIsDone(c: MLGraph, eval: Tree -> int, fits: Tree -> bool, min: nat)
    requires |c.nodes| <= min
    ensures SmallDone(c, eval, fits, min)
  {
  }

  lemma NoStepsYet(g: MLGraph, eval: Tree -> int, fits: Tree -> bool, min: nat)
    ensures SmallSteps(g, [g], eval, fits, min)
  {
  }

  lemma OneStepMore(g: MLGraph, steps: seq<MLGraph>, next: MLGraph, eval: Tree -> int, fits: Tree -> bool, min: nat)
    requires SmallSteps(g, steps, eval, fits, min) && steps != [] && |steps[|steps| - 1].nodes| > min
    requires SmallStep(steps[|steps| - 1], next, eval, fits)
    ensures SmallSteps(g, steps + [next], eval, fits, min)
  {
    hide SmallStep;
  }

  /** One turn of the loop; `done` is the break. */
  method MergeOnce(g: MLGraph, c: MLGraph, ghost cuts: seq<nat>, eval: Tree -> int, fits: Tree -> bool,
                   ghost min: nat)
    returns (done: bool, c': MLGraph, ghost cuts': seq<nat>)
    requires Contracts(g, c, cuts) && c.Sorted() && c.nodes != [] && g.Sorted()
    ensures Contracts(g, c', cuts') && c'.Sorted()
    ensures done ==> c' == c && SmallDone(c, eval, fits, min)
    ensures !done ==> SmallStep(c, c', eval, fits) && |c'.nodes| == |c.nodes| - 1
  {
    var k, at := ChooseMerge(c.nodes, eval, fits);
    if k.None? { return true, c, cuts; }
    CutsLength(g, c, cuts);
    c' := MergeNeighbours(c, k.value);
    StepTaken(c, c', eval, fits, at, k.value);
    cuts' := cuts[..k.value + 1] + cuts[k.value + 2..];
    done := false;
    hide Contracts, FirstSmallest, SmallerMerge, Stuck, SmallStep;
    MergedContracts(g, c, cuts, cuts', k.value, c'.edges);
    assert c' == MLGraph(MergedNodes(c.nodes, k.value), c'.edges);
    ContractedIsSorted(g, c', cuts');
  }

  lemma CutsLength(g: MLGraph, g': MLGraph, cuts: seq<nat>)
    requires Contracts(g, g', cuts)
    ensures |cuts| == |g'.nodes| + 1
  {
  }

  lemma ContractsItself(g: MLGraph, cuts: seq<nat>)
    requires g.Sorted() && |cuts| == |g.nodes| + 1 && forall i :: 0 <= i < |cuts| ==> cuts[i] == i
    ensures Contracts(g, g, cuts)
  {
    forall p ensures p in g.edges <==> EdgeOfBlocks(g, cuts, p) {
      if p in g.edges { assert InBlock(cuts, p.0, p.0) && InBlock(cuts, p.1, p.1); }
      if EdgeOfBlocks(g, cuts, p) {
        var e :| e in g.edges && InBlock(cuts, p.0, e.0) && InBlock(cuts, p.1, e.1);
        assert e == p;
      }
    }
    forall j | 0 <= j < |g.nodes| ensures BlockLeaves(g, cuts, g.nodes[j], j) {
      assert g.nodes[j..j + 1] == [g.nodes[j]];
      FlatOne(g.nodes[j]);
    }
  }

  lemma FlatOne(t: Tree)
    ensures FlatAll([t]) == Flat(t)
  {
    assert [t][..0] == [] && FlatAll([t][..0]) == [];
  }
}
