/**
 The greatest common divisor of Common.h and the flat allocation of devices to stages
 (`searchAllocationFlat`): the replicas of all stages are laid out in as many equal rounds as the
 replica numbers have in common.
 */
module Allocation {
  import opened Arithmetic
  import T = Staging
  import S = StageSearch

  // ---------- gcd ----------

  ghost predicate Divides(c: int, a: int) { exists k: int :: a == k * c }

  /** `g` is a common divisor, and every common divisor divides it. */
  ghost predicate IsGcd(g: int, a: int, b: int) {
    Divides(g, a) && Divides(g, b) && forall c: int :: Divides(c, a) && Divides(c, b) ==> Divides(c, g)
  }

  ghost predicate SameDivisors(a: int, b: int, x: int, y: int) {
    forall c: int :: Divides(c, a) && Divides(c, b) <==> Divides(c, x) && Divides(c, y)
  }

  function Abs(a: int): nat { if a < 0 then -a else a }

  lemma DividesAbs(c: int, a: int)
    ensures Divides(c, Abs(a)) <==> Divides(c, a)
  {
    if k: int :| Abs(a) == k * c {
      if a < 0 { assert a == (-k) * c; }
    }
    if k: int :| a == k * c {
      if a < 0 { assert Abs(a) == (-k) * c; }
    }
  }

  lemma DividesMod(c: int, a: nat, b: nat)
    requires b > 0 && Divides(c, b)
    ensures Divides(c, a) <==> Divides(c, a % b)
  {
    var k: int :| b == k * c;
    var q := a / b;
    assert a == q * b + a % b;
    assert q * b == (q * k) * c by { MulAssoc(q, k, c); }
    if l: int :| a == l * c {
      assert a % b == (l - q * k) * c by { Distribute(l, -(q * k), c); MulNegative(q * k, c); }
    }
    if l: int :| a % b == l * c {
      assert a == (q * k + l) * c by { Distribute(q * k, l, c); }
    }
  }

  lemma MulNegative(a: int, c: int)
    ensures (-a) * c == -(a * c)
  {
  }

  lemma ModKeepsDivisors(a: nat, b: nat)
    requires b > 0
    ensures SameDivisors(a, b, a % b, b)
  {
    forall c: int ensures Divides(c, a) && Divides(c, b) <==> Divides(c, a % b) && Divides(c, b) {
      if Divides(c, b) { DividesMod(c, a, b); }
    }
  }

  lemma GcdWithZero(g: int, a: int, b: int)
    requires SameDivisors(a, b, g, 0)
    ensures IsGcd(g, a, b)
  {
    assert g == 1 * g && 0 == 0 * g;
    assert Divides(g, g) && Divides(g, 0);
    forall c: int | Divides(c, a) && Divides(c, b) ensures Divides(c, g) { }
  }

  method Gcd(a: int, b: int) returns (g: int)
    ensures g >= 0 && IsGcd(g, a, b)
  {
    var x: nat, y: nat := Abs(a), Abs(b);
    forall c: int ensures (Divides(c, a) <==> Divides(c, x)) && (Divides(c, b) <==> Divides(c, y)) {
      DividesAbs(c, a);
      DividesAbs(c, b);
    }
    hide Divides, IsGcd;
    while y != 0
      invariant SameDivisors(a, b, x, y)
      decreases y
    {
      ModKeepsDivisors(x, y);
      var x' := x % y;
      assert SameDivisors(a, b, x', y);
      if x' == 0 {
        GcdWithZero(y, a, b);
        return y;
      }
      ModKeepsDivisors(y, x');
      x, y := x', y % x';
      assert SameDivisors(a, b, x, y);
    }
    GcdWithZero(x, a, b);
    g := x;
  }

  ghost predicate IsGcdOf(g: int, v: seq<int>) {
    && (forall i :: 0 <= i < |v| ==> Divides(g, v[i]))
    && (forall c: int :: (forall i :: 0 <= i < |v| ==> Divides(c, v[i])) ==> Divides(c, g))
  }

  lemma DividesTransitive(a: int, b: int, c: int)
    requires Divides(a, b) && Divides(b, c)
    ensures Divides(a, c)
  {
    var k: int :| b == k * a;
    var l: int :| c == l * b;
    MulAssoc(l, k, a);
    assert c == (l * k) * a;
  }

  lemma GcdSnoc(g: int, v: seq<int>, x: int, g': int)
    requires IsGcdOf(g, v) && IsGcd(g', g, x)
    ensures IsGcdOf(g', v + [x])
  {
    hide Divides;
    forall i | 0 <= i < |v| + 1 ensures Divides(g', (v + [x])[i]) {
      if i < |v| { DividesTransitive(g', g, v[i]); }
    }
    forall c: int | forall i :: 0 <= i < |v| + 1 ==> Divides(c, (v + [x])[i]) ensures Divides(c, g') {
      forall i | 0 <= i < |v| ensures Divides(c, v[i]) { assert (v + [x])[i] == v[i]; }
      assert (v + [x])[|v|] == x;
    }
  }

  method GcdAll(v: seq<int>) returns (g: int)
    requires |v| >= 1
    ensures IsGcdOf(g, v) && (v[0] >= 0 ==> g >= 0)
  {
    g := v[0];
    assert g == 1 * g;
    hide Divides, IsGcd;
    assert v[..1] == [v[0]];
    assert IsGcdOf(g, v[..1]) by { Alone(g); }
    for i := 1 to |v|
      invariant IsGcdOf(g, v[..i]) && (v[0] >= 0 ==> g >= 0)
    {
      var g' := Gcd(g, v[i]);
      GcdSnoc(g, v[..i], v[i], g');
      assert v[..i + 1] == v[..i] + [v[i]];
      g := g';
    }
    assert v[..|v|] == v;
  }

  lemma Alone(g: int)
    ensures IsGcdOf(g, [g])
  {
    assert g == 1 * g;
    forall c: int | forall i :: 0 <= i < |[g]| ==> Divides(c, [g][i]) ensures Divides(c, g) { assert [g][0] == g; }
  }

  // ---------- the flat allocation ----------

  function Sum(xs: seq<nat>): nat { if xs == [] then 0 else Sum(xs[..|xs| - 1]) + xs[|xs| - 1] }

  /** Devices of the stages before `g` in one round. */
  function Before(shares: seq<nat>, g: nat): nat
    requires g <= |shares|
  {
    Sum(shares[..g])
  }

  lemma BeforeNext(shares: seq<nat>, g: nat)
    requires g < |shares|
    ensures Before(shares, g + 1) == Before(shares, g) + shares[g]
  {
    assert shares[..g + 1][..g] == shares[..g];
  }

  lemma {:induction false} BeforeGrows(shares: seq<nat>, g: nat, h: nat)
    requires g <= h <= |shares|
    ensures Before(shares, g) <= Before(shares, h)
  {
    if g < h {
      BeforeGrows(shares, g, h - 1);
      BeforeNext(shares, h - 1);
    }
  }

  /** Device `d` is in the part of its round that belongs to stage `g`. */
  predicate Owns(shares: seq<nat>, g: nat, d: nat)
    requires g < |shares| && Sum(shares) > 0
  {
    Before(shares, g) <= d % Sum(shares) < Before(shares, g + 1)
  }

  function Owned(shares: seq<nat>, g: nat, n: nat): set<nat>
    requires g < |shares| && Sum(shares) > 0
  {
    set d: nat | d < n && Owns(shares, g, d)
  }

  /** Every device has one owner. */
  lemma OneOwner(shares: seq<nat>, g: nat, h: nat, d: nat)
    requires g < |shares| && h < |shares| && Sum(shares) > 0 && Owns(shares, g, d) && Owns(shares, h, d)
    ensures g == h
  {
    if g < h { BeforeGrows(shares, g + 1, h); }
    if h < g { BeforeGrows(shares, h + 1, g); }
  }

  lemma {:induction false} SomeOwner(shares: seq<nat>, d: nat, n: nat)
    requires Sum(shares) > 0 && n <= |shares| && d % Sum(shares) < Before(shares, n)
    ensures exists g :: 0 <= g < n && Owns(shares, g, d)
  {
    if n > 0 {
      BeforeNext(shares, n - 1);
      if d % Sum(shares) < Before(shares, n - 1) {
        SomeOwner(shares, d, n - 1);
      } else {
        assert Owns(shares, n - 1, d);
      }
    }
  }

  predicate Between(a: nat, d: nat, b: nat) { a <= d < b }

  function Interval(a: nat, b: nat): set<nat> { set d: nat | d < b && Between(a, d, b) }

  lemma {:induction false} IntervalSize(a: nat, b: nat)
    requires a <= b
    ensures |Interval(a, b)| == b - a
  {
    if a < b {
      IntervalSize(a, b - 1);
      assert Interval(a, b) == Interval(a, b - 1) + {b - 1} by {
        assert forall d: nat :: Between(a, d, b) <==> Between(a, d, b - 1) || d == b - 1;
      }
    } else {
      assert Interval(a, b) == {};
    }
  }

  /** After `k` rounds stage `g` has `k` times its share. */
  lemma {:induction false} OwnedSize(shares: seq<nat>, g: nat, k: nat)
    requires g < |shares| && Sum(shares) > 0
    ensures |Owned(shares, g, k * Sum(shares))| == k * shares[g]
  {
    if k == 0 {
      assert Owned(shares, g, 0) == {};
    } else {
      hide Owned, Sum;
      OwnedSize(shares, g, k - 1);
      OneRoundMore(shares, g, k - 1);
      MulOneMore(k - 1, Sum(shares));
      MulOneMore(k - 1, shares[g]);
    }
  }

  lemma OneRoundMore(shares: seq<nat>, g: nat, k: nat)
    requires g < |shares| && Sum(shares) > 0
    ensures var start := k * Sum(shares);
            |Owned(shares, g, start + Sum(shares))| == |Owned(shares, g, start)| + shares[g]
  {
    hide Owned, Sum, Before, Interval;
    var start := k * Sum(shares);
    OwnedRound(shares, g, k);
    BeforeNext(shares, g);
    IntervalSize(start + Before(shares, g), start + Before(shares, g + 1));
  }

  lemma OwnedRound(shares: seq<nat>, g: nat, k: nat)
    requires g < |shares| && Sum(shares) > 0
    ensures var start := k * Sum(shares);
            var round := Interval(start + Before(shares, g), start + Before(shares, g + 1));
            Owned(shares, g, start + Sum(shares)) == Owned(shares, g, start) + round && Owned(shares, g, start) !! round
  {
    var unit := Sum(shares);
    var start := k * unit;
    BeforeGrows(shares, g + 1, |shares|);
    assert shares[..|shares|] == shares;
    forall d: nat | Between(start, d, start + unit)
      ensures Owns(shares, g, d) <==> Between(start + Before(shares, g), d, start + Before(shares, g + 1))
    {
      DivModUnique(d, unit, k, d - start);
    }
    forall d: nat ensures d in Owned(shares, g, start + unit) <==>
                          d in Owned(shares, g, start) ||
                          Between(start + Before(shares, g), d, start + Before(shares, g + 1))
    {
      assert d >= start && d < start + unit ==> Between(start, d, start + unit);
    }
  }

  ghost predicate Taken(alloc: seq<set<nat>>, d: nat) { exists g :: 0 <= g < |alloc| && d in alloc[g] }

  /** The replica numbers are `common` times the shares of a round, with the greatest `common` there is, and device `d`
      of the first `Sum(repl)` belongs to the stage in whose part of its round it is. */
  ghost predicate InRounds(repl: seq<nat>, alloc: seq<set<nat>>, common: nat, shares: seq<nat>) {
    && IsGcdOf(common, repl) && |shares| == |repl| == |alloc| && Sum(shares) > 0
    && (forall g :: 0 <= g < |repl| ==> repl[g] == common * shares[g])
    && forall g, d: nat :: 0 <= g < |repl| ==> (d in alloc[g] <==> d < Sum(repl) && Owns(shares, g, d))
  }

  /** `searchAllocationFlat`; the stages are listed in the order in which the source's map is traversed.  Each stage
      gets exactly its replica number of devices, no device goes to two stages, together they are 0..sum-1, and they
      are dealt in equal rounds, as many as there can be. */
  method SearchAllocationFlat(repl: seq<nat>)
    returns (alloc: seq<set<nat>>, ghost rounds: nat, ghost shares: seq<nat>)
    requires |repl| >= 1 && forall g :: 0 <= g < |repl| ==> repl[g] > 0
    ensures |alloc| == |repl| && forall g :: 0 <= g < |repl| ==> |alloc[g]| == repl[g]
    ensures forall g, h :: 0 <= g < h < |repl| ==> alloc[g] !! alloc[h]
    ensures forall d: nat :: d < Sum(repl) <==> Taken(alloc, d)
    ensures InRounds(repl, alloc, rounds, shares)
  {
    var common := GcdAll(repl);
    CommonPositive(repl, common);
    rounds, shares := common, seq(|repl|, g requires 0 <= g < |repl| => repl[g] / common);
    SharesExact(repl, common, shares);
    var dev: nat := 0;
    alloc := seq(|repl|, _ => {});
    assert AllOwned(shares, alloc, 0);
    hide Sum, AllOwned;
    for i := 0 to common
      invariant dev == i * Sum(shares) && |alloc| == |repl|
      invariant AllOwned(shares, alloc, dev)
    {
      alloc, dev := Round(repl, common, shares, alloc, i, dev);
    }
    AllocationIs(repl, common, shares, alloc);
    DealtInRounds(repl, common, shares, alloc);
  }

  lemma DealtInRounds(repl: seq<nat>, common: nat, shares: seq<nat>, alloc: seq<set<nat>>)
    requires IsGcdOf(common, repl) && |shares| == |repl|
    requires forall g :: 0 <= g < |repl| ==> repl[g] == common * shares[g]
    requires Sum(repl) == common * Sum(shares) && AllOwned(shares, alloc, common * Sum(shares))
    ensures InRounds(repl, alloc, common, shares)
  {
    hide IsGcdOf, Owns, Sum;
  }

  /** One round over all stages. */
  method Round(repl: seq<nat>, common: nat, ghost shares: seq<nat>, before: seq<set<nat>>, ghost i: nat, start: nat)
    returns (alloc: seq<set<nat>>, dev: nat)
    requires common > 0 && |shares| == |repl| == |before| &&
             forall g :: 0 <= g < |repl| ==> shares[g] == repl[g] / common
    requires Sum(shares) > 0 && start == i * Sum(shares) && AllOwned(shares, before, start)
    ensures |alloc| == |repl| && dev == (i + 1) * Sum(shares) && AllOwned(shares, alloc, dev)
  {
    assert Before(shares, 0) == 0;
    hide Sum, AllOwned;
    alloc, dev := before, start;
    for g := 0 to |repl|
      invariant dev == start + Before(shares, g) && |alloc| == |repl|
      invariant AllOwned(shares, alloc, dev)
    {
      alloc, dev := Assign(shares, alloc, i, g, repl[g] / common, dev);
      BeforeNext(shares, g);
    }
    assert shares[..|shares|] == shares;
    assert (i + 1) * Sum(shares) == i * Sum(shares) + Sum(shares);
  }

  /** The next devices go to stage `g`. */
  method Assign(ghost shares: seq<nat>, before: seq<set<nat>>, ghost i: nat, g: nat, share: nat, first: nat)
    returns (alloc: seq<set<nat>>, dev: nat)
    requires g < |shares| == |before| && share == shares[g] && Sum(shares) > 0
    requires first == i * Sum(shares) + Before(shares, g) && AllOwned(shares, before, first)
    ensures |alloc| == |shares| && dev == first + share && AllOwned(shares, alloc, dev)
  {
    hide Sum, AllOwned, Owns;
    alloc, dev := before, first;
    for j := 0 to share
      invariant dev == first + j && |alloc| == |shares|
      invariant AllOwned(shares, alloc, dev)
    {
      NextOwner(shares, g, i, j);
      AddOwner(shares, alloc, g, dev);
      alloc := alloc[g := alloc[g] + {dev}];
      dev := dev + 1;
    }
  }

  ghost predicate AllOwned(shares: seq<nat>, alloc: seq<set<nat>>, n: nat) {
    |alloc| == |shares| && Sum(shares) > 0 && forall g :: 0 <= g < |shares| ==> alloc[g] == Owned(shares, g, n)
  }

  lemma NextOwner(shares: seq<nat>, g: nat, i: nat, j: nat)
    requires g < |shares| && j < shares[g] && Sum(shares) > 0
    ensures Owns(shares, g, i * Sum(shares) + Before(shares, g) + j)
  {
    BeforeNext(shares, g);
    BeforeGrows(shares, g + 1, |shares|);
    assert shares[..|shares|] == shares;
    DivModUnique(i * Sum(shares) + Before(shares, g) + j, Sum(shares), i, Before(shares, g) + j);
  }

  lemma AddOwner(shares: seq<nat>, alloc: seq<set<nat>>, g: nat, dev: nat)
    requires AllOwned(shares, alloc, dev) && g < |shares| && Owns(shares, g, dev)
    ensures AllOwned(shares, alloc[g := alloc[g] + {dev}], dev + 1)
  {
    forall h | 0 <= h < |shares| && h != g ensures Owned(shares, h, dev + 1) == Owned(shares, h, dev) {
      if Owns(shares, h, dev) { OneOwner(shares, g, h, dev); }
    }
    assert Owned(shares, g, dev + 1) == Owned(shares, g, dev) + {dev};
  }

  lemma CommonPositive(repl: seq<nat>, common: int)
    requires IsGcdOf(common, repl) && |repl| >= 1 && forall g :: 0 <= g < |repl| ==> repl[g] > 0
    ensures common != 0
  {
    assert Divides(common, repl[0]);
  }

  lemma ExactQuotient(c: nat, a: nat)
    requires c > 0 && Divides(c, a)
    ensures a == c * (a / c)
  {
    var k: int :| a == k * c;
    DivModUnique(a, c, k, 0);
  }

  /** Every replica number is its share in each round, times the rounds. */
  lemma SharesExact(repl: seq<nat>, common: int, shares: seq<nat>)
    requires IsGcdOf(common, repl) && common > 0 && |repl| >= 1 && forall g :: 0 <= g < |repl| ==> repl[g] > 0
    requires |shares| == |repl| && forall g :: 0 <= g < |repl| ==> shares[g] == repl[g] / common
    ensures forall g :: 0 <= g < |repl| ==> repl[g] == common * shares[g]
    ensures Sum(repl) == common * Sum(shares) && Sum(shares) > 0
  {
    forall g | 0 <= g < |repl| ensures repl[g] == common * shares[g] { ExactQuotient(common, repl[g]); }
    hide Divides, IsGcdOf;
    SumTimes(repl, common, shares);
    assert Sum(shares) >= shares[|repl| - 1];
    MulPositive(common, shares[|repl| - 1]);
  }

  lemma {:induction false} SumTimes(repl: seq<nat>, common: nat, shares: seq<nat>)
    requires |shares| == |repl| && forall g :: 0 <= g < |repl| ==> repl[g] == common * shares[g]
    ensures Sum(repl) == common * Sum(shares)
  {
    if repl != [] {
      var n := |repl| - 1;
      SumTimes(repl[..n], common, shares[..n]);
      Distribute(Sum(shares[..n]), shares[n], common);
    }
  }

  lemma AllocationIs(repl: seq<nat>, common: nat, shares: seq<nat>, alloc: seq<set<nat>>)
    requires |shares| == |repl| && Sum(shares) > 0 && (forall g :: 0 <= g < |repl| ==> repl[g] == common * shares[g])
    requires Sum(repl) == common * Sum(shares) && AllOwned(shares, alloc, common * Sum(shares))
    ensures forall g :: 0 <= g < |repl| ==> |alloc[g]| == repl[g]
    ensures forall g, h :: 0 <= g < h < |repl| ==> alloc[g] !! alloc[h]
    ensures forall d: nat :: d < Sum(repl) <==> Taken(alloc, d)
  {
    hide Owns, Sum;
    forall g | 0 <= g < |repl| ensures |alloc[g]| == repl[g] { OwnedSize(shares, g, common); }
    forall g, h | 0 <= g < h < |repl| ensures alloc[g] !! alloc[h] {
      forall d | d in alloc[g] ensures d !in alloc[h] {
        if Owns(shares, h, d) { OneOwner(shares, g, h, d); }
      }
    }
    forall d: nat ensures d < Sum(repl) <==> Taken(alloc, d) {
      if d < Sum(repl) {
        assert shares[..|shares|] == shares;
        assert 0 <= d % Sum(shares) < Sum(shares);
        SomeOwner(shares, d, |shares|);
        var g :| 0 <= g < |shares| && Owns(shares, g, d);
        assert d in alloc[g];
      }
    }
  }

  // ---------- from a solution of the stage search ----------

  /** `repl_nums`: the devices of a stage in one replica, times the replicas. */
  function ReplicaNums(plan: seq<T.Stage>, replicaNum: nat): seq<nat> {
    seq(|plan|, i requires 0 <= i < |plan| => plan[i].devs * replicaNum)
  }

  lemma {:induction false} ReplicaSum(plan: seq<T.Stage>, replicaNum: nat)
    ensures Sum(ReplicaNums(plan, replicaNum)) == T.Devices(plan) * replicaNum
  {
    if plan != [] {
      var front, last := plan[..|plan| - 1], plan[|plan| - 1];
      ReplicaSum(front, replicaNum);
      assert ReplicaNums(plan, replicaNum)[..|plan| - 1] == ReplicaNums(front, replicaNum);
      assert (T.Devices(front) + last.devs) * replicaNum == T.Devices(front) * replicaNum + last.devs * replicaNum;
    }
  }

  /** Any solution of the search can be allocated: each stage gets its replicas, on different devices, and no device
      number reaches the device total. */
  method AllocateSolution(c: S.Settings, layerNum: nat, devNum: nat, sol: S.Solution) returns (alloc: seq<set<nat>>)
    requires S.Sound(c, layerNum, devNum, sol)
    ensures |alloc| == |sol.plan| &&
            forall g :: 0 <= g < |alloc| ==> |alloc[g]| == sol.plan[g].devs * sol.replicaNum > 0
    ensures forall g, h :: 0 <= g < h < |alloc| ==> alloc[g] !! alloc[h]
    ensures forall g, d :: 0 <= g < |alloc| && d in alloc[g] ==> d < devNum
  {
    var repl := ReplicaNums(sol.plan, sol.replicaNum);
    SolutionPositive(c, layerNum, devNum, sol);
    ReplicaSum(sol.plan, sol.replicaNum);
    hide S.Sound, Sum, T.Devices;
    ghost var rounds, shares;
    alloc, rounds, shares := SearchAllocationFlat(repl);
    forall g, d | 0 <= g < |alloc| && d in alloc[g] ensures d < devNum { assert Taken(alloc, d); }
  }

  lemma SolutionPositive(c: S.Settings, layerNum: nat, devNum: nat, sol: S.Solution)
    requires S.Sound(c, layerNum, devNum, sol)
    ensures sol.plan != [] && T.Devices(sol.plan) * sol.replicaNum <= devNum
    ensures forall g :: 0 <= g < |sol.plan| ==>
              ReplicaNums(sol.plan, sol.replicaNum)[g] == sol.plan[g].devs * sol.replicaNum > 0
  {
    var p := S.ProblemOf(c, layerNum, |sol.plan|, T.Devices(sol.plan), sol.replicaNum, sol.pipelineNum);
    forall g | 0 <= g < |sol.plan| ensures sol.plan[g].devs * sol.replicaNum > 0 {
      assert T.Fits(p, sol.plan[g]);
      MulPositive(sol.plan[g].devs, sol.replicaNum);
    }
  }
}
