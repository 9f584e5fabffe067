/**
 The pipeline schedule of src/comp/GraphConnector.cpp.

 Subgraphs are numbered by their place in the topological graph order, so that the delay of a
 route is `dst - src - 1`.  Each subgraph repeats, for every split of the batch, "receive,
 compute, send with the delay of the route", and after the last split flushes what the delays
 held back.  Transfers block.
 */
module Pipeline {
  import opened Orders
  import opened Rendezvous

  /** `index` is the position of the route in the deployment's route list. */
  datatype Route = Route(src: nat, dst: nat, name: string, index: nat)

  datatype Event =
    | Transfer(route: Route, split: int)
    | Compute(graph: nat, split: int)

  /** `splits` is the number of splits that the launcher runs, `pipelineNum` the number planned. */
  datatype Plan = Plan(graphNum: nat, routes: seq<Route>, pipelineNum: nat, splits: nat) {
    ghost predicate Valid() {
      && splits <= pipelineNum
      && forall i :: 0 <= i < |routes| ==> routes[i].index == i && routes[i].src < routes[i].dst < graphNum
    }
  }

  // ---------- route tables ----------

  function Delay(r: Route): int { r.dst - r.src - 1 }

  function MaxDelay(rs: seq<Route>): (d: int)
    ensures d >= 0
    ensures forall r :: r in rs ==> Delay(r) <= d
  {
    if rs == [] then 0
    else
      var d := MaxDelay(rs[..|rs| - 1]);
      assert rs == rs[..|rs| - 1] + [rs[|rs| - 1]];
      if d < Delay(rs[|rs| - 1]) then Delay(rs[|rs| - 1]) else d
  }

  /** The largest delay of all routes, and zero where none is delayed. */
  lemma {:induction false} MaxDelayIs(rs: seq<Route>)
    ensures forall r :: r in rs ==> Delay(r) <= MaxDelay(rs)
    ensures if exists r :: r in rs && Delay(r) > 0
            then exists r :: r in rs && Delay(r) == MaxDelay(rs)
            else MaxDelay(rs) == 0
  {
    if rs != [] {
      MaxDelayIs(rs[..|rs| - 1]);
      assert rs == rs[..|rs| - 1] + [rs[|rs| - 1]];
    }
  }

  /** The comparator of `sortRoutes`. */
  predicate RouteBefore(a: Route, b: Route) {
    if Delay(a) == Delay(b) then NameLess(a.name, b.name) else Delay(a) < Delay(b)
  }

  /** Stable insertion: `r` goes in front of everything that is not strictly before it. */
  function InsertRoute(r: Route, rs: seq<Route>): seq<Route> {
    if rs == [] || !RouteBefore(rs[0], r) then [r] + rs else [rs[0]] + InsertRoute(r, rs[1..])
  }

  function SortRoutes(rs: seq<Route>): seq<Route> {
    if rs == [] then [] else InsertRoute(rs[0], SortRoutes(rs[1..]))
  }

  function FilterDest(rs: seq<Route>, p: nat): seq<Route> {
    if rs == [] then [] else (if rs[0].dst == p then [rs[0]] else []) + FilterDest(rs[1..], p)
  }

  function FilterSource(rs: seq<Route>, p: nat): seq<Route> {
    if rs == [] then [] else (if rs[0].src == p then [rs[0]] else []) + FilterSource(rs[1..], p)
  }

  function RecvRoutes(plan: Plan, p: nat): seq<Route> { SortRoutes(FilterDest(plan.routes, p)) }

  function SendRoutes(plan: Plan, p: nat): seq<Route> { SortRoutes(FilterSource(plan.routes, p)) }

  // ---------- what one subgraph does, in order ----------

  function RecvEvents(rs: seq<Route>, split: int): seq<Event> {
    if rs == [] then [] else [Transfer(rs[0], split)] + RecvEvents(rs[1..], split)
  }

  /** The sends of one pass over the send routes, `flush` passes after the compute of `split`. */
  function SendEvents(rs: seq<Route>, split: int, flush: int): seq<Event> {
    if rs == [] then []
    else
      var target := split + flush - Delay(rs[0]);
      (if Delay(rs[0]) >= flush && target >= 0 then [Transfer(rs[0], target)] else []) +
      SendEvents(rs[1..], split, flush)
  }

  /** Flush passes 1..n. */
  function FlushEvents(rs: seq<Route>, split: int, n: nat): seq<Event> {
    if n == 0 then [] else FlushEvents(rs, split, n - 1) + SendEvents(rs, split, n)
  }

  function SplitEvents(plan: Plan, p: nat, split: int): seq<Event> {
    RecvEvents(RecvRoutes(plan, p), split) + [Compute(p, split)] + SendEvents(SendRoutes(plan, p), split, 0)
    + (if split + 1 == plan.pipelineNum then FlushEvents(SendRoutes(plan, p), split, MaxDelay(plan.routes)) else [])
  }

  function Program(plan: Plan, p: nat, n: nat): seq<Event> {
    if n == 0 then [] else Program(plan, p, n - 1) + SplitEvents(plan, p, n - 1)
  }

  // ---------- the global order ----------

  /** Split `t` of a route into `q` crosses the time boundary `t + q`; within a boundary, later
      sources go first. A compute comes after the receives of its boundary. */
  function EventKey(e: Event): Key {
    match e
    case Transfer(r, t) => Key(t + r.dst, 0 - r.src, r.dst, r.name, r.index)
    case Compute(p, s) => Key(p + s, 1, p, "", 0)
  }

  predicate EventLess(a: Event, b: Event) { KeyLess(EventKey(a), EventKey(b)) }

  lemma EventOrder()
    ensures forall e :: !EventLess(e, e)
    ensures forall a, b, c :: EventLess(a, b) && EventLess(b, c) ==> EventLess(a, c)
    ensures forall a, b :: a != b ==> EventLess(a, b) || EventLess(b, a)
  {
    forall e ensures !EventLess(e, e) { KeyLessIrreflexive(EventKey(e)); }
    forall a, b, c | EventLess(a, b) && EventLess(b, c) ensures EventLess(a, c) {
      KeyLessTransitive(EventKey(a), EventKey(b), EventKey(c));
    }
    forall a, b | a != b ensures EventLess(a, b) || EventLess(b, a) {
      KeyLessTotal(EventKey(a), EventKey(b));
    }
  }

  ghost predicate Sorted(es: seq<Event>) {
    forall i, j :: 0 <= i < j < |es| ==> EventLess(es[i], es[j])
  }

  lemma SortedConcat(a: seq<Event>, b: seq<Event>)
    requires Sorted(a) && Sorted(b)
    requires forall x, y :: x in a && y in b ==> EventLess(x, y)
    ensures Sorted(a + b)
  {
  }

  ghost predicate Between(es: seq<Event>, low: int, high: int) {
    forall e :: e in es ==> low <= EventKey(e).time <= high
  }

  lemma SortedByTime(a: seq<Event>, b: seq<Event>, t: int, lowA: int, highB: int)
    requires Sorted(a) && Sorted(b) && Between(a, lowA, t) && Between(b, t + 1, highB)
    ensures Sorted(a + b)
  {
    SortedConcat(a, b);
  }

  // ---------- the sort ----------

  /** `sortRoutes` order with ties resolved by position, as stable_sort resolves them. */
  predicate RoutePrecedes(a: Route, b: Route) {
    RouteBefore(a, b) || (Delay(a) == Delay(b) && a.name == b.name && a.index < b.index)
  }

  ghost predicate RoutesSorted(rs: seq<Route>) {
    rs == [] || ((forall r :: r in rs[1..] ==> RoutePrecedes(rs[0], r)) && RoutesSorted(rs[1..]))
  }

  lemma RoutePrecedesTransitive(a: Route, b: Route, c: Route)
    requires RoutePrecedes(a, b) && RoutePrecedes(b, c)
    ensures RoutePrecedes(a, c)
  {
    if NameLess(a.name, b.name) && NameLess(b.name, c.name) { NameLessTransitive(a.name, b.name, c.name); }
  }

  lemma {:induction false} InsertKeepsSorted(r: Route, rs: seq<Route>)
    requires RoutesSorted(rs) && forall x :: x in rs ==> r.index < x.index
    ensures RoutesSorted(InsertRoute(r, rs))
    ensures forall x :: x in InsertRoute(r, rs) <==> x == r || x in rs
  {
    if rs == [] {
    } else if !RouteBefore(rs[0], r) {
      NameLessTotal(r.name, rs[0].name);
      assert RoutePrecedes(r, rs[0]);
      forall x | x in rs[1..] ensures RoutePrecedes(r, x) { RoutePrecedesTransitive(r, rs[0], x); }
      assert ([r] + rs)[1..] == rs;
      assert rs == [rs[0]] + rs[1..];
    } else {
      InsertKeepsSorted(r, rs[1..]);
      var t := InsertRoute(r, rs[1..]);
      assert ([rs[0]] + t)[1..] == t;
      assert rs == [rs[0]] + rs[1..];
    }
  }

  ghost predicate IndexAscending(rs: seq<Route>) {
    forall i, j :: 0 <= i < j < |rs| ==> rs[i].index < rs[j].index
  }

  lemma {:induction false} SortRoutesSorts(rs: seq<Route>)
    requires IndexAscending(rs)
    ensures RoutesSorted(SortRoutes(rs))
    ensures forall x :: x in SortRoutes(rs) <==> x in rs
  {
    if rs != [] {
      SortRoutesSorts(rs[1..]);
      InsertKeepsSorted(rs[0], SortRoutes(rs[1..]));
      assert rs == [rs[0]] + rs[1..];
    }
  }

  lemma AscendingCons(r: Route, rs: seq<Route>)
    requires IndexAscending(rs) && forall x :: x in rs ==> r.index < x.index
    ensures IndexAscending([r] + rs)
  {
  }

  lemma AscendingTail(rs: seq<Route>)
    requires IndexAscending(rs) && rs != []
    ensures IndexAscending(rs[1..]) && forall x :: x in rs[1..] ==> rs[0].index < x.index
    ensures forall x :: x in rs <==> x == rs[0] || x in rs[1..]
  {
    assert rs == [rs[0]] + rs[1..];
  }

  lemma {:induction false} FilterDestIs(rs: seq<Route>, p: nat)
    requires IndexAscending(rs)
    ensures IndexAscending(FilterDest(rs, p))
    ensures forall x :: x in FilterDest(rs, p) <==> x in rs && x.dst == p
  {
    if rs != [] {
      AscendingTail(rs);
      FilterDestIs(rs[1..], p);
      AscendingCons(rs[0], FilterDest(rs[1..], p));
      assert [] + FilterDest(rs[1..], p) == FilterDest(rs[1..], p);
    }
  }

  lemma {:induction false} FilterSourceIs(rs: seq<Route>, p: nat)
    requires IndexAscending(rs)
    ensures IndexAscending(FilterSource(rs, p))
    ensures forall x :: x in FilterSource(rs, p) <==> x in rs && x.src == p
  {
    if rs != [] {
      AscendingTail(rs);
      FilterSourceIs(rs[1..], p);
      AscendingCons(rs[0], FilterSource(rs[1..], p));
      assert [] + FilterSource(rs[1..], p) == FilterSource(rs[1..], p);
    }
  }

  /** The route tables of a subgraph hold exactly its routes, in (delay, name, position) order. */
  lemma RouteTables(plan: Plan, p: nat)
    requires plan.Valid()
    ensures RoutesSorted(RecvRoutes(plan, p)) && RoutesSorted(SendRoutes(plan, p))
    ensures forall r :: r in RecvRoutes(plan, p) <==> r in plan.routes && r.dst == p
    ensures forall r :: r in SendRoutes(plan, p) <==> r in plan.routes && r.src == p
  {
    FilterDestIs(plan.routes, p);
    FilterSourceIs(plan.routes, p);
    SortRoutesSorts(FilterDest(plan.routes, p));
    SortRoutesSorts(FilterSource(plan.routes, p));
  }

  // ---------- one pass over a route table ----------

  lemma {:induction false} RecvEventsAre(rs: seq<Route>, p: nat, split: int)
    requires RoutesSorted(rs) && forall r :: r in rs ==> r.dst == p
    ensures forall e :: e in RecvEvents(rs, split) <==> e.Transfer? && e.route in rs && e.split == split
    ensures Sorted(RecvEvents(rs, split))
  {
    if rs != [] {
      RecvEventsAre(rs[1..], p, split);
      assert rs == [rs[0]] + rs[1..];
      SortedConcat([Transfer(rs[0], split)], RecvEvents(rs[1..], split));
    }
  }

  lemma {:induction false} SendEventsAre(rs: seq<Route>, p: nat, split: int, flush: int)
    requires RoutesSorted(rs) && forall r :: r in rs ==> r.src == p
    ensures forall e :: e in SendEvents(rs, split, flush) <==>
              e.Transfer? && e.route in rs && Delay(e.route) >= flush && e.split == split + flush - Delay(e.route) >= 0
    ensures Sorted(SendEvents(rs, split, flush))
    ensures Between(SendEvents(rs, split, flush), p + split + flush + 1, p + split + flush + 1)
  {
    if rs != [] {
      SendEventsAre(rs[1..], p, split, flush);
      assert rs == [rs[0]] + rs[1..];
      var target := split + flush - Delay(rs[0]);
      SortedConcat(if Delay(rs[0]) >= flush && target >= 0 then [Transfer(rs[0], target)] else [],
                   SendEvents(rs[1..], split, flush));
    }
  }

  lemma {:induction false} FlushEventsAre(rs: seq<Route>, p: nat, split: int, n: nat)
    requires RoutesSorted(rs) && forall r :: r in rs ==> r.src == p
    ensures forall e :: e in FlushEvents(rs, split, n) <==>
              && e.Transfer? && e.route in rs && 0 <= e.split <= split
              && 1 <= e.split + Delay(e.route) - split <= n
    ensures Sorted(FlushEvents(rs, split, n))
    ensures Between(FlushEvents(rs, split, n), p + split + 2, p + split + n + 1)
  {
    if n > 0 {
      FlushEventsAre(rs, p, split, n - 1);
      SendEventsAre(rs, p, split, n);
      SortedByTime(FlushEvents(rs, split, n - 1), SendEvents(rs, split, n), p + split + n, p + split + 2,
                   p + split + n + 1);
    }
  }

  // ---------- one split, and the whole program ----------

  /** Split `t` of `r` leaves its source during `split`, or in the flush after it. */
  predicate LeavesAt(plan: Plan, r: Route, t: int, split: int) {
    0 <= t <= split && (t + Delay(r) == split || (split + 1 == plan.pipelineNum && t + Delay(r) > split))
  }

  predicate InSplit(plan: Plan, p: nat, split: int, e: Event) {
    match e
    case Transfer(r, t) =>
      r in plan.routes && ((r.dst == p && t == split) || (r.src == p && LeavesAt(plan, r, t, split)))
    case Compute(q, t) => q == p && t == split
  }

  /** `e` is before boundary `t`, or is a send of `p` at `t`. */
  predicate ByBoundary(e: Event, p: nat, t: int) {
    EventKey(e).time < t || (EventKey(e).time == t && e.Transfer? && e.route.src == p)
  }

  /** `e` is after boundary `t`, or is a receive or a compute of `p` at `t`. */
  predicate FromBoundary(e: Event, p: nat, t: int) {
    EventKey(e).time > t || (EventKey(e).time == t && (e.Compute? || (e.route.dst == p && e.route.src < p)))
  }

  lemma SplitEventsSorted(plan: Plan, p: nat, split: int)
    requires plan.Valid()
    ensures Sorted(SplitEvents(plan, p, split))
  {
    RouteTables(plan, p);
    var recv, send, n := RecvRoutes(plan, p), SendRoutes(plan, p), MaxDelay(plan.routes);
    RecvEventsAre(recv, p, split);
    SendEventsAre(send, p, split, 0);
    FlushEventsAre(send, p, split, n);
    var a, b := RecvEvents(recv, split), [Compute(p, split)];
    var c := SendEvents(send, split, 0);
    var d := if split + 1 == plan.pipelineNum then FlushEvents(send, split, n) else [];
    SortedConcat(a, b);
    SortedByTime(a + b, c, p + split, p + split, p + split + 1);
    SortedByTime(a + b + c, d, p + split + 1, p + split, p + split + n + 1);
  }

  lemma MaxDelayAtLeast(rs: seq<Route>, r: Route)
    requires r in rs
    ensures Delay(r) <= MaxDelay(rs)
  {
  }

  lemma SplitEventIs(plan: Plan, p: nat, split: int, e: Event)
    requires plan.Valid()
    ensures e in SplitEvents(plan, p, split) <==> InSplit(plan, p, split, e)
  {
    RouteTables(plan, p);
    RecvEventsAre(RecvRoutes(plan, p), p, split);
    SendEventsAre(SendRoutes(plan, p), p, split, 0);
    FlushEventsAre(SendRoutes(plan, p), p, split, MaxDelay(plan.routes));
    if e.Transfer? && e.route in plan.routes { MaxDelayAtLeast(plan.routes, e.route); }
    hide RecvEvents, SendEvents, FlushEvents, RecvRoutes, SendRoutes, RoutesSorted, Sorted, Between, MaxDelay;
  }

  lemma SplitEventsAre(plan: Plan, p: nat, split: int)
    requires plan.Valid()
    ensures forall e :: e in SplitEvents(plan, p, split) <==> InSplit(plan, p, split, e)
  {
    hide SplitEvents, InSplit, Plan.Valid;
    forall e
      ensures e in SplitEvents(plan, p, split) <==> InSplit(plan, p, split, e)
    {
      SplitEventIs(plan, p, split, e);
    }
  }

  lemma InSplitBoundary(plan: Plan, p: nat, split: int, e: Event)
    requires plan.Valid() && InSplit(plan, p, split, e)
    ensures FromBoundary(e, p, p + split)
    ensures split + 1 < plan.pipelineNum ==> ByBoundary(e, p, p + split + 1)
  {
  }

  predicate InProgram(plan: Plan, p: nat, n: nat, e: Event) {
    match e
    case Transfer(r, t) =>
      r in plan.routes && 0 <= t < n && (r.dst == p || (r.src == p && (t + Delay(r) < n || n == plan.pipelineNum)))
    case Compute(q, t) => q == p && 0 <= t < n
  }

  lemma InProgramStep(plan: Plan, p: nat, n: nat, e: Event)
    requires plan.Valid() && n < plan.pipelineNum
    ensures InProgram(plan, p, n + 1, e) <==> InProgram(plan, p, n, e) || InSplit(plan, p, n, e)
  {
  }

  ghost predicate AllBy(es: seq<Event>, p: nat, t: int) { forall e :: e in es ==> ByBoundary(e, p, t) }

  ghost predicate AllFrom(es: seq<Event>, p: nat, t: int) { forall e :: e in es ==> FromBoundary(e, p, t) }

  lemma BoundarySeparates(a: seq<Event>, b: seq<Event>, p: nat, t: int)
    requires Sorted(a) && Sorted(b)
    requires AllBy(a, p, t) && AllFrom(b, p, t)
    ensures Sorted(a + b)
  {
    SortedConcat(a, b);
  }

  lemma SplitEventsBounds(plan: Plan, p: nat, split: int)
    requires plan.Valid()
    ensures AllFrom(SplitEvents(plan, p, split), p, p + split)
    ensures split + 1 < plan.pipelineNum ==> AllBy(SplitEvents(plan, p, split), p, p + split + 1)
  {
    SplitEventsAre(plan, p, split);
    forall e | e in SplitEvents(plan, p, split)
      ensures FromBoundary(e, p, p + split) && (split + 1 < plan.pipelineNum ==> ByBoundary(e, p, p + split + 1))
    {
      InSplitBoundary(plan, p, split, e);
    }
  }

  lemma AllByConcat(a: seq<Event>, b: seq<Event>, p: nat, t: int)
    requires AllBy(a, p, t) && AllBy(b, p, t + 1)
    ensures AllBy(a + b, p, t + 1)
  {
  }

  lemma {:induction false} ProgramContents(plan: Plan, p: nat, n: nat)
    requires plan.Valid() && n <= plan.splits
    ensures forall e :: e in Program(plan, p, n) <==> InProgram(plan, p, n, e)
  {
    hide SplitEvents, InSplit;
    if n > 0 {
      ProgramContents(plan, p, n - 1);
      SplitEventsAre(plan, p, n - 1);
      forall e ensures e in Program(plan, p, n) <==> InProgram(plan, p, n, e) { InProgramStep(plan, p, n - 1, e); }
    }
  }

  lemma SplitExtends(plan: Plan, a: seq<Event>, p: nat, split: nat)
    requires plan.Valid() && Sorted(a) && AllBy(a, p, p + split)
    ensures Sorted(a + SplitEvents(plan, p, split))
    ensures split + 1 < plan.pipelineNum ==> AllBy(a + SplitEvents(plan, p, split), p, p + split + 1)
  {
    var b := SplitEvents(plan, p, split);
    SplitEventsSorted(plan, p, split);
    SplitEventsBounds(plan, p, split);
    BoundarySeparates(a, b, p, p + split);
    if split + 1 < plan.pipelineNum { AllByConcat(a, b, p, p + split); }
  }

  lemma {:induction false} ProgramSorted(plan: Plan, p: nat, n: nat)
    requires plan.Valid() && n <= plan.splits
    ensures Sorted(Program(plan, p, n))
    ensures n < plan.pipelineNum ==> AllBy(Program(plan, p, n), p, p + n)
  {
    hide SplitEvents, EventLess, ByBoundary;
    if n > 0 {
      ProgramSorted(plan, p, n - 1);
      SplitExtends(plan, Program(plan, p, n - 1), p, n - 1);
    }
  }

  /** The whole program of a subgraph: exactly its transfers and computes, in global order.
      A source sends split `t` only if its delay fits into the run or the flush is reached. */
  lemma ProgramIs(plan: Plan, p: nat, n: nat)
    requires plan.Valid() && n <= plan.splits
    ensures forall e :: e in Program(plan, p, n) <==> InProgram(plan, p, n, e)
    ensures Sorted(Program(plan, p, n))
  {
    ProgramContents(plan, p, n);
    ProgramSorted(plan, p, n);
  }

  // ---------- what goes over one route ----------

  /** The splits that a sequence of events moves over `r`, in order. */
  function SplitsOn(es: seq<Event>, r: Route): seq<int> {
    if es == [] then []
    else SplitsOn(es[..|es| - 1], r) +
         var e := es[|es| - 1]; if e.Transfer? && e.route == r then [e.split] else []
  }

  ghost predicate Increasing(xs: seq<int>) {
    forall i, j :: 0 <= i < j < |xs| ==> xs[i] < xs[j]
  }

  lemma IncreasingSnoc(xs: seq<int>, x: int)
    requires Increasing(xs) && forall t :: t in xs ==> t < x
    ensures Increasing(xs + [x])
  {
    forall i | 0 <= i < |xs| ensures xs[i] < x { assert xs[i] in xs; }
  }

  lemma {:induction false} SplitsOnIs(es: seq<Event>, r: Route)
    requires Sorted(es)
    ensures forall t :: t in SplitsOn(es, r) <==> Transfer(r, t) in es
    ensures Increasing(SplitsOn(es, r))
  {
    if es != [] {
      var front, e := es[..|es| - 1], es[|es| - 1];
      SplitsOnIs(front, r);
      assert es == front + [e];
      if e.Transfer? && e.route == r {
        forall t | Transfer(r, t) in front ensures t < e.split {
          var i :| 0 <= i < |front| && front[i] == Transfer(r, t);
          assert EventLess(es[i], e);
          NameLessIrreflexive(r.name);
        }
        IncreasingSnoc(SplitsOn(front, r), e.split);
      } else {
        assert SplitsOn(es, r) == SplitsOn(front, r);
      }
    }
  }

  lemma {:induction false} IncreasingGap(xs: seq<int>, i: nat, j: nat)
    requires Increasing(xs) && i <= j < |xs|
    ensures xs[j] - xs[i] >= j - i
  {
    if i < j { IncreasingGap(xs, i, j - 1); }
  }

  lemma RangeEnd(xs: seq<int>, n: nat)
    requires Increasing(xs)
    requires forall t :: t in xs <==> 0 <= t < n
    ensures |xs| <= n
    ensures n > 0 ==> |xs| > 0 && xs[|xs| - 1] == n - 1
  {
    var ended := [-1] + xs + [n];
    forall i | 0 <= i < |xs| ensures 0 <= xs[i] < n { assert xs[i] in xs; }
    assert Increasing(ended);
    IncreasingGap(ended, 0, |xs| + 1);
    if n > 0 {
      assert n - 1 in xs;
      var k :| 0 <= k < |xs| && xs[k] == n - 1;
      assert ended[k + 1] == n - 1;
      IncreasingGap(ended, k + 1, |xs| + 1);
    }
  }

  lemma {:induction false} IncreasingRange(xs: seq<int>, n: nat)
    requires Increasing(xs)
    requires forall t :: t in xs <==> 0 <= t < n
    ensures xs == seq(n, t => t)
  {
    RangeEnd(xs, n);
    if n > 0 {
      var front := xs[..|xs| - 1];
      assert xs == front + [n - 1];
      forall i | 0 <= i < |front| ensures front[i] < n - 1 { assert xs[i] < xs[|xs| - 1]; }
      forall t ensures t in front <==> 0 <= t < n - 1 { assert t in front + [n - 1] <==> 0 <= t < n; }
      IncreasingRange(front, n - 1);
      assert seq(n, t => t) == seq(n - 1, t => t) + [n - 1];
    }
  }

  lemma CarriesRange(plan: Plan, p: nat, r: Route, n: nat)
    requires plan.Valid() && forall t :: InProgram(plan, p, plan.splits, Transfer(r, t)) <==> 0 <= t < n
    ensures SplitsOn(Program(plan, p, plan.splits), r) == seq(n, t => t)
  {
    ProgramIs(plan, p, plan.splits);
    var xs := SplitsOn(Program(plan, p, plan.splits), r);
    SplitsOnIs(Program(plan, p, plan.splits), r);
    forall t ensures t in xs <==> 0 <= t < n { assert InProgram(plan, p, plan.splits, Transfer(r, t)) <==> 0 <= t < n; }
    IncreasingRange(xs, n);
  }

  /** Whatever the delay, the source of a route sends splits 0..splits-1 exactly once each and in order,
      and the destination expects the same. In a short run, a source holds back its last `delay` splits. */
  lemma RouteCarriesEverySplit(plan: Plan, r: Route)
    requires plan.Valid() && r in plan.routes
    ensures SplitsOn(Program(plan, r.dst, plan.splits), r) == seq(plan.splits, t => t)
    ensures SplitsOn(Program(plan, r.src, plan.splits), r) ==
            seq(if plan.splits == plan.pipelineNum then plan.splits
                else if plan.splits >= Delay(r) then plan.splits - Delay(r) else 0, t => t)
  {
    CarriesRange(plan, r.dst, r, plan.splits);
    CarriesRange(plan, r.src, r, if plan.splits == plan.pipelineNum then plan.splits
                                 else if plan.splits >= Delay(r) then plan.splits - Delay(r) else 0);
  }

  // ---------- the network of subgraphs ----------

  ghost function EventSource(e: Event): nat { if e.Transfer? then e.route.src else e.graph }

  ghost function EventDest(e: Event): nat { if e.Transfer? then e.route.dst else e.graph }

  /** Transfers are matched by route alone; a compute matches only itself. */
  ghost predicate SameChannel(a: Event, b: Event) {
    if a.Transfer? && b.Transfer? then a.route == b.route else a == b
  }

  ghost function NetOf(plan: Plan): Net<Event> {
    Net(seq(plan.graphNum, p requires 0 <= p < plan.graphNum => Program(plan, p, plan.splits)),
        EventLess, EventSource, EventDest, SameChannel)
  }

  lemma NetIsWellFormed(plan: Plan)
    requires plan.Valid()
    ensures NetOf(plan).WellFormed()
  {
    var net := NetOf(plan);
    EventOrder();
    forall p: nat | p < plan.graphNum
      ensures Sorted(net.progs[p])
      ensures forall e :: e in net.progs[p] ==> EventSource(e) < |net.progs| && EventDest(e) < |net.progs|
                                                && (EventSource(e) == p || EventDest(e) == p)
    {
      ProgramIs(plan, p, plan.splits);
    }
    forall e | EventSource(e) < |net.progs| && EventDest(e) < |net.progs| && e in net.progs[EventSource(e)]
      ensures e in net.progs[EventDest(e)]
    {
      ProgramIs(plan, EventSource(e), plan.splits);
      ProgramIs(plan, EventDest(e), plan.splits);
    }
    forall a, b | EventSource(a) < |net.progs| && EventDest(a) < |net.progs| && SameChannel(a, b) && EventLess(a, b)
                  && b in net.progs[EventSource(a)] && a in net.progs[EventDest(a)]
      ensures a in net.progs[EventSource(a)]
    {
      ProgramIs(plan, EventSource(a), plan.splits);
      ProgramIs(plan, EventDest(a), plan.splits);
    }
  }

  /** Every receive has its send exactly when the flush is reached or nothing is ever delayed. */
  predicate Complete(plan: Plan) {
    || plan.splits == plan.pipelineNum
    || plan.splits == 0
    || forall i :: 0 <= i < |plan.routes| ==> Delay(plan.routes[i]) == 0
  }

  lemma CompleteReceivesSent(plan: Plan)
    requires plan.Valid() && Complete(plan)
    ensures NetOf(plan).ReceivesSent()
  {
    var net := NetOf(plan);
    forall e | EventSource(e) < |net.progs| && EventDest(e) < |net.progs| && e in net.progs[EventDest(e)]
      ensures e in net.progs[EventSource(e)]
    {
      ProgramIs(plan, EventSource(e), plan.splits);
      ProgramIs(plan, EventDest(e), plan.splits);
    }
  }
}
