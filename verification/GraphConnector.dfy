/**
 One rank's `GraphConnector` object: the route tables it builds and the loops of `compute`,
 proved to perform exactly the events that the schedule assigns to the split, in that order,
 and to send under each route the value stored for the split that is due.
 */
module GraphConnector {
  import opened Pipeline
  import opened PipelineRun

  method FilterRecv(rs: seq<Route>, p: nat) returns (kept: seq<Route>)
    ensures kept == FilterDest(rs, p)
  {
    kept := [];
    for i := 0 to |rs|
      invariant kept + FilterDest(rs[i..], p) == FilterDest(rs, p)
    {
      if rs[i].dst == p { kept := kept + [rs[i]]; }
    }
  }

  method FilterSend(rs: seq<Route>, p: nat) returns (kept: seq<Route>)
    ensures kept == FilterSource(rs, p)
  {
    kept := [];
    for i := 0 to |rs|
      invariant kept + FilterSource(rs[i..], p) == FilterSource(rs, p)
    {
      if rs[i].src == p { kept := kept + [rs[i]]; }
    }
  }

  method GetMaxDelay(rs: seq<Route>) returns (d: int)
    ensures d == MaxDelay(rs)
  {
    d := 0;
    for i := 0 to |rs|
      invariant d == MaxDelay(rs[..i])
    {
      assert rs[..i + 1][..i] == rs[..i];
      if d < Delay(rs[i]) { d := Delay(rs[i]); }
    }
    assert rs[..|rs|] == rs;
  }

  /** Every event is a send of a split that is stored. */
  ghost predicate Sendable<V>(values: map<int, V>, es: seq<Event>) {
    forall i :: 0 <= i < |es| ==> es[i].Transfer? && es[i].split in values
  }

  /** What goes out for each send event, looked up under the split that is due. */
  ghost function Payloads<V(!new)>(f: Stages<V>, values: map<int, V>, es: seq<Event>): seq<V>
    requires Sendable(values, es)
  {
    seq(|es|, i requires 0 <= i < |es| => f.pick(es[i].route, values[es[i].split]))
  }

  ghost predicate NonNegative(rs: seq<Route>) { forall i :: 0 <= i < |rs| ==> Delay(rs[i]) >= 0 }

  lemma DelaysNonNegative(plan: Plan, p: nat)
    requires plan.Valid()
    ensures NonNegative(SendRoutes(plan, p))
  {
    RouteTables(plan, p);
  }

  lemma PayloadsConcat<V(!new)>(f: Stages<V>, values: map<int, V>, a: seq<Event>, b: seq<Event>)
    requires Sendable(values, a) && Sendable(values, b)
    ensures Sendable(values, a + b)
    ensures Payloads(f, values, a + b) == Payloads(f, values, a) + Payloads(f, values, b)
  {
  }

  lemma NoPayloads<V(!new)>(f: Stages<V>, values: map<int, V>)
    ensures Sendable(values, []) && Payloads(f, values, []) == []
  {
  }

  ghost predicate Stored<V>(values: map<int, V>, split: int) {
    forall t :: 0 <= t <= split ==> t in values
  }

  ghost predicate Arrives<V>(rs: seq<Route>, incoming: map<Route, V>) {
    forall i :: 0 <= i < |rs| ==> rs[i] in incoming
  }

  /** What a stage computes from: the value of each route into it. */
  ghost function Collected<V>(rs: seq<Route>, incoming: map<Route, V>): map<Route, V>
    requires Arrives(rs, incoming)
  {
    map r | r in rs :: incoming[r]
  }

  /** The receives of one split; `incoming` is what the blocking transfers deliver. */
  method RecvPass<V>(rs: seq<Route>, split: int, incoming: map<Route, V>)
    returns (trace: seq<Event>, received: map<Route, V>)
    requires Arrives(rs, incoming)
    ensures trace == RecvEvents(rs, split)
    ensures received == Collected(rs, incoming)
  {
    trace, received := [], map[];
    for i := 0 to |rs|
      invariant trace + RecvEvents(rs[i..], split) == RecvEvents(rs, split)
      invariant received == Collected(rs[..i], incoming)
    {
      trace, received := trace + [Transfer(rs[i], split)], received[rs[i] := incoming[rs[i]]];
      assert rs[..i + 1] == rs[..i] + [rs[i]];
    }
    assert rs[..|rs|] == rs;
  }

  /** `distributeOutput` for one route: send the split that is due, if there is one yet. */
  method SendOne<V(!new)>(f: Stages<V>, values: map<int, V>, r: Route, split: int, flush: int)
    returns (trace: seq<Event>, sent: seq<V>)
    requires Stored(values, split) && Delay(r) >= 0
    ensures var target := split + flush - Delay(r);
            trace == if Delay(r) >= flush && target >= 0 then [Transfer(r, target)] else []
    ensures Sendable(values, trace)
    ensures sent == Payloads(f, values, trace)
  {
    trace, sent := [], [];
    var target := split + flush - Delay(r);
    if Delay(r) >= flush && target >= 0 {
      trace, sent := [Transfer(r, target)], [f.pick(r, values[target])];
    }
  }

  lemma SendEventsSnoc(done: seq<Event>, one: seq<Event>, rs: seq<Route>, split: int, flush: int)
    requires rs != []
    requires one == if Delay(rs[0]) >= flush && split + flush - Delay(rs[0]) >= 0
                    then [Transfer(rs[0], split + flush - Delay(rs[0]))] else []
    ensures done + one + SendEvents(rs[1..], split, flush) == done + SendEvents(rs, split, flush)
  {
    assert SendEvents(rs, split, flush) == one + SendEvents(rs[1..], split, flush);
  }

  lemma NothingToSend(split: int, flush: int)
    ensures SendEvents([], split, flush) == []
  {
  }

  lemma RouteNonNegative(rs: seq<Route>, i: nat)
    requires NonNegative(rs) && i < |rs|
    ensures Delay(rs[i]) >= 0
  {
  }

  /** One pass over the send routes, `flush` passes after the compute. */
  method SendPass<V(!new)>(f: Stages<V>, values: map<int, V>, rs: seq<Route>, split: int, flush: int)
    returns (trace: seq<Event>, sent: seq<V>)
    requires Stored(values, split) && NonNegative(rs)
    ensures trace == SendEvents(rs, split, flush)
    ensures Sendable(values, trace)
    ensures sent == Payloads(f, values, trace)
  {
    hide Delay, Payloads, Sendable, Stored, NonNegative, SendEvents;
    trace, sent := [], [];
    NothingToSend(split, flush);
    NoPayloads(f, values);
    for i := 0 to |rs|
      invariant trace + SendEvents(rs[i..], split, flush) == SendEvents(rs, split, flush)
      invariant Sendable(values, trace)
      invariant sent == Payloads(f, values, trace)
    {
      RouteNonNegative(rs, i);
      var one, oneSent := SendOne(f, values, rs[i], split, flush);
      SendEventsSnoc(trace, one, rs[i..], split, flush);
      assert rs[i..][1..] == rs[i + 1..];
      PayloadsConcat(f, values, trace, one);
      trace, sent := trace + one, sent + oneSent;
    }
  }

  /** The flush: passes 1..maxDelay over the send routes. */
  method FlushPasses<V(!new)>(f: Stages<V>, values: map<int, V>, rs: seq<Route>, split: int, maxDelay: nat)
    returns (trace: seq<Event>, sent: seq<V>)
    requires Stored(values, split) && NonNegative(rs)
    ensures trace == FlushEvents(rs, split, maxDelay)
    ensures Sendable(values, trace)
    ensures sent == Payloads(f, values, trace)
  {
    hide Payloads, Sendable, Stored, NonNegative, SendEvents;
    trace, sent := [], [];
    NoPayloads(f, values);
    var i := 1;
    while i <= maxDelay
      invariant 1 <= i <= maxDelay + 1
      invariant trace == FlushEvents(rs, split, i - 1)
      invariant Sendable(values, trace)
      invariant sent == Payloads(f, values, trace)
    {
      var more, moreSent := SendPass(f, values, rs, split, i);
      PayloadsConcat(f, values, trace, more);
      trace, sent := trace + more, sent + moreSent;
      i := i + 1;
    }
  }

  /** The sends of one split, with the flush after the last one. */
  method SendAll<V(!new)>(f: Stages<V>, values: map<int, V>, rs: seq<Route>, split: int, last: bool, maxDelay: nat)
    returns (trace: seq<Event>, sent: seq<V>)
    requires Stored(values, split) && NonNegative(rs)
    ensures trace == SendEvents(rs, split, 0) + (if last then FlushEvents(rs, split, maxDelay) else [])
    ensures Sendable(values, trace) && sent == Payloads(f, values, trace)
  {
    hide Payloads, Sendable, Stored, NonNegative, SendEvents, FlushEvents;
    trace, sent := SendPass(f, values, rs, split, 0);
    if last {
      var more, moreSent := FlushPasses(f, values, rs, split, maxDelay);
      PayloadsConcat(f, values, trace, more);
      trace, sent := trace + more, sent + moreSent;
    }
  }

  lemma StoreNext<V>(values: map<int, V>, split: nat, v: V)
    requires split > 0 ==> Stored(values, split - 1)
    ensures Stored(values[split := v], split)
  {
  }

  class Connector<V(!new)> {
    const plan: Plan
    const id: nat
    const stages: Stages<V>
    var recvRoutes: seq<Route>
    var sendRoutes: seq<Route>
    var maxDelay: int
    var splitValues: map<int, V>

    ghost predicate Valid()
      reads this
    {
      && plan.Valid()
      && recvRoutes == RecvRoutes(plan, id)
      && sendRoutes == SendRoutes(plan, id)
      && maxDelay == MaxDelay(plan.routes)
    }

    constructor (plan: Plan, id: nat, stages: Stages<V>)
      requires plan.Valid()
      ensures Valid() && this.plan == plan && this.id == id && this.stages == stages && splitValues == map[]
    {
      this.plan, this.id, this.stages := plan, id, stages;
      splitValues := map[];
      new;
      var recv := FilterRecv(plan.routes, id);
      var send := FilterSend(plan.routes, id);
      recvRoutes, sendRoutes := SortRoutes(recv), SortRoutes(send);
      maxDelay := GetMaxDelay(plan.routes);
    }

    /** `compute` for one split: everything it does, in order, and the value behind every send.
        That each send finds its split stored is the assertion of `distributeOutput`. */
    method ComputeSplit(split: nat, incoming: map<Route, V>)
      returns (trace: seq<Event>, sends: seq<Event>, sent: seq<V>)
      requires Valid()
      requires Arrives(recvRoutes, incoming)
      requires split > 0 ==> Stored(splitValues, split - 1)
      modifies this`splitValues
      ensures Valid() && Stored(splitValues, split)
      ensures splitValues == (if split == 0 then map[] else old(splitValues))
                               [split := stages.stage(id, split, Collected(recvRoutes, incoming))]
      ensures trace == SplitEvents(plan, id, split)
      ensures trace == RecvEvents(recvRoutes, split) + [Compute(id, split)] + sends
      ensures Sendable(splitValues, sends)
      ensures sent == Payloads(stages, splitValues, sends)
    {
      TableFacts();
      hide Valid, SplitEvents, Payloads, Sendable, Stored, NonNegative, Arrives, Collected, FlushEvents, SendEvents,
        RecvEvents;
      if split == 0 { splitValues := map[]; }
      var received;
      trace, received := RecvPass(recvRoutes, split, incoming);
      StoreNext(splitValues, split, stages.stage(id, split, received));
      splitValues := splitValues[split := stages.stage(id, split, received)];
      sends, sent := SendAll(stages, splitValues, sendRoutes, split, split + 1 == plan.pipelineNum, maxDelay);
      WholeTrace(split, sends);
      trace := trace + [Compute(id, split)] + sends;
    }

    lemma TableFacts()
      requires Valid()
      ensures NonNegative(sendRoutes) && maxDelay >= 0
    {
      DelaysNonNegative(plan, id);
    }

    lemma WholeTrace(split: nat, sends: seq<Event>)
      requires Valid() && maxDelay >= 0
      requires sends == SendEvents(sendRoutes, split, 0) +
               (if split + 1 == plan.pipelineNum then FlushEvents(sendRoutes, split, maxDelay) else [])
      ensures RecvEvents(recvRoutes, split) + [Compute(id, split)] + sends == SplitEvents(plan, id, split)
    {
      hide RecvEvents, SendEvents, FlushEvents, RecvRoutes, SendRoutes;
    }
  }
}
