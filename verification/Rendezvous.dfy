/**
 Blocking transfers between processes that each run a fixed straight-line program.

 A transfer is a rendezvous: it happens when the next action of its source and the next
 action of its destination are on the same channel.  Nothing in a step compares *which*
 transfer of the channel the two sides mean; that they always mean the same one is proved.
 */
module Rendezvous {

  /** `same(a, b)` says that two transfers travel on one channel.  An event with
      `src(e) == dst(e)` is a local action of that process. */
  datatype Net<!E(!new)> = Net(
    progs: seq<seq<E>>,
    less: (E, E) -> bool,
    src: E -> nat,
    dst: E -> nat,
    same: (E, E) -> bool)
  {
    ghost predicate StrictTotalOrder() {
      && (forall e :: !less(e, e))
      && (forall a, b, c :: less(a, b) && less(b, c) ==> less(a, c))
      && (forall a, b :: a != b ==> less(a, b) || less(b, a))
    }

    ghost predicate SortedPrograms() {
      forall p, i, j :: 0 <= p < |progs| && 0 <= i < j < |progs[p]| ==> less(progs[p][i], progs[p][j])
    }

    ghost predicate Placed() {
      && (forall p, i :: 0 <= p < |progs| && 0 <= i < |progs[p]| ==>
           && src(progs[p][i]) < |progs|
           && dst(progs[p][i]) < |progs|
           && (src(progs[p][i]) == p || dst(progs[p][i]) == p))
      && (forall a, b :: same(a, b) ==> src(a) == src(b) && dst(a) == dst(b))
      && (forall e :: same(e, e))
      && (forall a, b :: same(a, b) ==> same(b, a))
    }

    /** What a source sends its destination expects, and a source skips nothing that its
        destination expects earlier on the same channel. */
    ghost predicate SendsExpected() {
      && (forall e :: src(e) < |progs| && dst(e) < |progs| && e in progs[src(e)] ==> e in progs[dst(e)])
      && (forall a, b ::
           src(a) < |progs| && dst(a) < |progs| && same(a, b) && less(a, b) && b in progs[src(a)] && a in progs[dst(a)]
           ==> a in progs[src(a)])
    }

    /** Conversely, everything a destination waits for is sent. */
    ghost predicate ReceivesSent() {
      forall e :: src(e) < |progs| && dst(e) < |progs| && e in progs[dst(e)] ==> e in progs[src(e)]
    }

    ghost predicate WellFormed() {
      StrictTotalOrder() && SortedPrograms() && Placed() && SendsExpected()
    }

    ghost predicate IsState(pc: seq<nat>) {
      |pc| == |progs| && forall p :: 0 <= p < |pc| ==> pc[p] <= |progs[p]|
    }

    ghost predicate Busy(pc: seq<nat>, p: nat)
      requires IsState(pc)
    {
      p < |pc| && pc[p] < |progs[p]|
    }

    ghost function Head(pc: seq<nat>, p: nat): E
      requires IsState(pc) && Busy(pc, p)
    {
      progs[p][pc[p]]
    }

    ghost predicate Done(pc: seq<nat>, p: nat, e: E)
      requires IsState(pc) && p < |pc|
    {
      e in progs[p][..pc[p]]
    }

    ghost predicate Finished(pc: seq<nat>)
      requires IsState(pc)
    {
      forall p :: 0 <= p < |pc| ==> !Busy(pc, p)
    }

    /** Every transfer is either behind both of its end points or behind neither. */
    ghost predicate InStep(pc: seq<nat>)
      requires IsState(pc)
    {
      forall e :: src(e) < |pc| && dst(e) < |pc| ==> (Done(pc, src(e), e) <==> Done(pc, dst(e), e))
    }

    ghost predicate LocalEnabled(pc: seq<nat>, p: nat)
      requires IsState(pc)
    {
      Busy(pc, p) && src(Head(pc, p)) == dst(Head(pc, p)) == p
    }

    ghost predicate TransferEnabled(pc: seq<nat>, p: nat, q: nat)
      requires IsState(pc)
    {
      && p != q && Busy(pc, p) && Busy(pc, q)
      && src(Head(pc, p)) == p && dst(Head(pc, p)) == q
      && same(Head(pc, p), Head(pc, q))
    }

    ghost predicate Step(pc: seq<nat>, pc': seq<nat>)
      requires IsState(pc)
    {
      || (exists p: nat :: LocalEnabled(pc, p) && pc' == pc[p := pc[p] + 1])
      || (exists p: nat, q: nat :: TransferEnabled(pc, p, q) && pc' == pc[p := pc[p] + 1][q := pc[q] + 1])
    }

    ghost function Start(): seq<nat> {
      seq(|progs|, _ => 0)
    }

    ghost predicate IsRun(run: seq<seq<nat>>) {
      && |run| > 0 && run[0] == Start()
      && (forall k :: 0 <= k < |run| ==> IsState(run[k]))
      && (forall k :: 0 <= k < |run| - 1 ==> Step(run[k], run[k + 1]))
    }
  }

  // ---------- one program ----------

  lemma DoneIffBefore<E(!new)>(net: Net<E>, pc: seq<nat>, p: nat, i: nat)
    requires net.WellFormed() && net.IsState(pc) && p < |pc| && i < |net.progs[p]|
    ensures net.Done(pc, p, net.progs[p][i]) <==> i < pc[p]
  {
    var prog := net.progs[p];
    if net.Done(pc, p, prog[i]) {
      var k :| 0 <= k < pc[p] && prog[..pc[p]][k] == prog[i];
      assert k == i;
    }
    if i < pc[p] { assert prog[..pc[p]][i] == prog[i]; }
  }

  lemma SmallerIsDone<E(!new)>(net: Net<E>, pc: seq<nat>, p: nat, e: E)
    requires net.WellFormed() && net.IsState(pc) && net.Busy(pc, p)
    requires e in net.progs[p] && net.less(e, net.Head(pc, p))
    ensures net.Done(pc, p, e)
  {
    var i :| 0 <= i < |net.progs[p]| && net.progs[p][i] == e;
    assert i < pc[p];
    DoneIffBefore(net, pc, p, i);
  }

  lemma HeadNotDone<E(!new)>(net: Net<E>, pc: seq<nat>, p: nat)
    requires net.WellFormed() && net.IsState(pc) && net.Busy(pc, p)
    ensures !net.Done(pc, p, net.Head(pc, p))
    ensures net.Head(pc, p) in net.progs[p]
  {
    DoneIffBefore(net, pc, p, pc[p]);
  }

  lemma DoneAfterAdvance<E(!new)>(net: Net<E>, pc: seq<nat>, pc': seq<nat>, p: nat, e: E)
    requires net.IsState(pc) && net.IsState(pc') && net.Busy(pc, p) && pc'[p] == pc[p] + 1
    ensures net.Done(pc', p, e) <==> net.Done(pc, p, e) || e == net.Head(pc, p)
  {
    assert net.progs[p][..pc[p] + 1] == net.progs[p][..pc[p]] + [net.progs[p][pc[p]]];
  }

  // ---------- matching ----------

  /** Two heads that meet on a channel are the same transfer. */
  lemma HeadsAgree<E(!new)>(net: Net<E>, pc: seq<nat>, p: nat, q: nat)
    requires net.WellFormed() && net.IsState(pc) && net.InStep(pc) && net.TransferEnabled(pc, p, q)
    ensures net.Head(pc, p) == net.Head(pc, q)
  {
    var a, b := net.Head(pc, p), net.Head(pc, q);
    HeadNotDone(net, pc, p);
    HeadNotDone(net, pc, q);
    assert net.src(b) == p && net.dst(b) == q;
    if net.less(a, b) {
      assert a in net.progs[q];
      SmallerIsDone(net, pc, q, a);
      assert false;
    }
    if net.less(b, a) {
      SmallerIsDone(net, pc, p, b);
      assert false;
    }
  }

  lemma LocalKeepsInStep<E(!new)>(net: Net<E>, pc: seq<nat>, pc': seq<nat>, p: nat)
    requires net.IsState(pc) && net.IsState(pc') && net.InStep(pc)
    requires net.LocalEnabled(pc, p) && pc' == pc[p := pc[p] + 1]
    ensures net.InStep(pc')
  {
    forall e | net.src(e) < |pc| && net.dst(e) < |pc|
      ensures net.Done(pc', net.src(e), e) <==> net.Done(pc', net.dst(e), e)
    {
      DoneAfterAdvance(net, pc, pc', p, e);
    }
  }

  lemma TransferKeepsInStep<E(!new)>(net: Net<E>, pc: seq<nat>, pc': seq<nat>, p: nat, q: nat)
    requires net.IsState(pc) && net.IsState(pc') && net.InStep(pc)
    requires net.TransferEnabled(pc, p, q) && net.Head(pc, p) == net.Head(pc, q)
    requires pc' == pc[p := pc[p] + 1][q := pc[q] + 1]
    ensures net.InStep(pc')
  {
    forall e | net.src(e) < |pc| && net.dst(e) < |pc|
      ensures net.Done(pc', net.src(e), e) <==> net.Done(pc', net.dst(e), e)
    {
      DoneAfterAdvance(net, pc, pc', p, e);
      DoneAfterAdvance(net, pc, pc', q, e);
    }
  }

  /** Only the head gets done in a step. */
  lemma LocalDone<E(!new)>(net: Net<E>, pc: seq<nat>, pc': seq<nat>, p: nat, q: nat, e: E)
    requires net.IsState(pc) && net.IsState(pc') && net.LocalEnabled(pc, p) && pc' == pc[p := pc[p] + 1] && q < |pc|
    requires net.Done(pc', q, e)
    ensures net.Done(pc, q, e) || e == net.Head(pc, p)
  {
    if q == p { DoneAfterAdvance(net, pc, pc', p, e); }
  }

  lemma TransferDone<E(!new)>(net: Net<E>, pc: seq<nat>, pc': seq<nat>, p: nat, q: nat, k: nat, e: E)
    requires net.IsState(pc) && net.IsState(pc') && net.TransferEnabled(pc, p, q) && net.Head(pc, p) == net.Head(pc, q)
    requires pc' == pc[p := pc[p] + 1][q := pc[q] + 1] && k < |pc| && net.Done(pc', k, e)
    ensures net.Done(pc, k, e) || e == net.Head(pc, p)
  {
    if k == p || k == q { DoneAfterAdvance(net, pc, pc', k, e); }
  }

  /** The invariant of every run: both end points of a transfer pass it together. */
  lemma StepKeepsInStep<E(!new)>(net: Net<E>, pc: seq<nat>, pc': seq<nat>)
    requires net.WellFormed() && net.IsState(pc) && net.IsState(pc') && net.InStep(pc) && net.Step(pc, pc')
    ensures net.InStep(pc')
  {
    if p: nat :| net.LocalEnabled(pc, p) && pc' == pc[p := pc[p] + 1] {
      LocalKeepsInStep(net, pc, pc', p);
    } else {
      var p: nat, q: nat :| net.TransferEnabled(pc, p, q) && pc' == pc[p := pc[p] + 1][q := pc[q] + 1];
      HeadsAgree(net, pc, p, q);
      TransferKeepsInStep(net, pc, pc', p, q);
    }
  }

  // ---------- progress ----------

  lemma {:induction false} LeastHead<E(!new)>(net: Net<E>, pc: seq<nat>, k: nat) returns (p: nat)
    requires net.StrictTotalOrder() && net.IsState(pc) && k <= |pc|
    requires exists q: nat :: q < k && net.Busy(pc, q)
    ensures p < k && net.Busy(pc, p)
    ensures forall q: nat :: q < k && net.Busy(pc, q) ==> !net.less(net.Head(pc, q), net.Head(pc, p))
  {
    if exists q: nat :: q < k - 1 && net.Busy(pc, q) {
      p := LeastHead(net, pc, k - 1);
      if net.Busy(pc, k - 1) && net.less(net.Head(pc, k - 1), net.Head(pc, p)) {
        p := k - 1;
      }
    } else {
      p := k - 1;
    }
  }

  /** An event that is not behind `p` but belongs to its program keeps `p` busy, with a head no later than it. */
  lemma PendingBoundsHead<E(!new)>(net: Net<E>, pc: seq<nat>, p: nat, e: E)
    requires net.WellFormed() && net.IsState(pc) && p < |pc| && e in net.progs[p] && !net.Done(pc, p, e)
    ensures net.Busy(pc, p)
    ensures net.Head(pc, p) == e || net.less(net.Head(pc, p), e)
  {
    var i :| 0 <= i < |net.progs[p]| && net.progs[p][i] == e;
    DoneIffBefore(net, pc, p, i);
  }

  /** No deadlock: while some process is unfinished, some action is enabled. */
  lemma Progress<E(!new)>(net: Net<E>, pc: seq<nat>)
    requires net.WellFormed() && net.ReceivesSent() && net.IsState(pc) && net.InStep(pc)
    requires !net.Finished(pc)
    ensures (exists p: nat :: net.LocalEnabled(pc, p)) || (exists p: nat, q: nat :: net.TransferEnabled(pc, p, q))
  {
    var p := LeastHead(net, pc, |pc|);
    var e := net.Head(pc, p);
    HeadNotDone(net, pc, p);
    var a, b := net.src(e), net.dst(e);
    if a == b {
      assert net.LocalEnabled(pc, p);
    } else {
      var q := if a == p then b else a;
      assert !net.Done(pc, q, e);
      PendingBoundsHead(net, pc, q, e);
      assert net.Head(pc, q) == e;
      assert net.TransferEnabled(pc, a, b);
    }
  }

  // ---------- whole runs ----------

  ghost function Length(xs: seq<nat>): nat {
    if xs == [] then 0 else Length(xs[..|xs| - 1]) + xs[|xs| - 1]
  }

  ghost function Work<E(!new)>(net: Net<E>): nat {
    Length(seq(|net.progs|, p requires 0 <= p < |net.progs| => |net.progs[p]|))
  }

  lemma {:induction false} LengthMonotone(xs: seq<nat>, ys: seq<nat>)
    requires |xs| == |ys| && forall p :: 0 <= p < |xs| ==> xs[p] <= ys[p]
    ensures Length(xs) <= Length(ys)
    ensures xs != ys ==> Length(xs) < Length(ys)
  {
    if xs != [] {
      LengthMonotone(xs[..|xs| - 1], ys[..|ys| - 1]);
      assert xs == xs[..|xs| - 1] + [xs[|xs| - 1]];
      assert ys == ys[..|ys| - 1] + [ys[|ys| - 1]];
    }
  }

  ghost predicate Preserved<E(!new)>(net: Net<E>) {
    forall pc, pc' :: net.IsState(pc) && net.IsState(pc') && net.InStep(pc) && net.Step(pc, pc') ==> net.InStep(pc')
  }

  lemma WellFormedPreserves<E(!new)>(net: Net<E>)
    requires net.WellFormed()
    ensures Preserved(net)
  {
    forall pc, pc' | net.IsState(pc) && net.IsState(pc') && net.InStep(pc) && net.Step(pc, pc')
      ensures net.InStep(pc')
    {
      StepKeepsInStep(net, pc, pc');
    }
  }

  lemma {:induction false} PreservedAlong<E(!new)>(net: Net<E>, run: seq<seq<nat>>, k: nat)
    requires Preserved(net) && net.IsRun(run) && k < |run|
    ensures net.InStep(run[k])
  {
    if k > 0 {
      PreservedAlong(net, run, k - 1);
      assert net.Step(run[k - 1], run[k - 1 + 1]);
    }
  }

  /** Every state of every run satisfies the invariant. */
  lemma RunInvariant<E(!new)>(net: Net<E>, run: seq<seq<nat>>, k: nat)
    requires net.WellFormed() && net.IsRun(run) && k < |run|
    ensures net.InStep(run[k])
  {
    WellFormedPreserves(net);
    PreservedAlong(net, run, k);
  }

  lemma StepAdvances<E(!new)>(net: Net<E>, pc: seq<nat>, pc': seq<nat>)
    requires net.IsState(pc) && net.IsState(pc') && net.Step(pc, pc')
    ensures Length(pc) < Length(pc')
  {
    LengthMonotone(pc, pc');
  }

  /** A run cannot be longer than the programs together. */
  lemma {:induction false} RunBounded<E(!new)>(net: Net<E>, run: seq<seq<nat>>, k: nat)
    requires net.IsRun(run) && k < |run|
    ensures k <= Length(run[k]) <= Work(net)
  {
    LengthMonotone(run[k], seq(|net.progs|, p requires 0 <= p < |net.progs| => |net.progs[p]|));
    if k > 0 {
      RunBounded(net, run, k - 1);
      assert net.Step(run[k - 1], run[k - 1 + 1]);
      StepAdvances(net, run[k - 1], run[k]);
    }
  }

  lemma ExtendRun<E(!new)>(net: Net<E>, run: seq<seq<nat>>, next: seq<nat>)
    requires net.IsRun(run) && net.IsState(next) && net.Step(run[|run| - 1], next)
    ensures net.IsRun(run + [next])
  {
    var run' := run + [next];
    forall k | 0 <= k < |run'| - 1 ensures net.Step(run'[k], run'[k + 1]) {
      assert k < |run| - 1 ==> net.Step(run[k], run[k + 1]);
    }
  }

  lemma LocalIsStep<E(!new)>(net: Net<E>, pc: seq<nat>, p: nat)
    requires net.IsState(pc) && net.LocalEnabled(pc, p)
    ensures net.Step(pc, pc[p := pc[p] + 1])
  {
  }

  lemma TransferIsStep<E(!new)>(net: Net<E>, pc: seq<nat>, p: nat, q: nat)
    requires net.IsState(pc) && net.TransferEnabled(pc, p, q)
    ensures net.Step(pc, pc[p := pc[p] + 1][q := pc[q] + 1])
  {
  }

  lemma TakeStep<E(!new)>(net: Net<E>, pc: seq<nat>) returns (next: seq<nat>)
    requires net.IsState(pc)
    requires (exists p: nat :: net.LocalEnabled(pc, p)) || (exists p: nat, q: nat :: net.TransferEnabled(pc, p, q))
    ensures net.IsState(next) && net.Step(pc, next)
  {
    if p: nat :| net.LocalEnabled(pc, p) {
      next := pc[p := pc[p] + 1];
    } else {
      var p: nat, q: nat :| net.TransferEnabled(pc, p, q);
      next := pc[p := pc[p] + 1][q := pc[q] + 1];
    }
  }

  /** Deadlock freedom of whole runs: a run that cannot be extended has finished every program. */
  lemma RunsFinish<E(!new)>(net: Net<E>, run: seq<seq<nat>>)
    requires net.WellFormed() && net.ReceivesSent() && net.IsRun(run)
    ensures |run| - 1 <= Work(net)
    ensures net.Finished(run[|run| - 1]) || exists next :: net.IsRun(run + [next])
  {
    RunInvariant(net, run, |run| - 1);
    RunBounded(net, run, |run| - 1);
    var last := run[|run| - 1];
    if !net.Finished(last) {
      Progress(net, last);
      var next := TakeStep(net, last);
      ExtendRun(net, run, next);
    }
  }

  /** If a destination waits for a transfer that its source never makes, no run finishes that destination. */
  lemma UnsentBlocks<E(!new)>(net: Net<E>, run: seq<seq<nat>>, e: E)
    requires net.WellFormed() && net.IsRun(run)
    requires net.src(e) < |net.progs| && net.dst(e) < |net.progs|
    requires e in net.progs[net.dst(e)] && e !in net.progs[net.src(e)]
    ensures net.Busy(run[|run| - 1], net.dst(e))
  {
    RunInvariant(net, run, |run| - 1);
    var last := run[|run| - 1];
    assert !net.Done(last, net.src(e), e);
    PendingBoundsHead(net, last, net.dst(e), e);
  }
}
