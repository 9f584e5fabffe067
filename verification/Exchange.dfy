/**
 The hand-ordered point-to-point exchange of `redist` (src/comm/SCommCommon.cpp), which stands in
 for MPI_Alltoallv: every rank visits its peers in rank order, sending first to lower ranks and
 receiving first from higher ones. All sends and receives block.
 */
module Exchange {
  import opened Rendezvous
  import R = Redistribution

  datatype Message = Message(from: nat, to: nat)

  /** What one rank does with peer `i`. For itself it copies. */
  function PeerMessages(a: R.RedistArgs, me: nat, i: nat): seq<Message>
    requires i < |a.sendcounts| == |a.recvcounts|
  {
    var send := if a.sendcounts[i] > 0 then [Message(me, i)] else [];
    var recv := if a.recvcounts[i] > 0 then [Message(i, me)] else [];
    if i < me then send + recv else if i > me then recv + send else send
  }

  /** Peers 0..n-1 in order. */
  function RankProgram(a: R.RedistArgs, me: nat, n: nat): seq<Message>
    requires n <= |a.sendcounts| == |a.recvcounts|
  {
    if n == 0 then [] else RankProgram(a, me, n - 1) + PeerMessages(a, me, n - 1)
  }

  // ---------- the order behind the loops ----------

  function Low(m: Message): nat { if m.from < m.to then m.from else m.to }

  function High(m: Message): nat { if m.from < m.to then m.to else m.from }

  /** Pairs of ranks in lexicographic order; within a pair, the message of the higher rank first. */
  predicate MessageLess(a: Message, b: Message) {
    Low(a) < Low(b) || (Low(a) == Low(b) && (High(a) < High(b) || (High(a) == High(b) && a.from > b.from)))
  }

  lemma MessageOrder()
    ensures forall e :: !MessageLess(e, e)
    ensures forall a, b, c :: MessageLess(a, b) && MessageLess(b, c) ==> MessageLess(a, c)
    ensures forall a, b :: a != b ==> MessageLess(a, b) || MessageLess(b, a)
  {
  }

  ghost predicate Sorted(ms: seq<Message>) {
    forall i, j :: 0 <= i < j < |ms| ==> MessageLess(ms[i], ms[j])
  }

  /** The amounts of every rank, as the ranks computed them separately, agree. */
  ghost predicate Agree(args: seq<R.RedistArgs>) {
    && (forall i :: 0 <= i < |args| ==>
          |args[i].sendcounts| == |args[i].recvcounts| == |args[i].sdispls| == |args[i].rdispls| == |args|)
    && (forall i, j :: 0 <= i < |args| && 0 <= j < |args| ==> args[i].sendcounts[j] == args[j].recvcounts[i])
  }

  predicate InProgram(a: R.RedistArgs, me: nat, n: nat, m: Message)
    requires n <= |a.sendcounts| == |a.recvcounts|
  {
    || (m.from == me && m.to < n && a.sendcounts[m.to] > 0)
    || (m.to == me && m.from < n && m.from != me && a.recvcounts[m.from] > 0)
  }

  lemma SortedConcat(a: seq<Message>, b: seq<Message>)
    requires Sorted(a) && Sorted(b) && forall x, y :: x in a && y in b ==> MessageLess(x, y)
    ensures Sorted(a + b)
  {
  }

  lemma PeerMessagesAre(a: R.RedistArgs, me: nat, i: nat)
    requires i < |a.sendcounts| == |a.recvcounts|
    ensures Sorted(PeerMessages(a, me, i))
    ensures forall m :: m in PeerMessages(a, me, i) <==>
              (m == Message(me, i) && a.sendcounts[i] > 0) || (m == Message(i, me) && i != me && a.recvcounts[i] > 0)
  {
  }

  lemma {:induction false} RankProgramContents(a: R.RedistArgs, me: nat, n: nat)
    requires n <= |a.sendcounts| == |a.recvcounts|
    ensures forall m :: m in RankProgram(a, me, n) <==> InProgram(a, me, n, m)
  {
    hide PeerMessages;
    if n > 0 {
      RankProgramContents(a, me, n - 1);
      PeerMessagesAre(a, me, n - 1);
    }
  }

  lemma {:induction false} RankProgramSorted(a: R.RedistArgs, me: nat, n: nat)
    requires n <= |a.sendcounts| == |a.recvcounts|
    ensures Sorted(RankProgram(a, me, n))
  {
    hide PeerMessages;
    if n > 0 {
      RankProgramSorted(a, me, n - 1);
      RankProgramContents(a, me, n - 1);
      PeerMessagesAre(a, me, n - 1);
      var front, last := RankProgram(a, me, n - 1), PeerMessages(a, me, n - 1);
      forall x, y | x in front && y in last ensures MessageLess(x, y) {
        assert InProgram(a, me, n - 1, x);
      }
      SortedConcat(front, last);
    }
  }

  /** A rank's loop performs exactly its messages, in the global order. */
  lemma RankProgramIs(a: R.RedistArgs, me: nat, n: nat)
    requires n <= |a.sendcounts| == |a.recvcounts|
    ensures forall m :: m in RankProgram(a, me, n) <==> InProgram(a, me, n, m)
    ensures Sorted(RankProgram(a, me, n))
  {
    RankProgramContents(a, me, n);
    RankProgramSorted(a, me, n);
  }

  ghost function NetOf(args: seq<R.RedistArgs>): Net<Message>
    requires Agree(args)
  {
    Net(seq(|args|, p requires 0 <= p < |args| => RankProgram(args[p], p, |args|)),
        MessageLess, (m: Message) => m.from, (m: Message) => m.to, (a: Message, b: Message) => a == b)
  }

  lemma NetIsGood(args: seq<R.RedistArgs>)
    requires Agree(args)
    ensures NetOf(args).WellFormed() && NetOf(args).ReceivesSent()
  {
    var net := NetOf(args);
    MessageOrder();
    forall p: nat | p < |args|
      ensures Sorted(net.progs[p])
      ensures forall m :: m in net.progs[p] <==> InProgram(args[p], p, |args|, m)
    {
      RankProgramIs(args[p], p, |args|);
    }
    forall p, i | 0 <= p < |args| && 0 <= i < |net.progs[p]| ensures InProgram(args[p], p, |args|, net.progs[p][i]) {
      assert net.progs[p][i] in net.progs[p];
    }
  }

  // ---------- the machine with buffers ----------

  function Put<T>(buf: seq<T>, at: nat, part: seq<T>): seq<T>
    requires at + |part| <= |buf|
  {
    buf[..at] + part + buf[at + |part|..]
  }

  /** Message `m` fits its source and destination buffer. */
  ghost predicate Fits<T>(args: seq<R.RedistArgs>, sent: seq<seq<T>>, got: seq<seq<T>>, m: Message)
    requires Agree(args) && |sent| == |got| == |args| && m.from < |args| && m.to < |args|
  {
    && args[m.from].sdispls[m.to] + args[m.from].sendcounts[m.to] <= |sent[m.from]|
    && args[m.to].rdispls[m.from] + args[m.from].sendcounts[m.to] <= |got[m.to]|
  }

  ghost function Part<T>(args: seq<R.RedistArgs>, sent: seq<seq<T>>, m: Message): seq<T>
    requires Agree(args) && |sent| == |args| && m.from < |args| && m.to < |args|
    requires args[m.from].sdispls[m.to] + args[m.from].sendcounts[m.to] <= |sent[m.from]|
  {
    sent[m.from][args[m.from].sdispls[m.to]..args[m.from].sdispls[m.to] + args[m.from].sendcounts[m.to]]
  }

  datatype State<T> = State(pc: seq<nat>, bufs: seq<seq<T>>)

  /** Every message that is ever sent fits, and two messages to one rank have disjoint places. */
  ghost predicate Layout<T>(args: seq<R.RedistArgs>, sent: seq<seq<T>>, sizes: seq<nat>)
    requires Agree(args)
  {
    && |sent| == |sizes| == |args|
    && (forall i, j :: 0 <= i < |args| && 0 <= j < |args| && args[i].sendcounts[j] > 0 ==>
          Room(args, sent, sizes, i, j))
    && (forall i, k, j | 0 <= i < |args| && 0 <= k < |args| && 0 <= j < |args| && i != k ::
          args[i].sendcounts[j] > 0 && args[k].sendcounts[j] > 0 ==> Apart(args, i, k, j))
  }

  ghost predicate Room<T>(args: seq<R.RedistArgs>, sent: seq<seq<T>>, sizes: seq<nat>, i: nat, j: nat)
    requires Agree(args) && |sent| == |sizes| == |args| && i < |args| && j < |args|
  {
    && args[i].sdispls[j] + args[i].sendcounts[j] <= |sent[i]|
    && args[j].rdispls[i] + args[i].sendcounts[j] <= sizes[j]
  }

  ghost predicate Apart(args: seq<R.RedistArgs>, i: nat, k: nat, j: nat)
    requires Agree(args) && i < |args| && k < |args| && j < |args|
  {
    || args[j].rdispls[i] + args[i].sendcounts[j] <= args[j].rdispls[k]
    || args[j].rdispls[k] + args[k].sendcounts[j] <= args[j].rdispls[i]
  }

  ghost predicate IsState<T>(args: seq<R.RedistArgs>, sizes: seq<nat>, st: State<T>)
    requires Agree(args) && |sizes| == |args|
  {
    NetOf(args).IsState(st.pc) && R.Holds(st.bufs, sizes)
  }

  ghost predicate Deliver<T>(args: seq<R.RedistArgs>, sent: seq<seq<T>>, bufs: seq<seq<T>>, bufs': seq<seq<T>>,
                             m: Message)
    requires Agree(args) && |sent| == |bufs| == |args|
  {
    m.from < |args| && m.to < |args| && Fits(args, sent, bufs, m)
    && bufs' == bufs[m.to := Put(bufs[m.to], args[m.to].rdispls[m.from], Part(args, sent, m))]
  }

  ghost predicate CopyStep<T>(args: seq<R.RedistArgs>, sent: seq<seq<T>>, sizes: seq<nat>, st: State<T>, st': State<T>,
                              p: nat)
    requires Agree(args) && |sent| == |sizes| == |args| && IsState(args, sizes, st)
  {
    && NetOf(args).LocalEnabled(st.pc, p) && st'.pc == st.pc[p := st.pc[p] + 1]
    && Deliver(args, sent, st.bufs, st'.bufs, NetOf(args).Head(st.pc, p))
  }

  ghost predicate SendStep<T>(args: seq<R.RedistArgs>, sent: seq<seq<T>>, sizes: seq<nat>, st: State<T>, st': State<T>,
                              p: nat, q: nat)
    requires Agree(args) && |sent| == |sizes| == |args| && IsState(args, sizes, st)
  {
    && NetOf(args).TransferEnabled(st.pc, p, q) && st'.pc == st.pc[p := st.pc[p] + 1][q := st.pc[q] + 1]
    && Deliver(args, sent, st.bufs, st'.bufs, NetOf(args).Head(st.pc, p))
  }

  ghost predicate Step<T>(args: seq<R.RedistArgs>, sent: seq<seq<T>>, sizes: seq<nat>, st: State<T>, st': State<T>)
    requires Agree(args) && |sent| == |sizes| == |args| && IsState(args, sizes, st)
  {
    || (exists p: nat :: CopyStep(args, sent, sizes, st, st', p))
    || (exists p: nat, q: nat :: SendStep(args, sent, sizes, st, st', p, q))
  }

  ghost predicate IsRun<T>(args: seq<R.RedistArgs>, sent: seq<seq<T>>, sizes: seq<nat>, run: seq<State<T>>)
    requires Agree(args) && |sent| == |sizes| == |args|
  {
    && |run| > 0 && run[0].pc == NetOf(args).Start()
    && (forall k :: 0 <= k < |run| ==> IsState(args, sizes, run[k]))
    && (forall k :: 0 <= k < |run| - 1 ==> Step(args, sent, sizes, run[k], run[k + 1]))
  }

  /** The place of message `m` holds its data. */
  ghost predicate Placed<T>(args: seq<R.RedistArgs>, sent: seq<seq<T>>, bufs: seq<seq<T>>, m: Message)
    requires Agree(args) && |sent| == |bufs| == |args| && m.from < |args| && m.to < |args|
  {
    Fits(args, sent, bufs, m) ==>
      bufs[m.to][args[m.to].rdispls[m.from]..args[m.to].rdispls[m.from] + args[m.from].sendcounts[m.to]] ==
        Part(args, sent, m)
  }

  /** The invariant: whatever message is behind its source lies in its place. */
  ghost predicate Good<T>(args: seq<R.RedistArgs>, sent: seq<seq<T>>, sizes: seq<nat>, st: State<T>)
    requires Agree(args) && Layout(args, sent, sizes)
  {
    IsState(args, sizes, st) && NetOf(args).InStep(st.pc) && DonePlaced(args, sent, st.bufs, st.pc)
  }

  ghost predicate DonePlaced<T>(args: seq<R.RedistArgs>, sent: seq<seq<T>>, bufs: seq<seq<T>>, pc: seq<nat>)
    requires Agree(args) && |sent| == |bufs| == |args| && NetOf(args).IsState(pc)
  {
    forall m: Message :: m.from < |args| && m.to < |args| && NetOf(args).Done(pc, m.from, m) ==>
      Placed(args, sent, bufs, m)
  }

  /** Nothing but `e` got done between `pc` and `pc'`. */
  ghost predicate OnlyNew(args: seq<R.RedistArgs>, pc: seq<nat>, pc': seq<nat>, e: Message)
    requires Agree(args) && NetOf(args).IsState(pc) && NetOf(args).IsState(pc')
  {
    forall p: nat, m :: p < |args| && NetOf(args).Done(pc', p, m) ==> NetOf(args).Done(pc, p, m) || m == e
  }

  lemma PutAt<T>(buf: seq<T>, at: nat, part: seq<T>, lo: nat, hi: nat)
    requires at + |part| <= |buf| && lo <= hi <= |buf|
    ensures |Put(buf, at, part)| == |buf|
    ensures Put(buf, at, part)[at..at + |part|] == part
    ensures hi <= at || at + |part| <= lo ==> Put(buf, at, part)[lo..hi] == buf[lo..hi]
  {
  }

  /** Delivering one message keeps the data of all others where it is. */
  lemma DeliverKeeps<T>(args: seq<R.RedistArgs>, sent: seq<seq<T>>, sizes: seq<nat>, bufs: seq<seq<T>>,
                        bufs': seq<seq<T>>, e: Message, m: Message)
    requires Agree(args) && Layout(args, sent, sizes) && R.Holds(bufs, sizes)
    requires Deliver(args, sent, bufs, bufs', e) && args[e.from].sendcounts[e.to] > 0
    requires m.from < |args| && m.to < |args| && args[m.from].sendcounts[m.to] > 0
    requires m == e || Placed(args, sent, bufs, m)
    ensures R.Holds(bufs', sizes) && Placed(args, sent, bufs', m)
  {
    var at, part := args[e.to].rdispls[e.from], Part(args, sent, e);
    PutAt(bufs[e.to], at, part, at, at + |part|);
    if m.to == e.to && m != e {
      assert Apart(args, m.from, e.from, e.to);
      var lo := args[m.to].rdispls[m.from];
      PutAt(bufs[e.to], at, part, lo, lo + args[m.from].sendcounts[m.to]);
    }
  }

  /** What is in a program has a positive amount, fits, and stays within the communicator. */
  lemma InNet<T>(args: seq<R.RedistArgs>, sent: seq<seq<T>>, sizes: seq<nat>, p: nat, m: Message)
    requires Agree(args) && Layout(args, sent, sizes) && p < |args| && m in NetOf(args).progs[p]
    ensures m.from < |args| && m.to < |args| && args[m.from].sendcounts[m.to] > 0
  {
    RankProgramIs(args[p], p, |args|);
  }

  lemma DoneInNet<T>(args: seq<R.RedistArgs>, sent: seq<seq<T>>, sizes: seq<nat>, pc: seq<nat>, p: nat, m: Message)
    requires Agree(args) && Layout(args, sent, sizes) && p < |args| && NetOf(args).IsState(pc) &&
             NetOf(args).Done(pc, p, m)
    ensures m.from < |args| && m.to < |args| && args[m.from].sendcounts[m.to] > 0
  {
    InNet(args, sent, sizes, p, m);
  }

  lemma HeadInNet<T>(args: seq<R.RedistArgs>, sent: seq<seq<T>>, sizes: seq<nat>, pc: seq<nat>, p: nat)
    requires Agree(args) && Layout(args, sent, sizes) && NetOf(args).IsState(pc) && NetOf(args).Busy(pc, p)
    ensures var m := NetOf(args).Head(pc, p); m.from < |args| && m.to < |args| && args[m.from].sendcounts[m.to] > 0
  {
    InNet(args, sent, sizes, p, NetOf(args).Head(pc, p));
  }

  /** After a step that delivers `e`, everything behind its source is in place. */
  lemma PlacedAfter<T>(args: seq<R.RedistArgs>, sent: seq<seq<T>>, sizes: seq<nat>, st: State<T>, st': State<T>,
                       e: Message)
    requires Agree(args) && Layout(args, sent, sizes) && IsState(args, sizes, st) &&
             DonePlaced(args, sent, st.bufs, st.pc)
    requires Deliver(args, sent, st.bufs, st'.bufs, e) && args[e.from].sendcounts[e.to] > 0
    requires NetOf(args).IsState(st'.pc) && OnlyNew(args, st.pc, st'.pc, e)
    ensures R.Holds(st'.bufs, sizes) && DonePlaced(args, sent, st'.bufs, st'.pc)
  {
    DeliverKeeps(args, sent, sizes, st.bufs, st'.bufs, e, e);
    forall m: Message | m.from < |args| && m.to < |args| && NetOf(args).Done(st'.pc, m.from, m)
      ensures Placed(args, sent, st'.bufs, m)
    {
      DoneInNet(args, sent, sizes, st'.pc, m.from, m);
      DeliverKeeps(args, sent, sizes, st.bufs, st'.bufs, e, m);
    }
  }

  lemma CopyAdvances(args: seq<R.RedistArgs>, pc: seq<nat>, pc': seq<nat>, p: nat)
    requires Agree(args) && NetOf(args).IsState(pc) && NetOf(args).InStep(pc)
    requires NetOf(args).LocalEnabled(pc, p) && pc' == pc[p := pc[p] + 1]
    ensures NetOf(args).IsState(pc') && NetOf(args).InStep(pc') && OnlyNew(args, pc, pc', NetOf(args).Head(pc, p))
  {
    var net := NetOf(args);
    LocalKeepsInStep(net, pc, pc', p);
    forall q: nat, m | q < |args| && net.Done(pc', q, m) ensures net.Done(pc, q, m) || m == net.Head(pc, p) {
      LocalDone(net, pc, pc', p, q, m);
    }
  }

  lemma SendAdvances(args: seq<R.RedistArgs>, pc: seq<nat>, pc': seq<nat>, p: nat, q: nat)
    requires Agree(args) && NetOf(args).IsState(pc) && NetOf(args).InStep(pc)
    requires NetOf(args).TransferEnabled(pc, p, q) && pc' == pc[p := pc[p] + 1][q := pc[q] + 1]
    ensures NetOf(args).IsState(pc') && NetOf(args).InStep(pc') && OnlyNew(args, pc, pc', NetOf(args).Head(pc, p))
  {
    var net := NetOf(args);
    TransferKeepsInStep(net, pc, pc', p, q);
    forall k: nat, m | k < |args| && net.Done(pc', k, m) ensures net.Done(pc, k, m) || m == net.Head(pc, p) {
      TransferDone(net, pc, pc', p, q, k, m);
    }
  }

  lemma CopyKeepsGood<T>(args: seq<R.RedistArgs>, sent: seq<seq<T>>, sizes: seq<nat>, st: State<T>, st': State<T>,
                         p: nat)
    requires Agree(args) && Layout(args, sent, sizes) && Good(args, sent, sizes, st) &&
             CopyStep(args, sent, sizes, st, st', p)
    ensures Good(args, sent, sizes, st')
  {
    HeadInNet(args, sent, sizes, st.pc, p);
    hide Layout, DonePlaced, Deliver, OnlyNew;
    CopyAdvances(args, st.pc, st'.pc, p);
    PlacedAfter(args, sent, sizes, st, st', NetOf(args).Head(st.pc, p));
  }

  lemma SendKeepsGood<T>(args: seq<R.RedistArgs>, sent: seq<seq<T>>, sizes: seq<nat>, st: State<T>, st': State<T>,
                         p: nat, q: nat)
    requires Agree(args) && Layout(args, sent, sizes) && Good(args, sent, sizes, st) &&
             SendStep(args, sent, sizes, st, st', p, q)
    ensures Good(args, sent, sizes, st')
  {
    HeadInNet(args, sent, sizes, st.pc, p);
    hide Layout, DonePlaced, Deliver, OnlyNew;
    SendAdvances(args, st.pc, st'.pc, p, q);
    PlacedAfter(args, sent, sizes, st, st', NetOf(args).Head(st.pc, p));
  }

  lemma {:induction false} RunIsGood<T>(args: seq<R.RedistArgs>, sent: seq<seq<T>>, sizes: seq<nat>, run: seq<State<T>>,
                                        k: nat)
    requires Agree(args) && Layout(args, sent, sizes) && IsRun(args, sent, sizes, run) && k < |run|
    ensures Good(args, sent, sizes, run[k])
  {
    if k > 0 {
      RunIsGood(args, sent, sizes, run, k - 1);
      StepKeepsGood(args, sent, sizes, run[k - 1], run[k - 1 + 1]);
    }
  }

  lemma StepKeepsGood<T>(args: seq<R.RedistArgs>, sent: seq<seq<T>>, sizes: seq<nat>, st: State<T>, st': State<T>)
    requires Agree(args) && Layout(args, sent, sizes) && Good(args, sent, sizes, st) && Step(args, sent, sizes, st, st')
    ensures Good(args, sent, sizes, st')
  {
    if p: nat :| CopyStep(args, sent, sizes, st, st', p) {
      CopyKeepsGood(args, sent, sizes, st, st', p);
    } else {
      var p: nat, q: nat :| SendStep(args, sent, sizes, st, st', p, q);
      SendKeepsGood(args, sent, sizes, st, st', p, q);
    }
  }

  /** When every rank has finished, every message with a positive amount lies in its place. */
  lemma FinishedIsDelivered<T>(args: seq<R.RedistArgs>, sent: seq<seq<T>>, sizes: seq<nat>, run: seq<State<T>>,
                               m: Message)
    requires Agree(args) && Layout(args, sent, sizes) && IsRun(args, sent, sizes, run)
    requires NetOf(args).Finished(run[|run| - 1].pc)
    requires m.from < |args| && m.to < |args| && args[m.from].sendcounts[m.to] > 0
    ensures Fits(args, sent, run[|run| - 1].bufs, m) && Placed(args, sent, run[|run| - 1].bufs, m)
  {
    var last := run[|run| - 1];
    RunIsGood(args, sent, sizes, run, |run| - 1);
    var prog := NetOf(args).progs[m.from];
    assert !NetOf(args).Busy(last.pc, m.from);
    assert prog[..last.pc[m.from]] == prog;
    RankProgramIs(args[m.from], m.from, |args|);
    assert NetOf(args).Done(last.pc, m.from, m);
  }

  // ---------- no deadlock ----------

  lemma CanCopy<T>(args: seq<R.RedistArgs>, sent: seq<seq<T>>, sizes: seq<nat>, st: State<T>, p: nat)
    returns (next: State<T>)
    requires Agree(args) && Layout(args, sent, sizes) && IsState(args, sizes, st) && NetOf(args).LocalEnabled(st.pc, p)
    ensures CopyStep(args, sent, sizes, st, next, p) && IsState(args, sizes, next)
  {
    next := DeliverHead(args, sent, sizes, st, p, st.pc[p := st.pc[p] + 1]);
  }

  lemma CanSend<T>(args: seq<R.RedistArgs>, sent: seq<seq<T>>, sizes: seq<nat>, st: State<T>, p: nat, q: nat)
    returns (next: State<T>)
    requires Agree(args) && Layout(args, sent, sizes) && IsState(args, sizes, st) &&
             NetOf(args).TransferEnabled(st.pc, p, q)
    ensures SendStep(args, sent, sizes, st, next, p, q) && IsState(args, sizes, next)
  {
    next := DeliverHead(args, sent, sizes, st, p, st.pc[p := st.pc[p] + 1][q := st.pc[q] + 1]);
  }

  lemma CanStep<T>(args: seq<R.RedistArgs>, sent: seq<seq<T>>, sizes: seq<nat>, st: State<T>) returns (next: State<T>)
    requires Agree(args) && Layout(args, sent, sizes) && Good(args, sent, sizes, st) && !NetOf(args).Finished(st.pc)
    ensures Step(args, sent, sizes, st, next) && IsState(args, sizes, next)
  {
    hide CopyStep, SendStep, Placed;
    AnEnabledAction(args, st.pc);
    if p: nat :| NetOf(args).LocalEnabled(st.pc, p) {
      next := CanCopy(args, sent, sizes, st, p);
    } else {
      var p: nat, q: nat :| NetOf(args).TransferEnabled(st.pc, p, q);
      next := CanSend(args, sent, sizes, st, p, q);
    }
  }

  lemma DeliverHead<T>(args: seq<R.RedistArgs>, sent: seq<seq<T>>, sizes: seq<nat>, st: State<T>, p: nat, pc': seq<nat>)
    returns (next: State<T>)
    requires Agree(args) && Layout(args, sent, sizes) && IsState(args, sizes, st) && NetOf(args).Busy(st.pc, p)
    ensures next.pc == pc' && Deliver(args, sent, st.bufs, next.bufs, NetOf(args).Head(st.pc, p)) &&
            R.Holds(next.bufs, sizes)
  {
    HeadInNet(args, sent, sizes, st.pc, p);
    var m := NetOf(args).Head(st.pc, p);
    next := State(pc', st.bufs[m.to := Put(st.bufs[m.to], args[m.to].rdispls[m.from], Part(args, sent, m))]);
  }

  lemma AnEnabledAction(args: seq<R.RedistArgs>, pc: seq<nat>)
    requires Agree(args) && NetOf(args).IsState(pc) && NetOf(args).InStep(pc) && !NetOf(args).Finished(pc)
    ensures (exists p: nat :: NetOf(args).LocalEnabled(pc, p))
         || (exists p: nat, q: nat :: NetOf(args).TransferEnabled(pc, p, q))
  {
    NetIsGood(args);
    Progress(NetOf(args), pc);
  }

  ghost function Counters<T>(run: seq<State<T>>): seq<seq<nat>> {
    seq(|run|, k requires 0 <= k < |run| => run[k].pc)
  }

  lemma CopyIsNetStep<T>(args: seq<R.RedistArgs>, sent: seq<seq<T>>, sizes: seq<nat>, st: State<T>, st': State<T>,
                         p: nat)
    requires Agree(args) && |sent| == |sizes| == |args| && IsState(args, sizes, st) &&
             CopyStep(args, sent, sizes, st, st', p)
    ensures NetOf(args).Step(st.pc, st'.pc)
  {
    LocalIsStep(NetOf(args), st.pc, p);
  }

  lemma SendIsNetStep<T>(args: seq<R.RedistArgs>, sent: seq<seq<T>>, sizes: seq<nat>, st: State<T>, st': State<T>,
                         p: nat, q: nat)
    requires Agree(args) && |sent| == |sizes| == |args| && IsState(args, sizes, st) &&
             SendStep(args, sent, sizes, st, st', p, q)
    ensures NetOf(args).Step(st.pc, st'.pc)
  {
    TransferIsStep(NetOf(args), st.pc, p, q);
  }

  lemma StepIsNetStep<T>(args: seq<R.RedistArgs>, sent: seq<seq<T>>, sizes: seq<nat>, st: State<T>, st': State<T>)
    requires Agree(args) && |sent| == |sizes| == |args| && IsState(args, sizes, st) && Step(args, sent, sizes, st, st')
    ensures NetOf(args).Step(st.pc, st'.pc)
  {
    hide CopyStep, SendStep;
    if p: nat :| CopyStep(args, sent, sizes, st, st', p) {
      CopyIsNetStep(args, sent, sizes, st, st', p);
    } else {
      var p: nat, q: nat :| SendStep(args, sent, sizes, st, st', p, q);
      SendIsNetStep(args, sent, sizes, st, st', p, q);
    }
  }

  lemma RunsAreBounded<T>(args: seq<R.RedistArgs>, sent: seq<seq<T>>, sizes: seq<nat>, run: seq<State<T>>)
    requires Agree(args) && |sent| == |sizes| == |args| && IsRun(args, sent, sizes, run)
    ensures |run| - 1 <= Work(NetOf(args))
  {
    var pcs := Counters(run);
    forall k | 0 <= k < |pcs| - 1 ensures NetOf(args).Step(pcs[k], pcs[k + 1]) {
      StepIsNetStep(args, sent, sizes, run[k], run[k + 1]);
    }
    RunBounded(NetOf(args), pcs, |run| - 1);
  }

  lemma ExtendExchange<T>(args: seq<R.RedistArgs>, sent: seq<seq<T>>, sizes: seq<nat>, run: seq<State<T>>,
                          next: State<T>)
    requires Agree(args) && |sent| == |sizes| == |args| && IsRun(args, sent, sizes, run)
    requires IsState(args, sizes, next) && Step(args, sent, sizes, run[|run| - 1], next)
    ensures IsRun(args, sent, sizes, run + [next])
  {
    hide Step;
  }

  lemma OneMoreStep<T>(args: seq<R.RedistArgs>, sent: seq<seq<T>>, sizes: seq<nat>, run: seq<State<T>>)
    returns (longer: seq<State<T>>)
    requires Agree(args) && Layout(args, sent, sizes) && IsRun(args, sent, sizes, run)
    requires !NetOf(args).Finished(run[|run| - 1].pc)
    ensures IsRun(args, sent, sizes, longer) && |longer| == |run| + 1 && run <= longer &&
            |longer| - 1 <= Work(NetOf(args))
  {
    RunIsGood(args, sent, sizes, run, |run| - 1);
    var next := CanStep(args, sent, sizes, run[|run| - 1]);
    ExtendExchange(args, sent, sizes, run, next);
    longer := run + [next];
    RunsAreBounded(args, sent, sizes, longer);
  }

  /** The ordering cannot deadlock, for any number of ranks and any amounts: every run can be continued to the end. */
  lemma {:induction false} EveryRunCanFinish<T>(args: seq<R.RedistArgs>, sent: seq<seq<T>>, sizes: seq<nat>,
                                                run: seq<State<T>>)
    returns (full: seq<State<T>>)
    requires Agree(args) && Layout(args, sent, sizes) && IsRun(args, sent, sizes, run)
    ensures IsRun(args, sent, sizes, full) && run <= full && NetOf(args).Finished(full[|full| - 1].pc)
    decreases Work(NetOf(args)) + 1 - |run|
  {
    hide Agree, Layout, Step, R.Holds;
    if NetOf(args).Finished(run[|run| - 1].pc) {
      full := run;
    } else {
      var longer := OneMoreStep(args, sent, sizes, run);
      full := EveryRunCanFinish(args, sent, sizes, longer);
    }
  }

  // ---------- the exchange of a redistribution ----------

  /** The arguments every member of the communicator computed on its own with `GetRedistArgs`. */
  ghost predicate Computed(s: R.Sides, group: seq<nat>, args: seq<R.RedistArgs>) {
    && s.Valid() && R.Distinct(group) && |args| == |group|
    && (forall r :: r in s.srcRanks ==> r in group)
    && (forall r :: r in s.dstRanks ==> r in group)
    && (forall l :: 0 <= l < |args| ==>
          |args[l].sendcounts| == |args[l].sdispls| == |args[l].recvcounts| == |args[l].rdispls| == |group|)
    && (forall l, k :: 0 <= l < |args| && 0 <= k < |args| ==>
          && R.SendRight(s, group[l], group[k], args[l].sendcounts[k], args[l].sdispls[k])
          && R.RecvRight(s, group[l], group[k], args[l].recvcounts[k], args[l].rdispls[k]))
  }

  /** How large each member's buffer is on one side of the route. */
  function SideSizes(group: seq<nat>, ranks: seq<nat>, sizes: seq<nat>): seq<nat>
    requires |ranks| == |sizes|
  {
    seq(|group|, l requires 0 <= l < |group| => if group[l] in ranks then sizes[R.IndexOf(ranks, group[l])] else 0)
  }

  /** The buffers of the ranks of one side, in rank order. */
  ghost function SideBuffers<T>(group: seq<nat>, ranks: seq<nat>, bufs: seq<seq<T>>): seq<seq<T>>
    requires |bufs| == |group| && forall r :: r in ranks ==> r in group
  {
    seq(|ranks|, i requires 0 <= i < |ranks| => bufs[R.IndexOf(group, ranks[i])])
  }

  lemma PartFits(src: seq<nat>, dst: seq<nat>, i: nat, j: nat)
    requires i < |src| && j < |dst| && R.Count(src, dst, i, j) > 0
    ensures 0 <= R.Displ(src, dst, i, j) && R.Displ(src, dst, i, j) + R.Count(src, dst, i, j) <= src[i]
  {
  }

  lemma PartsApart(src: seq<nat>, dst: seq<nat>, i: nat, k: nat, j: nat)
    requires i < k < |src| && j < |dst| && R.Count(src, dst, i, j) > 0 && R.Count(src, dst, k, j) > 0
    ensures R.Displ(dst, src, j, i) + R.Count(src, dst, i, j) <= R.Displ(dst, src, j, k)
  {
    R.PrefixMonotone(src, i + 1, k);
  }

  lemma ComputedAgree(s: R.Sides, group: seq<nat>, args: seq<R.RedistArgs>)
    requires Computed(s, group, args)
    ensures Agree(args)
  {
    hide R.Flow;
    forall i, j | 0 <= i < |args| && 0 <= j < |args| ensures args[i].sendcounts[j] == args[j].recvcounts[i] {
      assert R.SendRight(s, group[i], group[j], args[i].sendcounts[j], args[i].sdispls[j]);
      assert R.RecvRight(s, group[j], group[i], args[j].recvcounts[i], args[j].rdispls[i]);
    }
  }

  /** A message between members `l` and `k` is part `(i, j)` of the redistribution. */
  lemma MessageIsPart(s: R.Sides, group: seq<nat>, args: seq<R.RedistArgs>, l: nat, k: nat) returns (i: nat, j: nat)
    requires Computed(s, group, args) && l < |args| && k < |args| && args[l].sendcounts[k] > 0
    ensures i < |s.srcRanks| && j < |s.dstRanks| && s.srcRanks[i] == group[l] && s.dstRanks[j] == group[k]
    ensures i == R.IndexOf(s.srcRanks, group[l]) && j == R.IndexOf(s.dstRanks, group[k])
    ensures args[l].sendcounts[k] == R.Count(s.Src(), s.Dst(), i, j)
    ensures args[l].sdispls[k] == R.Displ(s.Src(), s.Dst(), i, j) &&
            args[k].rdispls[l] == R.Displ(s.Dst(), s.Src(), j, i)
  {
    assert R.SendRight(s, group[l], group[k], args[l].sendcounts[k], args[l].sdispls[k]);
    assert R.RecvRight(s, group[k], group[l], args[k].recvcounts[l], args[k].rdispls[l]);
    i, j := R.IndexOf(s.srcRanks, group[l]), R.IndexOf(s.dstRanks, group[k]);
  }

  lemma ComputedRoom<T>(s: R.Sides, group: seq<nat>, args: seq<R.RedistArgs>, sent: seq<seq<T>>, l: nat, k: nat)
    requires Computed(s, group, args) && Agree(args) && R.Holds(sent, SideSizes(group, s.srcRanks, s.Src()))
    requires l < |args| && k < |args| && args[l].sendcounts[k] > 0
    ensures Room(args, sent, SideSizes(group, s.dstRanks, s.Dst()), l, k)
  {
    var i, j := MessageIsPart(s, group, args, l, k);
    PartFits(s.Src(), s.Dst(), i, j);
    R.CountSymmetric(s.Src(), s.Dst(), i, j);
    PartFits(s.Dst(), s.Src(), j, i);
  }

  lemma ComputedApart(s: R.Sides, group: seq<nat>, args: seq<R.RedistArgs>, l: nat, l': nat, k: nat)
    requires Computed(s, group, args) && Agree(args) && l < |args| && l' < |args| && k < |args| && l != l'
    requires args[l].sendcounts[k] > 0 && args[l'].sendcounts[k] > 0
    ensures Apart(args, l, l', k)
  {
    var i, j := MessageIsPart(s, group, args, l, k);
    var i', j' := MessageIsPart(s, group, args, l', k);
    assert group[l] != group[l'];
    if i < i' { PartsApart(s.Src(), s.Dst(), i, i', j); } else { PartsApart(s.Src(), s.Dst(), i', i, j); }
  }

  lemma ComputedLayout<T>(s: R.Sides, group: seq<nat>, args: seq<R.RedistArgs>, sent: seq<seq<T>>)
    requires Computed(s, group, args) && Agree(args) && R.Holds(sent, SideSizes(group, s.srcRanks, s.Src()))
    ensures Layout(args, sent, SideSizes(group, s.dstRanks, s.Dst()))
  {
    hide Room, Apart;
    var sizes := SideSizes(group, s.dstRanks, s.Dst());
    forall l, k | 0 <= l < |args| && 0 <= k < |args| && args[l].sendcounts[k] > 0
      ensures Room(args, sent, sizes, l, k)
    {
      ComputedRoom(s, group, args, sent, l, k);
    }
    forall l, l', k | 0 <= l < |args| && 0 <= l' < |args| && 0 <= k < |args| && l != l'
                      && args[l].sendcounts[k] > 0 && args[l'].sendcounts[k] > 0
      ensures Apart(args, l, l', k)
    {
      ComputedApart(s, group, args, l, l', k);
    }
  }

  /** Part `(i, j)` of the redistribution is the message between the members that hold its two ends. */
  lemma PartIsMessage(s: R.Sides, group: seq<nat>, args: seq<R.RedistArgs>, i: nat, j: nat) returns (m: Message)
    requires Computed(s, group, args) && i < |s.srcRanks| && j < |s.dstRanks| && R.Count(s.Src(), s.Dst(), i, j) > 0
    ensures m == Message(R.IndexOf(group, s.srcRanks[i]), R.IndexOf(group, s.dstRanks[j]))
    ensures m.from < |args| && m.to < |args| && args[m.from].sendcounts[m.to] == R.Count(s.Src(), s.Dst(), i, j)
    ensures args[m.from].sdispls[m.to] == R.Displ(s.Src(), s.Dst(), i, j)
    ensures args[m.to].rdispls[m.from] == R.Displ(s.Dst(), s.Src(), j, i)
  {
    m := Message(R.IndexOf(group, s.srcRanks[i]), R.IndexOf(group, s.dstRanks[j]));
    R.IndexOfUnique(s.srcRanks, i);
    R.IndexOfUnique(s.dstRanks, j);
    hide R.Count, R.Displ;
    assert R.SendRight(s, group[m.from], group[m.to], args[m.from].sendcounts[m.to], args[m.from].sdispls[m.to]);
    assert R.RecvRight(s, group[m.to], group[m.from], args[m.to].recvcounts[m.from], args[m.to].rdispls[m.from]);
  }

  lemma MovedElement<T>(args: seq<R.RedistArgs>, sent: seq<seq<T>>, bufs: seq<seq<T>>, m: Message, x: nat)
    requires Agree(args) && |sent| == |bufs| == |args| && m.from < |args| && m.to < |args| &&
             x < args[m.from].sendcounts[m.to]
    requires Fits(args, sent, bufs, m) && Placed(args, sent, bufs, m)
    ensures bufs[m.to][args[m.to].rdispls[m.from] + x] == sent[m.from][args[m.from].sdispls[m.to] + x]
  {
    var at, n := args[m.to].rdispls[m.from], args[m.from].sendcounts[m.to];
    assert bufs[m.to][at..at + n][x] == Part(args, sent, m)[x];
  }

  ghost predicate AllPlaced<T>(args: seq<R.RedistArgs>, sent: seq<seq<T>>, bufs: seq<seq<T>>)
    requires Agree(args) && |sent| == |bufs| == |args|
  {
    forall m: Message :: m.from < |args| && m.to < |args| && args[m.from].sendcounts[m.to] > 0 ==>
      Fits(args, sent, bufs, m) && Placed(args, sent, bufs, m)
  }

  lemma MessageMovesPart<T(!new)>(src: seq<nat>, dst: seq<nat>, args: seq<R.RedistArgs>, sent: seq<seq<T>>,
                                  bufs: seq<seq<T>>, from: seq<seq<T>>, to: seq<seq<T>>, m: Message, i: nat, j: nat,
                                  x: nat)
    requires Agree(args) && |sent| == |bufs| == |args| && m.from < |args| && m.to < |args|
    requires R.Holds(from, src) && R.Holds(to, dst) && i < |src| && j < |dst| && x < R.Count(src, dst, i, j)
    requires args[m.from].sendcounts[m.to] == R.Count(src, dst, i, j)
    requires args[m.from].sdispls[m.to] == R.Displ(src, dst, i, j) &&
             args[m.to].rdispls[m.from] == R.Displ(dst, src, j, i)
    requires from[i] == sent[m.from] && to[j] == bufs[m.to]
    requires Fits(args, sent, bufs, m) && Placed(args, sent, bufs, m)
    ensures R.SamePart(src, dst, from, to, i, j, x)
  {
    MovedElement(args, sent, bufs, m, x);
  }

  lemma OnePartMoved<T(!new)>(s: R.Sides, group: seq<nat>, args: seq<R.RedistArgs>, sent: seq<seq<T>>,
                              bufs: seq<seq<T>>, from: seq<seq<T>>, to: seq<seq<T>>, i: nat, j: nat, x: nat)
    requires Computed(s, group, args) && Agree(args) && |sent| == |bufs| == |args|
    requires from == SideBuffers(group, s.srcRanks, sent) && to == SideBuffers(group, s.dstRanks, bufs)
    requires R.Holds(from, s.Src()) && R.Holds(to, s.Dst()) && AllPlaced(args, sent, bufs)
    requires i < |s.srcRanks| && j < |s.dstRanks| && x < R.Count(s.Src(), s.Dst(), i, j)
    ensures R.SamePart(s.Src(), s.Dst(), from, to, i, j, x)
  {
    hide R.Count, R.Displ, Fits, Placed, R.SamePart;
    var m := PartIsMessage(s, group, args, i, j);
    MessageMovesPart(s.Src(), s.Dst(), args, sent, bufs, from, to, m, i, j, x);
  }

  /** The point-to-point exchange leaves behind what the all-to-all exchange would: with arguments that every rank
      computed on its own, any finished run has moved every part of the tensor to its place. */
  lemma FinishedIsExchanged<T(!new)>(s: R.Sides, group: seq<nat>, args: seq<R.RedistArgs>, sent: seq<seq<T>>,
                                     run: seq<State<T>>)
    requires Computed(s, group, args) && Agree(args) && R.Holds(sent, SideSizes(group, s.srcRanks, s.Src()))
    requires IsRun(args, sent, SideSizes(group, s.dstRanks, s.Dst()), run) && NetOf(args).Finished(run[|run| - 1].pc)
    ensures var from, to := SideBuffers(group, s.srcRanks, sent), SideBuffers(group, s.dstRanks, run[|run| - 1].bufs);
            R.Holds(from, s.Src()) && R.Holds(to, s.Dst()) && R.Exchanged(s.Src(), s.Dst(), from, to)
  {
    SideRanks(s, group, args);
    hide Computed, Layout, Step, R.Count, R.SamePart, Fits, Placed;
    var sizes, bufs := SideSizes(group, s.dstRanks, s.Dst()), run[|run| - 1].bufs;
    var from, to := SideBuffers(group, s.srcRanks, sent), SideBuffers(group, s.dstRanks, bufs);
    SideHolds(group, s.srcRanks, s.Src(), sent);
    SideHolds(group, s.dstRanks, s.Dst(), bufs);
    ComputedLayout(s, group, args, sent);
    forall m: Message | m.from < |args| && m.to < |args| && args[m.from].sendcounts[m.to] > 0
      ensures Fits(args, sent, bufs, m) && Placed(args, sent, bufs, m)
    {
      FinishedIsDelivered(args, sent, sizes, run, m);
    }
    forall i: nat, j: nat, x: nat | i < |s.Src()| && j < |s.Dst()| && x < R.Count(s.Src(), s.Dst(), i, j)
      ensures R.SamePart(s.Src(), s.Dst(), from, to, i, j, x)
    {
      OnePartMoved(s, group, args, sent, bufs, from, to, i, j, x);
    }
  }

  lemma SideRanks(s: R.Sides, group: seq<nat>, args: seq<R.RedistArgs>)
    requires Computed(s, group, args)
    ensures s.Valid() && R.Distinct(group) && |args| == |group|
    ensures (forall r :: r in s.srcRanks ==> r in group) && (forall r :: r in s.dstRanks ==> r in group)
  {
  }

  lemma SideHolds<T>(group: seq<nat>, ranks: seq<nat>, sizes: seq<nat>, bufs: seq<seq<T>>)
    requires R.Distinct(group) && R.Distinct(ranks) && |ranks| == |sizes| && (forall r :: r in ranks ==> r in group)
    requires R.Holds(bufs, SideSizes(group, ranks, sizes))
    ensures R.Holds(SideBuffers(group, ranks, bufs), sizes)
  {
    forall i | 0 <= i < |ranks| ensures |SideBuffers(group, ranks, bufs)[i]| == sizes[i] {
      R.IndexOfUnique(ranks, i);
    }
  }

  /** Redistribution end to end: if both sides account for the same total, the destination ranks end up holding
      together, in rank order, exactly what the source ranks held together. */
  lemma ExchangePreserves<T(!new)>(s: R.Sides, group: seq<nat>, args: seq<R.RedistArgs>, sent: seq<seq<T>>,
                                   run: seq<State<T>>)
    requires Computed(s, group, args) && Agree(args) && R.Holds(sent, SideSizes(group, s.srcRanks, s.Src()))
    requires IsRun(args, sent, SideSizes(group, s.dstRanks, s.Dst()), run) && NetOf(args).Finished(run[|run| - 1].pc)
    ensures R.Concat(SideBuffers(group, s.dstRanks, run[|run| - 1].bufs)) ==
              R.Concat(SideBuffers(group, s.srcRanks, sent))
            <==> R.Total(s.Src()) == R.Total(s.Dst())
  {
    FinishedIsExchanged(s, group, args, sent, run);
    R.RedistributionPreserves(s.Src(), s.Dst(), SideBuffers(group, s.srcRanks, sent),
                              SideBuffers(group, s.dstRanks, run[|run| - 1].bufs));
  }

  // ---------- the loop of one rank ----------

  method Write<T>(buf: array<T>, at: nat, part: seq<T>)
    requires at + |part| <= buf.Length
    modifies buf
    ensures buf[..] == Put(old(buf[..]), at, part)
  {
    forall x | 0 <= x < |part| { buf[at + x] := part[x]; }
  }

  /** The receive buffer of `me` after peers 0..n-1; `parts[i]` is what peer `i` sends. */
  function Filled<T>(buf: seq<T>, a: R.RedistArgs, parts: seq<seq<T>>, n: nat): (r: seq<T>)
    requires n <= |a.recvcounts| == |a.rdispls| == |parts|
    requires forall i :: 0 <= i < |parts| ==> |parts[i]| == a.recvcounts[i] && a.rdispls[i] + a.recvcounts[i] <= |buf|
    ensures |r| == |buf|
  {
    if n == 0 then buf
    else if a.recvcounts[n - 1] > 0 then Put(Filled(buf, a, parts, n - 1), a.rdispls[n - 1], parts[n - 1])
    else Filled(buf, a, parts, n - 1)
  }

  /** `redist` on rank `me`: it performs its messages in the order of `RankProgram` and ends with every
      received part written to its place. `arrivals[i]` is what the blocking receive from peer `i` delivers. */
  method Redist<T>(a: R.RedistArgs, me: nat, sendbuf: seq<T>, arrivals: seq<seq<T>>, recvbuf: array<T>)
    returns (trace: seq<Message>)
    requires me < |a.sendcounts| == |a.sdispls| == |a.recvcounts| == |a.rdispls| == |arrivals|
    requires forall i :: 0 <= i < |arrivals| ==>
               |arrivals[i]| == a.recvcounts[i] && a.rdispls[i] + a.recvcounts[i] <= recvbuf.Length
    requires a.sendcounts[me] == a.recvcounts[me] && a.sdispls[me] + a.sendcounts[me] <= |sendbuf|
    modifies recvbuf
    ensures trace == RankProgram(a, me, |a.sendcounts|)
    ensures recvbuf[..] == Filled(old(recvbuf[..]), a,
                                  arrivals[me := sendbuf[a.sdispls[me]..a.sdispls[me] + a.sendcounts[me]]],
                                  |a.sendcounts|)
  {
    hide Put, PeerMessages;
    ghost var parts := arrivals[me := sendbuf[a.sdispls[me]..a.sdispls[me] + a.sendcounts[me]]];
    ghost var before := recvbuf[..];
    trace := [];
    for i := 0 to |a.sendcounts|
      invariant trace == RankProgram(a, me, i)
      invariant recvbuf[..] == Filled(before, a, parts, i)
    {
      var part := if i == me then sendbuf[a.sdispls[me]..a.sdispls[me] + a.sendcounts[me]] else arrivals[i];
      var order := ExchangeWith(a, me, i, part, recvbuf);
      trace := trace + order;
    }
  }

  /** One turn of the loop: lower peers are sent to first, higher peers received from first, oneself copied. */
  method ExchangeWith<T>(a: R.RedistArgs, me: nat, i: nat, part: seq<T>, recvbuf: array<T>)
    returns (order: seq<Message>)
    requires i < |a.sendcounts| == |a.recvcounts| == |a.rdispls|
    requires |part| == a.recvcounts[i] && a.rdispls[i] + a.recvcounts[i] <= recvbuf.Length
    requires i == me ==> a.sendcounts[i] == a.recvcounts[i]
    modifies recvbuf
    ensures order == PeerMessages(a, me, i)
    ensures recvbuf[..] == if a.recvcounts[i] > 0 then Put(old(recvbuf[..]), a.rdispls[i], part) else old(recvbuf[..])
  {
    hide Put;
    var sc, rc := a.sendcounts[i], a.recvcounts[i];
    order := [];
    if i < me {
      if sc > 0 { order := order + [Message(me, i)]; }
      if rc > 0 { Write(recvbuf, a.rdispls[i], part); order := order + [Message(i, me)]; }
    } else if i > me {
      if rc > 0 { Write(recvbuf, a.rdispls[i], part); order := order + [Message(i, me)]; }
      if sc > 0 { order := order + [Message(me, i)]; }
    } else {
      if sc > 0 { Write(recvbuf, a.rdispls[i], part); order := order + [Message(me, me)]; }
    }
  }
}
