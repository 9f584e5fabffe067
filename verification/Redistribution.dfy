/**
 Which part of a distributed tensor goes from which source rank to which destination rank
 (src/comm/SComm.cpp).  Every rank computes its own counts and displacements from the size of
 every rank's share; nothing is negotiated.
 */
module Redistribution {
  import opened Arithmetic

  /** Where the share of the `i`-th rank starts in the whole tensor. */
  function Prefix(sizes: seq<nat>, i: nat): nat
    requires i <= |sizes|
  {
    if i == 0 then 0 else Prefix(sizes, i - 1) + sizes[i - 1]
  }

  function Total(sizes: seq<nat>): nat { Prefix(sizes, |sizes|) }

  lemma {:induction false} PrefixMonotone(sizes: seq<nat>, i: nat, j: nat)
    requires i <= j <= |sizes|
    ensures Prefix(sizes, i) <= Prefix(sizes, j)
  {
    if i < j { PrefixMonotone(sizes, i, j - 1); }
  }

  /** The length of the overlap of `[a, b)` and `[c, d)`. */
  function Overlap(a: int, b: int, c: int, d: int): nat {
    Max(0, Min(b, d) - Max(a, c))
  }

  /** How much of the whole is both in share `i` of `mine` and in share `j` of `peers`. */
  function Count(mine: seq<nat>, peers: seq<nat>, i: nat, j: nat): nat
    requires i < |mine| && j < |peers|
  {
    Overlap(Prefix(mine, i), Prefix(mine, i + 1), Prefix(peers, j), Prefix(peers, j + 1))
  }

  /** Where that part starts inside share `i` of `mine`. */
  function Displ(mine: seq<nat>, peers: seq<nat>, i: nat, j: nat): int
    requires i < |mine| && j < |peers|
  {
    Max(Prefix(mine, i), Prefix(peers, j)) - Prefix(mine, i)
  }

  function Lookup(m: map<nat, nat>, k: nat): nat { if k in m then m[k] else 0 }

  ghost predicate Distinct(ranks: seq<nat>) {
    forall i, j :: 0 <= i < j < |ranks| ==> ranks[i] != ranks[j]
  }

  function SizesOf(ranks: seq<nat>, dist: map<nat, nat>): seq<nat>
    requires forall r :: r in ranks ==> r in dist
  {
    seq(|ranks|, i requires 0 <= i < |ranks| => dist[ranks[i]])
  }

  /** `count` and `displ` are right for the peer whose share is `[a, b)`. */
  predicate EntryRight(from: int, to: int, a: int, b: int, count: int, displ: int) {
    count == Overlap(from, to, a, b) && (count > 0 ==> displ == Max(from, a) - from)
  }

  /** The entries of the first `j` peers are right and there are no others. */
  ghost predicate Walked(from: nat, to: nat, ranks: seq<nat>, peers: seq<nat>, counts: map<nat, nat>,
                         displs: map<nat, nat>, j: nat)
    requires |ranks| == |peers| && j <= |ranks|
  {
    && (forall k :: 0 <= k < j ==>
          EntryRight(from, to, Prefix(peers, k), Prefix(peers, k + 1), Lookup(counts, ranks[k]),
                     Lookup(displs, ranks[k])))
    && (forall r :: r in counts ==> exists k :: 0 <= k < j && ranks[k] == r)
  }

  lemma WalkedNext(from: nat, to: nat, ranks: seq<nat>, peers: seq<nat>, j: nat,
                   counts: map<nat, nat>, displs: map<nat, nat>, counts': map<nat, nat>, displs': map<nat, nat>)
    requires |ranks| == |peers| && j < |ranks| && Distinct(ranks)
    requires Walked(from, to, ranks, peers, counts, displs, j)
    requires forall r :: r != ranks[j] ==>
               Lookup(counts', r) == Lookup(counts, r) && Lookup(displs', r) == Lookup(displs, r) &&
               (r in counts' ==> r in counts)
    requires EntryRight(from, to, Prefix(peers, j), Prefix(peers, j + 1), Lookup(counts', ranks[j]),
                        Lookup(displs', ranks[j]))
    ensures Walked(from, to, ranks, peers, counts', displs', j + 1)
  {
  }

  /** `offset` elements of the share lie before `pos`. */
  predicate Placing(from: int, to: int, offset: int, pos: int) { from + offset == Max(from, Min(to, pos)) }

  lemma NotYet(from: nat, to: nat, ranks: seq<nat>, peers: seq<nat>, counts: map<nat, nat>, displs: map<nat, nat>,
               j: nat)
    requires |ranks| == |peers| && j < |ranks| && Distinct(ranks) && Walked(from, to, ranks, peers, counts, displs, j)
    ensures ranks[j] !in counts
  {
  }

  /** Once the walk has placed the whole share, the remaining peers get nothing. */
  lemma WalkEnds(from: nat, to: nat, ranks: seq<nat>, peers: seq<nat>, counts: map<nat, nat>, displs: map<nat, nat>,
                 j: nat, offset: nat)
    requires |ranks| == |peers| && j <= |ranks| && Distinct(ranks) && from <= to
    requires Walked(from, to, ranks, peers, counts, displs, j)
    requires Placing(from, to, offset, Prefix(peers, j)) && from + offset == to
    ensures Walked(from, to, ranks, peers, counts, displs, |ranks|)
  {
    forall k | j <= k < |ranks|
      ensures EntryRight(from, to, Prefix(peers, k), Prefix(peers, k + 1), Lookup(counts, ranks[k]),
                         Lookup(displs, ranks[k]))
    {
      PrefixMonotone(peers, j, k);
    }
  }

  /** The inner walk of `getRedistArgsSend` over the destinations, for the source whose share is `[from, to)`.
      `getRedistArgsRecv` is the same walk with the two sides exchanged. */
  method WalkPeers(from: nat, to: nat, ranks: seq<nat>, dist: map<nat, nat>)
    returns (counts: map<nat, nat>, displs: map<nat, nat>)
    requires from <= to && Distinct(ranks)
    requires forall r :: r in ranks ==> r in dist
    ensures Walked(from, to, ranks, SizesOf(ranks, dist), counts, displs, |ranks|)
  {
    hide EntryRight, Overlap;
    ghost var peers := SizesOf(ranks, dist);
    counts, displs := map[], map[];
    var offset, peerFrom, j := 0, 0, 0;
    assert Walked(from, to, ranks, peers, counts, displs, 0);
    while j < |ranks|
      invariant 0 <= j <= |ranks|
      invariant peerFrom == Prefix(peers, j) && Placing(from, to, offset, peerFrom)
      invariant Walked(from, to, ranks, peers, counts, displs, j)
    {
      ghost var counts0, displs0 := counts, displs;
      NotYet(from, to, ranks, peers, counts, displs, j);
      assert peers[j] == dist[ranks[j]];
      hide Walked, SizesOf, Placing;
      counts, displs, offset := WalkPeer(from, to, ranks[j], dist[ranks[j]], peerFrom, counts, displs, offset);
      WalkedNext(from, to, ranks, peers, j, counts0, displs0, counts, displs);
      peerFrom := peerFrom + dist[ranks[j]];
      j := j + 1;
      if from + offset == to {
        WalkEnds(from, to, ranks, peers, counts, displs, j, offset);
        break;
      }
    }
  }

  /** The loop body of the walk: what peer `peer` gets, and how much is placed afterwards. */
  method WalkPeer(from: nat, to: nat, peer: nat, size: nat, peerFrom: nat,
                  counts: map<nat, nat>, displs: map<nat, nat>, offset: nat)
    returns (counts': map<nat, nat>, displs': map<nat, nat>, offset': nat)
    requires from <= to && peer !in counts && Placing(from, to, offset, peerFrom)
    ensures EntryRight(from, to, peerFrom, peerFrom + size, Lookup(counts', peer), Lookup(displs', peer))
    ensures Placing(from, to, offset', peerFrom + size)
    ensures forall r :: r != peer ==>
              Lookup(counts', r) == Lookup(counts, r) && Lookup(displs', r) == Lookup(displs, r) &&
              (r in counts' ==> r in counts)
  {
    counts', displs', offset' := counts, displs, offset;
    if from + offset <= peerFrom + size {
      var count := Min(to - (from + offset), peerFrom + size - (from + offset));
      counts' := counts[peer := count];
      displs' := displs[peer := offset];
      offset' := offset + count;
    }
  }

  // ---------- one rank's arguments ----------

  function IndexOf(ranks: seq<nat>, r: nat): (i: nat)
    requires r in ranks
    ensures i < |ranks| && ranks[i] == r
  {
    if ranks[0] == r then 0 else 1 + IndexOf(ranks[1..], r)
  }

  lemma IndexOfUnique(ranks: seq<nat>, i: nat)
    requires Distinct(ranks) && i < |ranks|
    ensures IndexOf(ranks, ranks[i]) == i
  {
  }

  /** Ranks and sizes of both sides of a route, in rank order. */
  datatype Sides = Sides(srcRanks: seq<nat>, dstRanks: seq<nat>, srcDist: map<nat, nat>, dstDist: map<nat, nat>) {
    ghost predicate Valid() {
      && Distinct(srcRanks) && Distinct(dstRanks)
      && (forall r :: r in srcRanks ==> r in srcDist)
      && (forall r :: r in dstRanks ==> r in dstDist)
    }

    function Src(): seq<nat>
      requires Valid()
    {
      SizesOf(srcRanks, srcDist)
    }

    function Dst(): seq<nat>
      requires Valid()
    {
      SizesOf(dstRanks, dstDist)
    }
  }

  /** What rank `a` must send to rank `b`. */
  function Flow(s: Sides, a: nat, b: nat): nat
    requires s.Valid()
  {
    if a in s.srcRanks &&
      b in s.dstRanks then Count(s.Src(), s.Dst(), IndexOf(s.srcRanks, a), IndexOf(s.dstRanks, b)) else 0
  }

  datatype RedistArgs = RedistArgs(sendcounts: seq<nat>, sdispls: seq<nat>, recvcounts: seq<nat>, rdispls: seq<nat>)

  /** The entries that rank `me` of `mine` must end up with. */
  ghost predicate ShareWalked(mine: seq<nat>, me: nat, ranks: seq<nat>, peers: seq<nat>, counts: map<nat, nat>,
                              displs: map<nat, nat>)
    requires me < |mine| && |ranks| == |peers|
  {
    Walked(Prefix(mine, me), Prefix(mine, me + 1), ranks, peers, counts, displs, |ranks|)
  }

  /** The outer loop of `getRedistArgsSend` and `getRedistArgsRecv`: find my share, then walk the peers. */
  method CountsFor(myRank: nat, mineRanks: seq<nat>, mineDist: map<nat, nat>, peerRanks: seq<nat>,
                   peerDist: map<nat, nat>)
    returns (counts: map<nat, nat>, displs: map<nat, nat>)
    requires Distinct(mineRanks) && Distinct(peerRanks) && myRank in mineRanks
    requires forall r :: r in mineRanks ==> r in mineDist
    requires forall r :: r in peerRanks ==> r in peerDist
    ensures ShareWalked(SizesOf(mineRanks, mineDist), IndexOf(mineRanks, myRank), peerRanks,
                        SizesOf(peerRanks, peerDist), counts, displs)
  {
    hide Walked;
    ghost var mine, me, peers := SizesOf(mineRanks, mineDist), IndexOf(mineRanks, myRank), SizesOf(peerRanks, peerDist);
    counts, displs := map[], map[];
    var from := 0;
    for k := 0 to |mineRanks|
      invariant k <= me ==> from == Prefix(mine, k)
      invariant k > me ==> ShareWalked(mine, me, peerRanks, peers, counts, displs)
    {
      IndexOfUnique(mineRanks, k);
      if myRank == mineRanks[k] {
        counts, displs := WalkPeers(from, from + mineDist[myRank], peerRanks, peerDist);
      } else {
        from := from + mineDist[mineRanks[k]];
      }
    }
  }

  /** Spread per-rank entries over the communicator's local ranks, with 0 where there is none. */
  method Spread(entries: map<nat, nat>, group: seq<nat>) returns (out: seq<nat>)
    ensures |out| == |group| && forall l :: 0 <= l < |group| ==> out[l] == Lookup(entries, group[l])
  {
    out := [];
    for l := 0 to |group|
      invariant |out| == l && forall k :: 0 <= k < l ==> out[k] == Lookup(entries, group[k])
    {
      out := out + [Lookup(entries, group[l])];
    }
  }

  lemma WalkedMeans(from: nat, to: nat, ranks: seq<nat>, peers: seq<nat>, counts: map<nat, nat>, displs: map<nat, nat>,
                    b: nat)
    requires |ranks| == |peers| && Walked(from, to, ranks, peers, counts, displs, |ranks|)
    ensures b !in ranks ==> Lookup(counts, b) == 0
    ensures b in ranks ==> var j := IndexOf(ranks, b);
              EntryRight(from, to, Prefix(peers, j), Prefix(peers, j + 1), Lookup(counts, b), Lookup(displs, b))
  {
  }

  lemma CountSymmetric(mine: seq<nat>, peers: seq<nat>, i: nat, j: nat)
    requires i < |mine| && j < |peers|
    ensures Count(mine, peers, i, j) == Count(peers, mine, j, i)
  {
  }

  ghost predicate SendRight(s: Sides, a: nat, b: nat, count: nat, displ: nat)
    requires s.Valid()
  {
    count == Flow(s, a, b) &&
    (count > 0 ==> displ == Displ(s.Src(), s.Dst(), IndexOf(s.srcRanks, a), IndexOf(s.dstRanks, b)))
  }

  ghost predicate RecvRight(s: Sides, b: nat, a: nat, count: nat, displ: nat)
    requires s.Valid()
  {
    count == Flow(s, a, b) &&
    (count > 0 ==> displ == Displ(s.Dst(), s.Src(), IndexOf(s.dstRanks, b), IndexOf(s.srcRanks, a)))
  }

  lemma SendSide(s: Sides, a: nat, b: nat, counts: map<nat, nat>, displs: map<nat, nat>)
    requires s.Valid()
    requires if a in s.srcRanks
             then ShareWalked(s.Src(), IndexOf(s.srcRanks, a), s.dstRanks, s.Dst(), counts, displs)
             else counts == map[]
    ensures SendRight(s, a, b, Lookup(counts, b), Lookup(displs, b))
  {
    if a in s.srcRanks {
      var i := IndexOf(s.srcRanks, a);
      WalkedMeans(Prefix(s.Src(), i), Prefix(s.Src(), i + 1), s.dstRanks, s.Dst(), counts, displs, b);
    }
  }

  lemma RecvSide(s: Sides, b: nat, a: nat, counts: map<nat, nat>, displs: map<nat, nat>)
    requires s.Valid()
    requires if b in s.dstRanks
             then ShareWalked(s.Dst(), IndexOf(s.dstRanks, b), s.srcRanks, s.Src(), counts, displs)
             else counts == map[]
    ensures RecvRight(s, b, a, Lookup(counts, a), Lookup(displs, a))
  {
    if b in s.dstRanks {
      var j := IndexOf(s.dstRanks, b);
      WalkedMeans(Prefix(s.Dst(), j), Prefix(s.Dst(), j + 1), s.srcRanks, s.Src(), counts, displs, a);
      if a in s.srcRanks { CountSymmetric(s.Dst(), s.Src(), j, IndexOf(s.srcRanks, a)); }
    }
  }

  /** Counts and displacements computed by rank `me` on its own, one entry per member of the communicator.
      `Flow(s, a, b)` is both what `a` counts as sent to `b` and what `b` counts as received from `a`. */
  method GetRedistArgs(me: nat, s: Sides, group: seq<nat>) returns (args: RedistArgs)
    requires s.Valid()
    ensures |args.sendcounts| == |args.sdispls| == |args.recvcounts| == |args.rdispls| == |group|
    ensures forall l :: 0 <= l < |group| ==> SendRight(s, me, group[l], args.sendcounts[l], args.sdispls[l])
    ensures forall l :: 0 <= l < |group| ==> RecvRight(s, me, group[l], args.recvcounts[l], args.rdispls[l])
  {
    hide ShareWalked, SendRight, RecvRight;
    var sendcounts, sdispls: map<nat, nat> := map[], map[];
    var recvcounts, rdispls: map<nat, nat> := map[], map[];
    if me in s.srcRanks {
      sendcounts, sdispls := CountsFor(me, s.srcRanks, s.srcDist, s.dstRanks, s.dstDist);
    }
    if me in s.dstRanks {
      recvcounts, rdispls := CountsFor(me, s.dstRanks, s.dstDist, s.srcRanks, s.srcDist);
    }
    var sc := Spread(sendcounts, group);
    var sd := Spread(sdispls, group);
    var rc := Spread(recvcounts, group);
    var rd := Spread(rdispls, group);
    args := RedistArgs(sc, sd, rc, rd);
    forall l | 0 <= l < |group|
      ensures SendRight(s, me, group[l], sc[l], sd[l])
      ensures RecvRight(s, me, group[l], rc[l], rd[l])
    {
      SendSide(s, me, group[l], sendcounts, sdispls);
      RecvSide(s, me, group[l], recvcounts, rdispls);
    }
  }

  // ---------- the exchange as a whole ----------

  function Concat<T>(bufs: seq<seq<T>>): seq<T> {
    if bufs == [] then [] else Concat(bufs[..|bufs| - 1]) + bufs[|bufs| - 1]
  }

  ghost predicate Holds<T>(bufs: seq<seq<T>>, sizes: seq<nat>) {
    |bufs| == |sizes| && forall i :: 0 <= i < |bufs| ==> |bufs[i]| == sizes[i]
  }

  /** The state that an all-to-all exchange with these counts and displacements leaves behind
      (MPI_Alltoallv, section 5.8 of MPI-3.1): part `(i, j)` of source `i` lies in its place at destination `j`. */
  ghost predicate Exchanged<T(!new)>(src: seq<nat>, dst: seq<nat>, sent: seq<seq<T>>, got: seq<seq<T>>)
    requires Holds(sent, src) && Holds(got, dst)
  {
    forall i, j, x :: 0 <= i < |src| && 0 <= j < |dst| && 0 <= x < Count(src, dst, i, j) ==>
      SamePart(src, dst, sent, got, i, j, x)
  }

  ghost predicate SamePart<T(!new)>(src: seq<nat>, dst: seq<nat>, sent: seq<seq<T>>, got: seq<seq<T>>, i: nat, j: nat,
                                    x: nat)
    requires Holds(sent, src) && Holds(got, dst) && i < |src| && j < |dst| && x < Count(src, dst, i, j)
  {
    got[j][Displ(dst, src, j, i) + x] == sent[i][Displ(src, dst, i, j) + x]
  }

  lemma {:induction false} Locate(sizes: seq<nat>, g: nat) returns (i: nat)
    requires g < Total(sizes)
    ensures i < |sizes| && Prefix(sizes, i) <= g < Prefix(sizes, i + 1)
  {
    i := 0;
    while Prefix(sizes, i + 1) <= g
      invariant i < |sizes| && Prefix(sizes, i) <= g
      decreases |sizes| - i
    {
      i := i + 1;
    }
  }

  lemma {:induction false} PrefixOfPrefix(sizes: seq<nat>, i: nat, n: nat)
    requires i <= n <= |sizes|
    ensures Prefix(sizes[..n], i) == Prefix(sizes, i)
  {
    if i > 0 { PrefixOfPrefix(sizes, i - 1, n); }
  }

  lemma {:induction false} ConcatAt<T>(bufs: seq<seq<T>>, sizes: seq<nat>, i: nat, x: nat)
    requires Holds(bufs, sizes) && i < |bufs| && x < sizes[i]
    ensures |Concat(bufs)| == Total(sizes)
    ensures Prefix(sizes, i) + x < |Concat(bufs)| && Concat(bufs)[Prefix(sizes, i) + x] == bufs[i][x]
  {
    var n := |bufs| - 1;
    ConcatLength(bufs, sizes);
    ConcatLength(bufs[..n], sizes[..n]);
    PrefixOfPrefix(sizes, n, n);
    PrefixMonotone(sizes, i + 1, |sizes|);
    if i < n {
      ConcatAt(bufs[..n], sizes[..n], i, x);
      PrefixOfPrefix(sizes, i, n);
    }
  }

  lemma {:induction false} ConcatLength<T>(bufs: seq<seq<T>>, sizes: seq<nat>)
    requires Holds(bufs, sizes)
    ensures |Concat(bufs)| == Total(sizes)
  {
    if bufs != [] {
      ConcatLength(bufs[..|bufs| - 1], sizes[..|bufs| - 1]);
      PrefixOfPrefix(sizes, |bufs| - 1, |bufs| - 1);
    }
  }

  /** Whatever the two distributions are, the exchange moves every element that both sides have room for to the same
      place. */
  lemma ExchangeKeepsElement<T(!new)>(src: seq<nat>, dst: seq<nat>, sent: seq<seq<T>>, got: seq<seq<T>>, g: nat)
    requires Holds(sent, src) && Holds(got, dst) && Exchanged(src, dst, sent, got)
    requires g < Total(src) && g < Total(dst)
    ensures g < |Concat(got)| && g < |Concat(sent)| && Concat(got)[g] == Concat(sent)[g]
  {
    var i := Locate(src, g);
    var j := Locate(dst, g);
    ConcatAt(sent, src, i, g - Prefix(src, i));
    ConcatAt(got, dst, j, g - Prefix(dst, j));
    var x := g - Max(Prefix(src, i), Prefix(dst, j));
    assert x < Count(src, dst, i, j);
    assert SamePart(src, dst, sent, got, i, j, x);
  }

  /** Redistribution changes only where the data lies: the destination buffers together equal the source
      buffers together exactly when the two distributions have the same total. */
  lemma RedistributionPreserves<T(!new)>(src: seq<nat>, dst: seq<nat>, sent: seq<seq<T>>, got: seq<seq<T>>)
    requires Holds(sent, src) && Holds(got, dst) && Exchanged(src, dst, sent, got)
    ensures Concat(got) == Concat(sent) <==> Total(src) == Total(dst)
  {
    ConcatLength(sent, src);
    ConcatLength(got, dst);
    if Total(src) == Total(dst) {
      forall g | 0 <= g < Total(src) ensures Concat(got)[g] == Concat(sent)[g] {
        ExchangeKeepsElement(src, dst, sent, got, g);
      }
    }
  }
}
