/**
 How a global batch is cut into pipeline splits and per-rank shares (src/Common.cpp).

 The reference is plain round robin: sample `g` of the global batch belongs to rank `g % world`.
 */
module BatchSplit {
  import opened Arithmetic
  import R = Redistribution

  // ---------- the reference ----------

  /** How many of the samples `lo..hi-1` belong to rank `r`. */
  function Hits(lo: int, hi: int, world: nat, r: int): nat
    requires world > 0
    decreases hi - lo
  {
    if hi <= lo then 0 else Hits(lo, hi - 1, world, r) + (if (hi - 1) % world == r then 1 else 0)
  }

  lemma {:induction false} HitsSplit(a: int, b: int, c: int, world: nat, r: int)
    requires a <= b <= c && world > 0
    ensures Hits(a, c, world, r) == Hits(a, b, world, r) + Hits(b, c, world, r)
    decreases c - b
  {
    if b < c { HitsSplit(a, b, c - 1, world, r); }
  }

  function SumHits(lo: int, hi: int, world: nat, n: nat): nat
    requires world > 0
  {
    if n == 0 then 0 else SumHits(lo, hi, world, n - 1) + Hits(lo, hi, world, n - 1)
  }

  lemma {:induction false} SumHitsStep(lo: int, hi: int, world: nat, n: nat)
    requires world > 0 && lo < hi
    ensures SumHits(lo, hi, world, n) == SumHits(lo, hi - 1, world, n) + (if (hi - 1) % world < n then 1 else 0)
  {
    if n > 0 { SumHitsStep(lo, hi, world, n - 1); }
  }

  lemma {:induction false} SumHitsEmpty(lo: int, hi: int, world: nat, n: nat)
    requires world > 0 && hi <= lo
    ensures SumHits(lo, hi, world, n) == 0
  {
    if n > 0 { SumHitsEmpty(lo, hi, world, n - 1); }
  }

  /** Every sample belongs to exactly one rank. */
  lemma {:induction false} SumHitsIsAll(lo: int, hi: int, world: nat)
    requires world > 0 && lo <= hi
    ensures SumHits(lo, hi, world, world) == hi - lo
    decreases hi - lo
  {
    if lo == hi {
      SumHitsEmpty(lo, hi, world, world);
    } else {
      SumHitsIsAll(lo, hi - 1, world);
      SumHitsStep(lo, hi, world, world);
    }
  }

  // ---------- the balanced share ----------

  /** The size of slot `k` when `batch` is cut into `n` nearly equal slots, the larger ones first. */
  function Share(batch: int, n: nat, k: int): int
    requires n > 0
  {
    batch / n + (if k < batch % n then 1 else 0)
  }

  lemma ShareNext(batch: int, n: nat, k: int)
    requires n > 0 && 0 <= k < n
    ensures Share(batch + 1, n, k) == Share(batch, n, k) + (if batch % n == k then 1 else 0)
  {
    var q, m := batch / n, batch % n;
    assert batch == q * n + m;
    if m + 1 < n {
      DivModUnique(batch + 1, n, q, m + 1);
    } else {
      assert batch + 1 == (q + 1) * n + 0;
      DivModUnique(batch + 1, n, q + 1, 0);
    }
  }

  /** A run of `batch` samples starting at `lo` gives rank `r` the share of slot `(r - lo) % n`. */
  lemma {:induction false} HitsIsShare(lo: int, batch: nat, n: nat, r: int)
    requires n > 0 && 0 <= r < n
    ensures Hits(lo, lo + batch, n, r) == Share(batch, n, (r - lo) % n)
  {
    if batch == 0 {
      DivModUnique(0, n, 0, 0);
    } else {
      HitsIsShare(lo, batch - 1, n, r);
      ShareNext(batch - 1, n, (r - lo) % n);
      ModSmall(r, n);
      ModEqual(lo + batch - 1, r, n);
      ModEqual(batch - 1, r - lo, n);
      assert lo + batch - 1 - r == batch - 1 - (r - lo);
    }
  }

  // ---------- getSplitBatchSizes ----------

  /** Where the rotation by `offset` puts slot `i`, and which slot it puts in place `p`. */
  function PlaceOf(i: int, offset: int, n: nat): int requires n > 0 { (i + offset) % n }

  function SlotAt(p: int, offset: int, n: nat): int requires n > 0 { (p - offset) % n }

  lemma PlaceAndSlot(i: nat, p: nat, offset: nat, n: nat)
    requires i < n && p < n && offset < n
    ensures 0 <= PlaceOf(i, offset, n) < n && 0 <= SlotAt(p, offset, n) < n
    ensures PlaceOf(i, offset, n) == p <==> SlotAt(p, offset, n) == i
  {
    if i + offset < n { ModSmall(i + offset, n); } else { DivModUnique(i + offset, n, 1, i + offset - n); }
    if p - offset >= 0 { ModSmall(p - offset, n); } else { DivModUnique(p - offset, n, -1, p - offset + n); }
  }

  lemma Placing(i: nat, offset: nat, n: nat)
    requires i < n && offset < n
    ensures 0 <= PlaceOf(i, offset, n) < n
    ensures forall p :: 0 <= p < n ==> (SlotAt(p, offset, n) == i <==> p == PlaceOf(i, offset, n))
    ensures forall p :: 0 <= p < n ==> 0 <= SlotAt(p, offset, n) < n
  {
    PlaceAndSlot(i, 0, offset, n);
    forall p | 0 <= p < n
      ensures (SlotAt(p, offset, n) == i <==> p == PlaceOf(i, offset, n)) && 0 <= SlotAt(p, offset, n) < n
    {
      PlaceAndSlot(i, p, offset, n);
    }
  }

  lemma SlotAtMod(p: int, offset: int, n: nat)
    requires n > 0
    ensures SlotAt(p, offset % n, n) == SlotAt(p, offset, n)
  {
    ModSubMod(p, offset, n);
  }

  lemma SlotAtZero(p: nat, n: nat)
    requires p < n
    ensures SlotAt(p, 0, n) == p
  {
    ModSmall(p, n);
  }

  lemma OffsetStep(i: nat, batch: nat, n: nat)
    requires n > 0
    ensures ((i * batch) % n + batch) % n == ((i + 1) * batch) % n
  {
    assert (i + 1) * batch == i * batch + batch;
    ModSubMod(i * batch, 0 - batch, n);
  }

  /** The first loop: the larger shares go to the lower ranks. */
  method PlainSizes(batch: nat, ranks: seq<nat>) returns (plain: map<nat, int>)
    requires |ranks| > 0 && R.Distinct(ranks)
    ensures forall k :: 0 <= k < |ranks| ==> ranks[k] in plain && plain[ranks[k]] == Share(batch, |ranks|, k)
    ensures plain.Keys <= set r | r in ranks
  {
    var n := |ranks|;
    var base, mod := batch / n, batch % n;
    plain := map[];
    for i := 0 to n
      invariant plain.Keys <= set r | r in ranks
      invariant forall k :: 0 <= k < i ==> ranks[k] in plain && plain[ranks[k]] == Share(batch, n, k)
    {
      plain := plain[ranks[i] := base + (if i < mod then 1 else 0)];
    }
  }

  /** `sizes` are the shares of `batch`, rotated by `shift`. */
  ghost predicate SizesAre(sizes: map<nat, int>, ranks: seq<nat>, batch: nat, shift: int)
    requires |ranks| > 0
  {
    && sizes.Keys <= (set r | r in ranks)
    && forall p :: 0 <= p < |ranks| ==>
         ranks[p] in sizes && sizes[ranks[p]] == Share(batch, |ranks|, SlotAt(p, shift, |ranks|))
  }

  /** The third loop: slot `i` moves to place `(i + offset) % n`. */
  method Rotate(plain: map<nat, int>, ranks: seq<nat>, batch: nat, offset: nat) returns (shifted: map<nat, int>)
    requires R.Distinct(ranks) && offset < |ranks|
    requires forall k :: 0 <= k < |ranks| ==> ranks[k] in plain && plain[ranks[k]] == Share(batch, |ranks|, k)
    ensures SizesAre(shifted, ranks, batch, offset)
  {
    var n := |ranks|;
    shifted := map[];
    for i := 0 to n
      invariant shifted.Keys <= set r | r in ranks
      invariant forall p :: 0 <= p < n && SlotAt(p, offset, n) < i ==>
                  ranks[p] in shifted && shifted[ranks[p]] == Share(batch, n, SlotAt(p, offset, n))
    {
      hide PlaceOf, SlotAt, Share;
      Placing(i, offset, n);
      shifted := shifted[ranks[PlaceOf(i, offset, n)] := plain[ranks[i]]];
    }
    Placing(0, offset, n);
  }

  lemma SizesAreMod(sizes: map<nat, int>, ranks: seq<nat>, batch: nat, shift: int)
    requires |ranks| > 0 && SizesAre(sizes, ranks, batch, shift % |ranks|)
    ensures SizesAre(sizes, ranks, batch, shift)
  {
    forall p | 0 <= p < |ranks| ensures SlotAt(p, shift % |ranks|, |ranks|) == SlotAt(p, shift, |ranks|) {
      SlotAtMod(p, shift, |ranks|);
    }
  }

  lemma SizesAreUnrotated(sizes: map<nat, int>, ranks: seq<nat>, batch: nat)
    requires |ranks| > 0 && sizes.Keys <= set r | r in ranks
    requires forall k :: 0 <= k < |ranks| ==> ranks[k] in sizes && sizes[ranks[k]] == Share(batch, |ranks|, k)
    ensures SizesAre(sizes, ranks, batch, 0)
  {
    forall p | 0 <= p < |ranks| ensures SlotAt(p, 0, |ranks|) == p { SlotAtZero(p, |ranks|); }
  }

  /** The second loop. */
  method RotationOffset(batch: nat, n: nat, splitIndex: nat) returns (offset: nat)
    requires n > 0
    ensures offset < n && offset == (splitIndex * batch) % n
  {
    offset := 0;
    ModSmall(0, n);
    for i := 0 to splitIndex
      invariant offset < n && offset == (i * batch) % n
    {
      OffsetStep(i, batch, n);
      offset := (offset + batch) % n;
    }
  }

  /** The sizes for split `splitIndex`: the plain shares, rotated as if every split before it had the same size. */
  method GetSplitBatchSizes(batch: nat, ranks: seq<nat>, splitIndex: nat) returns (sizes: map<nat, int>)
    requires |ranks| > 0 && R.Distinct(ranks)
    ensures SizesAre(sizes, ranks, batch, splitIndex * batch)
  {
    hide SizesAre;
    var plain := PlainSizes(batch, ranks);
    if splitIndex == 0 {
      SizesAreUnrotated(plain, ranks, batch);
      assert splitIndex * batch == 0;
      return plain;
    }
    var offset := RotationOffset(batch, |ranks|, splitIndex);
    sizes := Rotate(plain, ranks, batch, offset);
    SizesAreMod(sizes, ranks, batch, splitIndex * batch);
  }

  // ---------- getLocalSplitBatchSizes ----------

  function Start(splits: seq<nat>, i: nat): nat
    requires i <= |splits|
  {
    R.Prefix(splits, i)
  }

  lemma ShareIsCeil(bs: nat, world: nat, offset: int)
    requires 0 <= offset < world
    ensures CeilDiv(bs - offset, world) == Share(bs, world, offset)
    ensures 0 <= offset + Share(bs, world, offset) * world - bs < world
  {
    var q, m := bs / world, bs % world;
    assert bs == q * world + m;
    assert (q + 1) * world == q * world + world && (q - 1) * world == q * world - world;
    CeilDivUnique(bs - offset, world, Share(bs, world, offset));
  }

  lemma OffsetFollows(rank: int, start: int, bs: int, world: nat, offset: int, ret: int)
    requires world > 0 && offset == (rank - start) % world && 0 <= offset + ret * world - bs < world
    ensures offset + ret * world - bs == (rank - (start + bs)) % world
  {
    var d := (rank - start) / world;
    assert rank - start == d * world + offset;
    assert (d - ret) * world == d * world - ret * world;
    DivModUnique(rank - (start + bs), world, d - ret, offset + ret * world - bs);
  }

  /** `offset` is the distance from `start` to the first sample of `rank`; it is kept from split to split. */
  lemma LocalStep(bs: nat, world: nat, rank: nat, start: nat, offset: int)
    requires rank < world && 0 <= offset < world && offset == (rank - start) % world
    ensures var ret := CeilDiv(bs - offset, world);
            && ret == Hits(start, start + bs, world, rank)
            && 0 <= offset + ret * world - bs < world
            && offset + ret * world - bs == (rank - (start + bs)) % world
  {
    ShareIsCeil(bs, world, offset);
    HitsIsShare(start, bs, world, rank);
    OffsetFollows(rank, start, bs, world, offset, Share(bs, world, offset));
  }

  /** The samples of split `i` that belong to `rank`. */
  function Local(splits: seq<nat>, world: nat, rank: nat, i: nat): nat
    requires world > 0 && i < |splits|
  {
    Hits(Start(splits, i), Start(splits, i) + splits[i], world, rank)
  }

  /** Rank `rank` takes, in every split, exactly its samples in round robin over the whole batch. */
  method GetLocalSplitBatchSizes(splits: seq<nat>, world: nat, rank: nat) returns (ret: seq<int>)
    requires rank < world
    ensures |ret| == |splits| && forall i :: 0 <= i < |splits| ==> ret[i] == Local(splits, world, rank, i)
  {
    ret := [];
    var offset := rank;
    ModSmall(rank, world);
    for i := 0 to |splits|
      invariant |ret| == i && forall k :: 0 <= k < i ==> ret[k] == Local(splits, world, rank, k)
      invariant 0 <= offset < world && offset == (rank - Start(splits, i)) % world
    {
      hide CeilDiv, Hits;
      LocalStep(splits[i], world, rank, Start(splits, i), offset);
      var size := CeilDiv(splits[i] - offset, world);
      assert size == Local(splits, world, rank, i);
      hide Local;
      ret := ret + [size];
      offset := (offset + size * world) - splits[i];
    }
  }

  function SumOverRanks(splits: seq<nat>, world: nat, i: nat, n: nat): nat
    requires world > 0 && i < |splits|
  {
    if n == 0 then 0 else SumOverRanks(splits, world, i, n - 1) + Local(splits, world, n - 1, i)
  }

  function SumOverSplits(splits: seq<nat>, world: nat, rank: nat, n: nat): nat
    requires world > 0 && n <= |splits|
  {
    if n == 0 then 0 else SumOverSplits(splits, world, rank, n - 1) + Local(splits, world, rank, n - 1)
  }

  lemma {:induction false} SumOverRanksIsHits(splits: seq<nat>, world: nat, i: nat, n: nat)
    requires world > 0 && i < |splits|
    ensures SumOverRanks(splits, world, i, n) == SumHits(Start(splits, i), Start(splits, i) + splits[i], world, n)
  {
    if n > 0 { SumOverRanksIsHits(splits, world, i, n - 1); }
  }

  /** The ranks together take exactly the split. */
  lemma RanksShareSplit(splits: seq<nat>, world: nat, i: nat)
    requires world > 0 && i < |splits|
    ensures SumOverRanks(splits, world, i, world) == splits[i]
  {
    SumOverRanksIsHits(splits, world, i, world);
    SumHitsIsAll(Start(splits, i), Start(splits, i) + splits[i], world);
  }

  /** Over the first `n` splits a rank takes a nearly equal share of their samples. */
  lemma {:induction false} SplitsShareRank(splits: seq<nat>, world: nat, rank: nat, n: nat)
    requires rank < world && n <= |splits|
    ensures SumOverSplits(splits, world, rank, n) == Hits(0, Start(splits, n), world, rank) ==
              Share(Start(splits, n), world, rank)
  {
    HitsIsShare(0, Start(splits, n), world, rank);
    ModSmall(rank, world);
    if n > 0 {
      SplitsShareRank(splits, world, rank, n - 1);
      HitsSplit(0, Start(splits, n - 1), Start(splits, n), world, rank);
    }
  }

  /** Every rank gets exactly its part of the whole batch if and only if the world size divides it. */
  lemma LocalBatchIff(splits: seq<nat>, world: nat)
    requires world > 0
    ensures (forall rank: nat :: rank < world ==>
               SumOverSplits(splits, world, rank, |splits|) == R.Total(splits) / world)
            <==> R.Total(splits) % world == 0
  {
    forall rank: nat | rank < world
      ensures SumOverSplits(splits, world, rank, |splits|) == Share(R.Total(splits), world, rank)
    {
      SplitsShareRank(splits, world, rank, |splits|);
    }
    assert R.Total(splits) % world > 0 ==>
      SumOverSplits(splits, world, 0, |splits|) == R.Total(splits) / world + 1;
  }

  // ---------- the two views of a split ----------

  /** What redistribution assumes that rank `p` of `0..world-1` holds of split `i`. */
  function Assumed(splits: seq<nat>, world: nat, p: nat, i: nat): int
    requires world > 0 && i < |splits|
  {
    Share(splits[i], world, SlotAt(p, i * splits[i], world))
  }

  /** On every rank, the slice of split `i` that the launcher cuts is the one that redistribution assumes. */
  ghost predicate Matches(splits: seq<nat>, world: nat, i: nat)
    requires world > 0 && i < |splits|
  {
    forall p: nat :: p < world ==> Local(splits, world, p, i) == Assumed(splits, world, p, i)
  }

  /** Going one place back goes one slot back, cyclically. */
  lemma OnePlaceBack(p: int, a: int, world: nat)
    requires world > 0
    ensures var x := SlotAt(p, a, world);
            SlotAt((p - 1) % world, a, world) == if x > 0 then x - 1 else world - 1
  {
    var x := SlotAt(p, a, world);
    ModSubMod(p - 1, a, world);
    ModSubMod(p - a, 1, world);
    assert p - 1 - a == p - a - 1;
    if x > 0 { ModSmall(x - 1, world); } else { DivModUnique(-1, world, -1, world - 1); }
  }

  lemma SameRotation(bs: nat, a: int, b: int, world: nat)
    requires world > 0 &&
             forall p: nat :: p < world ==>
               Share(bs, world, SlotAt(p, a, world)) == Share(bs, world, SlotAt(p, b, world))
    ensures bs % world == 0 || (a - b) % world == 0
  {
    // place p holds slot 0 under rotation a, and the place before it the last slot
    var p := a % world;
    ModSubMod(a, a, world);
    ModSmall(0, world);
    ModSubMod(a, b, world);
    OnePlaceBack(p, a, world);
    OnePlaceBack(p, b, world);
    assert Share(bs, world, SlotAt(p, a, world)) == Share(bs, world, SlotAt(p, b, world));
    var before: nat := (p - 1) % world;
    assert Share(bs, world, SlotAt(before, a, world)) == Share(bs, world, SlotAt(before, b, world));
  }

  /** The slices that the launcher cuts are the ones that redistribution assumes, on every rank, if and only if
      the split is a multiple of the world size or the splits before it add up, modulo the world size, to as many
      times its own size. Equal sizes so far are such a case. */
  lemma SlicesMatchIff(splits: seq<nat>, world: nat, i: nat)
    requires world > 0 && i < |splits|
    ensures Matches(splits, world, i) <==> splits[i] % world == 0 || (Start(splits, i) - i * splits[i]) % world == 0
  {
    var bs, a, b := splits[i], Start(splits, i), i * splits[i];
    forall p: nat | p < world ensures Local(splits, world, p, i) == Share(bs, world, SlotAt(p, a, world)) {
      HitsIsShare(a, bs, world, p);
    }
    if Matches(splits, world, i) {
      forall p: nat | p < world ensures Share(bs, world, SlotAt(p, a, world)) == Share(bs, world, SlotAt(p, b, world)) {
        assert Local(splits, world, p, i) == Assumed(splits, world, p, i);
      }
      SameRotation(bs, a, b, world);
    }
    if (a - b) % world == 0 {
      forall p: nat | p < world ensures SlotAt(p, a, world) == SlotAt(p, b, world) {
        ModEqual(a, b, world);
        SlotAtMod(p, a, world);
        SlotAtMod(p, b, world);
      }
    }
  }

  lemma {:induction false} EqualSplitsStart(splits: seq<nat>, i: nat)
    requires i < |splits| && forall k :: 0 <= k < i ==> splits[k] == splits[i]
    ensures Start(splits, i) == i * splits[i]
  {
    EqualPrefix(splits, i, splits[i]);
  }

  lemma {:induction false} EqualPrefix(splits: seq<nat>, i: nat, bs: nat)
    requires i <= |splits| && forall k :: 0 <= k < i ==> splits[k] == bs
    ensures Start(splits, i) == i * bs
  {
    if i > 0 {
      EqualPrefix(splits, i - 1, bs);
      assert i * bs == (i - 1) * bs + bs;
    }
  }

  /** While all splits so far are equal, the launcher's slices are those of redistribution. */
  lemma EqualSplitsMatch(splits: seq<nat>, world: nat, i: nat, p: nat)
    requires p < world && i < |splits| && forall k :: 0 <= k < i ==> splits[k] == splits[i]
    ensures Local(splits, world, p, i) == Assumed(splits, world, p, i)
  {
    EqualSplitsStart(splits, i);
    ModSmall(0, world);
    SlicesMatchIff(splits, world, i);
  }

  // ---------- the launcher's splits ----------

  /** The splits of a batch: nearly equal parts, the larger ones first. */
  function Splits(batch: nat, parts: nat): seq<nat>
    requires parts > 0
  {
    seq(parts, k requires 0 <= k < parts => SplitSize(batch, parts, k))
  }

  function SplitSize(batch: nat, parts: nat, k: nat): nat
    requires parts > 0
  {
    Share(batch, parts, k)
  }

  /** The second overload of `getSplitBatchSizes`: the sizes for as many ranks as there are parts, in rank order. */
  method GetSplits(batch: nat, parts: nat) returns (splits: seq<nat>)
    requires parts > 0
    ensures splits == Splits(batch, parts)
  {
    var ranks := seq(parts, k requires 0 <= k < parts => k);
    var sizes := GetSplitBatchSizes(batch, ranks, 0);
    splits := [];
    for k := 0 to parts
      invariant splits == Splits(batch, parts)[..k]
    {
      hide Share, SlotAt;
      PlainSize(sizes, ranks, batch, k);
      splits := splits + [sizes[k]];
    }
  }

  lemma PlainSize(sizes: map<nat, int>, ranks: seq<nat>, batch: nat, k: nat)
    requires k < |ranks| && ranks[k] == k && SizesAre(sizes, ranks, batch, 0 * batch)
    ensures k in sizes && sizes[k] == SplitSize(batch, |ranks|, k)
  {
    SlotAtZero(k, |ranks|);
    assert 0 * batch == 0 && ranks[k] in sizes;
  }

  lemma {:induction false} SplitsStart(batch: nat, parts: nat, i: nat)
    requires i <= parts && parts > 0
    ensures Start(Splits(batch, parts), i) == i * (batch / parts) + Min(i, batch % parts)
  {
    if i > 0 {
      SplitsStart(batch, parts, i - 1);
      MulOneMore(i - 1, batch / parts);
    }
  }

  /** The splits make up the batch. */
  lemma SplitsCoverBatch(batch: nat, parts: nat)
    requires parts > 0
    ensures R.Total(Splits(batch, parts)) == batch
  {
    SplitsStart(batch, parts, parts);
    assert batch == parts * (batch / parts) + batch % parts;
  }

  /** For the splits that the launcher makes of a batch, split `i` is cut on every rank as redistribution assumes if
      and only if it is one of the larger splits, or its size or the number of larger splits is a multiple of the
      world size. */
  lemma SplitMatchesIff(batch: nat, parts: nat, world: nat, i: nat)
    requires i < parts && world > 0
    ensures Matches(Splits(batch, parts), world, i)
            <==> i < batch % parts || (batch / parts) % world == 0 || (batch % parts) % world == 0
  {
    var splits, larger := Splits(batch, parts), batch % parts;
    SlicesMatchIff(splits, world, i);
    SplitsStart(batch, parts, i);
    ModSmall(0, world);
    if i < larger {
      Distribute(batch / parts, 1, i);
      assert Start(splits, i) - i * splits[i] == 0;
    } else {
      assert Start(splits, i) - i * splits[i] == larger;
    }
  }

  /** All splits of a batch are, if and only if the size of the smaller splits or the number of the larger ones is a
      multiple of the world size. */
  lemma BatchMatchesIff(batch: nat, parts: nat, world: nat)
    requires parts > 0 && world > 0
    ensures (forall i: nat :: i < parts ==> Matches(Splits(batch, parts), world, i))
            <==> (batch / parts) % world == 0 || (batch % parts) % world == 0
  {
    forall i: nat | i < parts
      ensures Matches(Splits(batch, parts), world, i)
              <==> i < batch % parts || (batch / parts) % world == 0 || (batch % parts) % world == 0
    {
      SplitMatchesIff(batch, parts, world, i);
    }
    assert Matches(Splits(batch, parts), world, parts - 1) ==>
        (batch / parts) % world == 0 || (batch % parts) % world == 0;
  }

  /** A batch of four in three splits on two ranks, as the launcher makes it: the splits are 2, 1 and 1, and at the
      second the two views differ. */
  lemma UnequalSplitsDiffer()
    ensures Splits(4, 3) == [2, 1, 1] && Local(Splits(4, 3), 2, 0, 1) != Assumed(Splits(4, 3), 2, 0, 1)
  {
    assert Start(Splits(4, 3), 1) == 2;
    HitsIsShare(2, 1, 2, 0);
  }
}
