/**
 Per-rank tensor shapes for a redistribution (`calcDistBatchDims`), and when the two sides of a
 route account for the whole tensor.
 */
module BatchDims {
  import opened Arithmetic
  import opened BatchSplit
  import R = Redistribution

  function Product(dim: seq<nat>): nat {
    if dim == [] then 1 else dim[0] * Product(dim[1..])
  }

  /** The batch share of place `p` of `n` after a rotation by `shift`. */
  function BatchAt(batch: nat, n: nat, shift: int, p: int): int
    requires n > 0
  {
    Share(batch, n, SlotAt(p, shift, n))
  }

  lemma BatchAtIsNat(batch: nat, n: nat, shift: int, p: int)
    requires n > 0
    ensures BatchAt(batch, n, shift, p) >= 0
  {
  }

  /** Rows of the whole tensor at place `p`, with the truncating division of the source. */
  function Rows(rows: nat, batch: nat, n: nat, shift: int, p: int): nat
    requires n > 0 && batch > 0
  {
    RowsOf(rows, batch, BatchAt(batch, n, shift, p))
  }

  function RowsOf(rows: nat, batch: nat, share: int): nat
    requires batch > 0
  {
    if share < 0 then 0 else Quotient(rows * share, batch)
  }

  function Quotient(a: nat, b: nat): nat
    requires b > 0
  {
    a / b
  }

  /** The loop body: the leading dimension scaled by the rank's batch share. */
  method RankDim(globalDim: seq<nat>, batch: nat, share: int) returns (dim: seq<nat>)
    requires batch > 0 && globalDim != [] && share >= 0
    ensures dim == globalDim[0 := RowsOf(globalDim[0], batch, share)]
  {
    dim := globalDim[0 := globalDim[0] * share / batch];
  }

  method CalcDistBatchDims(batch: nat, globalDim: seq<nat>, ranks: seq<nat>, splitIndex: nat)
    returns (dims: map<nat, seq<nat>>)
    requires batch > 0 && globalDim != [] && |ranks| > 0 && R.Distinct(ranks)
    ensures forall p :: 0 <= p < |ranks| ==>
              ranks[p] in dims
              && dims[ranks[p]] == globalDim[0 := Rows(globalDim[0], batch, |ranks|, splitIndex * batch, p)]
  {
    var sizes := GetSplitBatchSizes(batch, ranks, splitIndex);
    ghost var shift := splitIndex * batch;
    assert forall p :: 0 <= p < |ranks| ==> ranks[p] in sizes && sizes[ranks[p]] == BatchAt(batch, |ranks|, shift, p);
    hide BatchAt, RowsOf, SizesAre;
    dims := map[];
    for p := 0 to |ranks|
      invariant forall k :: 0 <= k < p ==>
                  ranks[k] in dims && dims[ranks[k]] == globalDim[0 := Rows(globalDim[0], batch, |ranks|, shift, k)]
    {
      BatchAtIsNat(batch, |ranks|, shift, p);
      var dim := RankDim(globalDim, batch, sizes[ranks[p]]);
      dims := dims[ranks[p] := dim];
    }
  }

  // ---------- when the shares cover the tensor ----------

  function SumBatch(batch: nat, n: nat, shift: int, k: nat): int
    requires n > 0
  {
    if k == 0 then 0 else SumBatch(batch, n, shift, k - 1) + BatchAt(batch, n, shift, k - 1)
  }

  lemma {:induction false} SumBatchIsHits(batch: nat, n: nat, shift: int, k: nat)
    requires 0 < n && k <= n
    ensures SumBatch(batch, n, shift, k) == SumHits(shift, shift + batch, n, k)
  {
    if k > 0 {
      SumBatchIsHits(batch, n, shift, k - 1);
      HitsIsShare(shift, batch, n, k - 1);
    }
  }

  function SumRows(rows: nat, batch: nat, n: nat, shift: int, k: nat): nat
    requires n > 0 && batch > 0
  {
    if k == 0 then 0 else SumRows(rows, batch, n, shift, k - 1) + Rows(rows, batch, n, shift, k - 1)
  }

  /** The share of place `p` is a whole number of rows. */
  predicate Exact(rows: nat, batch: nat, n: nat, shift: int, p: int)
    requires n > 0 && batch > 0
  {
    (rows * BatchAt(batch, n, shift, p)) % batch == 0
  }

  lemma QuotientExact(a: nat, b: nat)
    requires b > 0
    ensures Quotient(a, b) * b <= a
    ensures Quotient(a, b) * b == a <==> a % b == 0
  {
    assert a == (a / b) * b + a % b;
  }

  lemma RowsExact(rows: nat, batch: nat, n: nat, shift: int, p: int)
    requires n > 0 && batch > 0
    ensures Rows(rows, batch, n, shift, p) * batch <= rows * BatchAt(batch, n, shift, p)
    ensures Rows(rows, batch, n, shift, p) * batch == rows * BatchAt(batch, n, shift, p) <==>
              Exact(rows, batch, n, shift, p)
  {
    BatchAtIsNat(batch, n, shift, p);
    hide BatchAt;
    QuotientExact(rows * BatchAt(batch, n, shift, p), batch);
  }

  ghost predicate AllExact(rows: nat, batch: nat, n: nat, shift: int, k: nat)
    requires n > 0 && batch > 0
  {
    forall p: nat :: p < k ==> Exact(rows, batch, n, shift, p)
  }

  lemma AllExactStep(rows: nat, batch: nat, n: nat, shift: int, k: nat)
    requires n > 0 && batch > 0
    ensures AllExact(rows, batch, n, shift, k + 1) <==>
              AllExact(rows, batch, n, shift, k) && Exact(rows, batch, n, shift, k)
  {
    hide Exact;
  }

  lemma {:induction false} SumRowsBound(rows: nat, batch: nat, n: nat, shift: int, k: nat)
    requires n > 0 && batch > 0
    ensures SumRows(rows, batch, n, shift, k) * batch <= rows * SumBatch(batch, n, shift, k)
    ensures SumRows(rows, batch, n, shift, k) * batch == rows * SumBatch(batch, n, shift, k) <==>
              AllExact(rows, batch, n, shift, k)
  {
    if k > 0 {
      hide Rows, BatchAt, AllExact, Exact;
      SumRowsBound(rows, batch, n, shift, k - 1);
      RowsExact(rows, batch, n, shift, k - 1);
      AllExactStep(rows, batch, n, shift, k - 1);
      Distribute(SumRows(rows, batch, n, shift, k - 1), Rows(rows, batch, n, shift, k - 1), batch);
      Distribute(SumBatch(batch, n, shift, k - 1), BatchAt(batch, n, shift, k - 1), rows);
    }
  }

  lemma SameMultiple(a: int, b: int, m: int)
    requires m > 0
    ensures a * m == b * m <==> a == b
  {
    assert (a - b) * m == a * m - b * m;
    if a > b { MulAtLeast(a - b, m); }
    if a < b { MulAtLeast(b - a, m); assert (b - a) * m == b * m - a * m; }
  }

  lemma CoverMeansExact(rows: nat, batch: nat, n: nat, shift: int)
    requires n > 0 && batch > 0
    ensures SumRows(rows, batch, n, shift, n) == rows <==> AllExact(rows, batch, n, shift, n)
  {
    hide AllExact, SumRows, SumBatch, SumHits;
    SumRowsBound(rows, batch, n, shift, n);
    SumBatchIsHits(batch, n, shift, n);
    SumHitsIsAll(shift, shift + batch, n);
    SameMultiple(SumRows(rows, batch, n, shift, n), rows, batch);
  }

  lemma MultipleIsExact(q: int, batch: nat, share: int)
    requires batch > 0
    ensures ((q * batch) * share) % batch == 0
  {
    assert (q * batch) * share == (q * share) * batch;
    DivModUnique((q * batch) * share, batch, q * share, 0);
  }

  /** The batch size divides the leading dimension, or the ranks share both equally. */
  predicate Covers(rows: nat, batch: nat, n: nat)
    requires n > 0 && batch > 0
  {
    rows % batch == 0 || (batch % n == 0 && rows % n == 0)
  }

  /** Equal shares of the batch are whole rows if and only if the rows can be shared equally. */
  lemma EqualShareExact(rows: nat, n: nat, q: nat)
    requires n > 0 && q > 0 && n * q > 0
    ensures (rows * q) % (n * q) == 0 <==> rows % n == 0
  {
    if rows % n == 0 {
      assert rows == (rows / n) * n;
      MulAssoc(rows / n, n, q);
      DivModUnique(rows * q, n * q, rows / n, 0);
    }
    if (rows * q) % (n * q) == 0 {
      var k := (rows * q) / (n * q);
      assert rows * q == k * (n * q);
      MulAssoc(k, n, q);
      SameMultiple(rows, k * n, q);
      DivModUnique(rows, n, k, 0);
    }
  }

  /** Where the shares are unequal, a place with the larger one follows a place with the smaller one. */
  lemma UnequalShares(batch: nat, n: nat, shift: int) returns (p: nat, before: nat)
    requires n > 0 && batch % n > 0
    ensures p < n && before < n
    ensures BatchAt(batch, n, shift, p) == batch / n + 1 && BatchAt(batch, n, shift, before) == batch / n
  {
    p := shift % n;
    ModSubMod(shift, shift, n);
    ModSmall(0, n);
    OnePlaceBack(p, shift, n);
    before := (p - 1) % n;
  }

  lemma TwoSharesExact(rows: nat, batch: nat, share: int)
    requires batch > 0 && (rows * share) % batch == 0 && (rows * (share + 1)) % batch == 0
    ensures rows % batch == 0
  {
    Distribute(share, 1, rows);
    ModEqual(rows * (share + 1), rows * share, batch);
  }

  lemma ExactImpliesCovers(rows: nat, batch: nat, n: nat, shift: int)
    requires n > 0 && batch > 0 && AllExact(rows, batch, n, shift, n)
    ensures Covers(rows, batch, n)
  {
    if batch % n > 0 {
      var p, before := UnequalShares(batch, n, shift);
      assert Exact(rows, batch, n, shift, p) && Exact(rows, batch, n, shift, before);
      TwoSharesExact(rows, batch, batch / n);
    } else {
      assert batch == n * (batch / n);
      EveryShareEqual(batch, n, shift, 0);
      assert Exact(rows, batch, n, shift, 0);
      EqualShareExact(rows, n, batch / n);
    }
  }

  lemma EveryShareEqual(batch: nat, n: nat, shift: int, p: int)
    requires n > 0 && batch % n == 0
    ensures BatchAt(batch, n, shift, p) == batch / n
  {
  }

  lemma CoversImpliesExact(rows: nat, batch: nat, n: nat, shift: int)
    requires n > 0 && batch > 0 && Covers(rows, batch, n)
    ensures AllExact(rows, batch, n, shift, n)
  {
    forall p: nat | p < n ensures Exact(rows, batch, n, shift, p) {
      if rows % batch == 0 {
        assert rows == (rows / batch) * batch;
        MultipleIsExact(rows / batch, batch, BatchAt(batch, n, shift, p));
      } else {
        assert batch == n * (batch / n);
        EveryShareEqual(batch, n, shift, p);
        EqualShareExact(rows, n, batch / n);
      }
    }
  }

  /** At every split, the shapes of one side add up to the whole tensor if and only if the batch size divides the
      leading dimension, or the number of ranks divides both. */
  lemma RowsCoverIff(rows: nat, batch: nat, n: nat, shift: int)
    requires n > 0 && batch > 0
    ensures SumRows(rows, batch, n, shift, n) == rows <==> Covers(rows, batch, n)
  {
    hide SumRows, Exact;
    CoverMeansExact(rows, batch, n, shift);
    if AllExact(rows, batch, n, shift, n) {
      ExactImpliesCovers(rows, batch, n, shift);
    }
    if Covers(rows, batch, n) {
      CoversImpliesExact(rows, batch, n, shift);
    }
  }

  /** Three rows for a batch of two over two ranks: each rank is given one row and one row is lost. */
  lemma RowsCanBeLost()
    ensures SumRows(3, 2, 2, 0, 2) == 2
  {
    assert SlotAt(0, 0, 2) == 0 && SlotAt(1, 0, 2) == 1;
    assert Rows(3, 2, 2, 0, 0) == 1 && Rows(3, 2, 2, 0, 1) == 1;
    assert SumRows(3, 2, 2, 0, 1) == 1;
  }

  // ---------- together with the exchange ----------

  /** Element counts of one side, in rank order. */
  function Elements(rows: nat, rest: nat, batch: nat, n: nat, shift: int): seq<nat>
    requires n > 0 && batch > 0
  {
    seq(n, p requires 0 <= p < n => Rows(rows, batch, n, shift, p) * rest)
  }

  lemma {:induction false} ElementsPrefix(rows: nat, rest: nat, batch: nat, n: nat, shift: int, k: nat)
    requires n > 0 && batch > 0 && k <= n
    ensures R.Prefix(Elements(rows, rest, batch, n, shift), k) == SumRows(rows, batch, n, shift, k) * rest
  {
    if k > 0 {
      hide Rows;
      ElementsPrefix(rows, rest, batch, n, shift, k - 1);
      Distribute(SumRows(rows, batch, n, shift, k - 1), Rows(rows, batch, n, shift, k - 1), rest);
    }
  }

  /** For any numbers of source and destination ranks, and at any split, redistributing a tensor brings all of it over
      unchanged if and only if it is empty or the shapes of both sides cover it. */
  lemma BatchRedistributionIff<T(!new)>(rows: nat, rest: nat, batch: nat, shift: int, m: nat, n: nat,
                                        sent: seq<seq<T>>, got: seq<seq<T>>)
    requires m > 0 && n > 0 && batch > 0
    requires var src, dst := Elements(rows, rest, batch, m, shift), Elements(rows, rest, batch, n, shift);
             R.Holds(sent, src) && R.Holds(got, dst) && R.Exchanged(src, dst, sent, got)
    ensures R.Concat(got) == R.Concat(sent) && |R.Concat(got)| == rows * rest
            <==> rest == 0 || (Covers(rows, batch, m) && Covers(rows, batch, n))
  {
    var src, dst := Elements(rows, rest, batch, m, shift), Elements(rows, rest, batch, n, shift);
    hide SumRows, Covers;
    ElementsPrefix(rows, rest, batch, m, shift, m);
    ElementsPrefix(rows, rest, batch, n, shift, n);
    if rest > 0 {
      SameMultiple(SumRows(rows, batch, m, shift, m), rows, rest);
      SameMultiple(SumRows(rows, batch, n, shift, n), rows, rest);
    }
    RowsCoverIff(rows, batch, m, shift);
    RowsCoverIff(rows, batch, n, shift);
    R.RedistributionPreserves(src, dst, sent, got);
    R.ConcatLength(sent, src);
    R.ConcatLength(got, dst);
  }
}
