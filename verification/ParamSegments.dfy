/**
 Segments of a parameter over ranks (src/comp/DistributedParamLocatorBase.cpp) and the store and
 load of one rank (src/comp/DistributedParamLocator.cpp).  The all-gather is concatenation.
 */
module ParamSegments {
  import opened Arithmetic

  // ---------- the layout ----------

  function SegmentSize(numel: nat, n: nat): int
    requires n > 0
  {
    CeilDiv(numel, n)
  }

  function Offset(numel: nat, n: nat, i: nat): int
    requires n > 0
  {
    Min(i * SegmentSize(numel, n), numel)
  }

  function SrcSize(numel: nat, n: nat, i: nat): int
    requires n > 0
  {
    Min(numel - Offset(numel, n, i), SegmentSize(numel, n))
  }

  function Offsets(numel: nat, n: nat, k: nat): seq<int>
    requires n > 0
  {
    seq(k, i requires 0 <= i < k => Offset(numel, n, i))
  }

  function SrcSizes(numel: nat, n: nat, k: nat): seq<int>
    requires n > 0
  {
    seq(k, i requires 0 <= i < k => SrcSize(numel, n, i))
  }

  /** The segment size is the least with which `n` segments hold the parameter. */
  lemma SegmentFacts(numel: nat, n: nat)
    requires n > 0
    ensures SegmentSize(numel, n) >= 0 && n * SegmentSize(numel, n) >= numel
    ensures n * (SegmentSize(numel, n) - 1) < numel
  {
    CeilDivBounds(numel, n);
    var q := CeilDiv(numel, n);
    MulOrder(q, n);
  }

  lemma MulOrder(q: int, n: int)
    requires n > 0
    ensures q * n == n * q && (q < 0 ==> q * n < 0)
  {
  }

  /** The running offset of the loop: the next segment starts where this one ends. */
  lemma NextOffset(numel: nat, n: nat, i: nat)
    requires n > 0
    ensures 0 <= Offset(numel, n, i) <= numel && 0 <= SrcSize(numel, n, i) <= SegmentSize(numel, n)
    ensures Offset(numel, n, i + 1) == Offset(numel, n, i) + SrcSize(numel, n, i)
  {
    SegmentFacts(numel, n);
    var q := SegmentSize(numel, n);
    assert (i + 1) * q == i * q + q;
    MulNonNegative(i, q);
  }

  lemma LastOffset(numel: nat, n: nat)
    requires n > 0
    ensures Offset(numel, n, n) == numel && Offset(numel, n, 0) == 0
  {
    SegmentFacts(numel, n);
  }

  lemma {:induction false} OffsetsGrow(numel: nat, n: nat, i: nat, j: nat)
    requires n > 0 && i <= j
    ensures Offset(numel, n, i) <= Offset(numel, n, j)
  {
    if i < j {
      OffsetsGrow(numel, n, i, j - 1);
      NextOffset(numel, n, j - 1);
    }
  }

  predicate Holds(numel: nat, n: nat, i: nat, x: int)
    requires n > 0
  {
    Offset(numel, n, i) <= x < Offset(numel, n, i) + SrcSize(numel, n, i)
  }

  lemma {:induction false} FindSegment(numel: nat, n: nat, k: nat, x: nat) returns (i: nat)
    requires n > 0 && x < Offset(numel, n, k)
    ensures i < k && Holds(numel, n, i, x)
  {
    LastOffset(numel, n);
    hide Offset, SrcSize;
    if k > 0 {
      NextOffset(numel, n, k - 1);
      if x < Offset(numel, n, k - 1) { i := FindSegment(numel, n, k - 1, x); } else { i := k - 1; }
    }
  }

  /** The segments tile the parameter: every element lies in exactly one, and nothing else lies in any. */
  lemma SegmentsTile(numel: nat, n: nat, x: int)
    requires n > 0
    ensures 0 <= x < numel <==> exists i: nat :: i < n && Holds(numel, n, i, x)
    ensures forall i: nat, j: nat :: i < n && j < n && Holds(numel, n, i, x) && Holds(numel, n, j, x) ==> i == j
  {
    LastOffset(numel, n);
    hide Offset, SrcSize;
    if 0 <= x < numel {
      var i := FindSegment(numel, n, n, x);
    }
    forall i: nat | i < n && Holds(numel, n, i, x) ensures 0 <= x < numel {
      NextOffset(numel, n, i);
      OffsetsGrow(numel, n, i + 1, n);
      OffsetsGrow(numel, n, 0, i);
    }
    forall i: nat, j: nat | i < n && j < n && Holds(numel, n, i, x) && Holds(numel, n, j, x)
      ensures !(i < j) && !(j < i)
    {
      NextOffset(numel, n, i);
      NextOffset(numel, n, j);
      if i < j { OffsetsGrow(numel, n, i + 1, j); }
      if j < i { OffsetsGrow(numel, n, j + 1, i); }
    }
  }

  // ---------- parts ----------

  function Zeros<T>(zero: T, k: nat): seq<T> { seq(k, _ => zero) }

  /** What rank `i` stores: its segment, padded with zeros. */
  function Part<T>(param: seq<T>, n: nat, i: nat, zero: T): seq<T>
    requires n > 0
  {
    NextOffset(|param|, n, i);
    var offset, size := Offset(|param|, n, i), SrcSize(|param|, n, i);
    NextOffset(|param|, n, i + 1);
    param[offset..offset + size] + Zeros(zero, SegmentSize(|param|, n) - size)
  }

  function Concat<T>(parts: seq<seq<T>>): seq<T> {
    if parts == [] then [] else Concat(parts[..|parts| - 1]) + parts[|parts| - 1]
  }

  ghost function Parts<T>(param: seq<T>, n: nat, k: nat, zero: T): seq<seq<T>>
    requires n > 0
  {
    seq(k, i requires 0 <= i < k => Part(param, n, i, zero))
  }

  /** The first `k` parts hold the first `k` segments, and then only padding. */
  lemma {:induction false} GatheredPrefix<T>(param: seq<T>, n: nat, k: nat, zero: T)
    requires n > 0
    ensures var q, end := SegmentSize(|param|, n), Offset(|param|, n, k);
            && 0 <= end <= |param| && k * q >= end
            && Concat(Parts(param, n, k, zero)) == param[..end] + Zeros(zero, k * q - end)
  {
    SegmentFacts(|param|, n);
    NextOffset(|param|, n, k);
    if k > 0 {
      GatheredPrefix(param, n, k - 1, zero);
      assert Parts(param, n, k, zero)[..k - 1] == Parts(param, n, k - 1, zero);
      PartJoins(param, n, k - 1, zero);
    }
  }

  lemma PartJoins<T>(param: seq<T>, n: nat, k: nat, zero: T)
    requires n > 0
    requires 0 <= Offset(|param|, n, k) <= |param| && k * SegmentSize(|param|, n) >= Offset(|param|, n, k)
    ensures 0 <= Offset(|param|, n, k + 1) <= |param| && (k + 1) * SegmentSize(|param|, n) >= Offset(|param|, n, k + 1)
    ensures var q, end, end' := SegmentSize(|param|, n), Offset(|param|, n, k), Offset(|param|, n, k + 1);
            param[..end] + Zeros(zero, k * q - end) + Part(param, n, k, zero) == param[..end'] +
            Zeros(zero, (k + 1) * q - end')
  {
    var q, end, end' := SegmentSize(|param|, n), Offset(|param|, n, k), Offset(|param|, n, k + 1);
    SegmentFacts(|param|, n);
    NextOffset(|param|, n, k);
    NextOffset(|param|, n, k + 1);
    assert (k + 1) * q == k * q + q;
    if k * q <= |param| {
      assert end == k * q && Zeros(zero, k * q - end) == [];
    } else {
      assert end == |param| && end' == |param|;
    }
  }

  /** Round trip: the parts of all ranks, in rank order and cut to the length of the parameter, are the parameter. */
  lemma GatheredIsParam<T>(param: seq<T>, n: nat, zero: T)
    requires n > 0
    ensures |Concat(Parts(param, n, n, zero))| == n * SegmentSize(|param|, n) >= |param|
    ensures Concat(Parts(param, n, n, zero))[..|param|] == param
  {
    GatheredPrefix(param, n, n, zero);
    LastOffset(|param|, n);
    SegmentFacts(|param|, n);
  }

  // ---------- one rank ----------

  lemma OneMoreSegment(numel: nat, n: nat, i: nat)
    requires n > 0
    ensures Offsets(numel, n, i + 1) == Offsets(numel, n, i) + [Offset(numel, n, i)]
    ensures SrcSizes(numel, n, i + 1) == SrcSizes(numel, n, i) + [SrcSize(numel, n, i)]
  {
    hide Offset, SrcSize;
  }

  /** The loop of `doRegister`. */
  method LayOut(offsets: seq<int>, sizes: seq<int>, numel: nat, n: nat)
    returns (newOffsets: seq<int>, newSizes: seq<int>)
    requires n > 0
    ensures newOffsets == offsets + Offsets(numel, n, n) && newSizes == sizes + SrcSizes(numel, n, n)
  {
    newOffsets, newSizes := offsets, sizes;
    var segmentSize := SegmentSize(numel, n);
    var offset := 0;
    LastOffset(numel, n);
    hide Offset, Offsets, SrcSizes, SegmentSize;
    assert Offsets(numel, n, 0) == [] && SrcSizes(numel, n, 0) == [] by { NoSegments(numel, n); }
    for i := 0 to n
      invariant offset == Offset(numel, n, i)
      invariant newOffsets == offsets + Offsets(numel, n, i) && newSizes == sizes + SrcSizes(numel, n, i)
    {
      var srcSize := Min(numel - offset, segmentSize);
      newOffsets, newSizes := newOffsets + [offset], newSizes + [srcSize];
      OneMoreSegment(numel, n, i);
      NextOffset(numel, n, i);
      offset := offset + srcSize;
    }
  }

  lemma NoSegments(numel: nat, n: nat)
    requires n > 0
    ensures Offsets(numel, n, 0) == [] && SrcSizes(numel, n, 0) == []
  {
  }

  // ---------- layouts that pile up ----------

  lemma OneLayout(k: nat, n: nat)
    requires k > 0 && n > 0
    ensures k * n == n <==> k == 1
  {
    if k > 1 { MulMonotone(n, 2, k); }
  }

  /** What the loop leaves when parameters of these lengths are registered one after the other under one id. */
  function AllOffsets(numels: seq<nat>, n: nat): seq<int>
    requires n > 0
  {
    if numels == [] then [] else AllOffsets(numels[..|numels| - 1], n) + Offsets(numels[|numels| - 1], n, n)
  }

  function AllSizes(numels: seq<nat>, n: nat): seq<int>
    requires n > 0
  {
    if numels == [] then [] else AllSizes(numels[..|numels| - 1], n) + SrcSizes(numels[|numels| - 1], n, n)
  }

  lemma {:induction false} AllLengths(numels: seq<nat>, n: nat)
    requires n > 0
    ensures |AllOffsets(numels, n)| == |AllSizes(numels, n)| == |numels| * n
  {
    if numels != [] {
      AllLengths(numels[..|numels| - 1], n);
      MulOneMore(|numels| - 1, n);
    }
  }

  /** Entry `i` belongs to segment `i % n` of the parameter registered at turn `i / n`. */
  lemma {:induction false} EntryAt(numels: seq<nat>, n: nat, i: nat)
    requires n > 0 && i < |numels| * n
    ensures i < |AllOffsets(numels, n)| == |AllSizes(numels, n)| && i / n < |numels|
    ensures AllOffsets(numels, n)[i] == Offset(numels[i / n], n, i % n)
    ensures AllSizes(numels, n)[i] == SrcSize(numels[i / n], n, i % n)
  {
    AllLengths(numels, n);
    if numels == [] {
      assert false;
    } else {
      var front := numels[..|numels| - 1];
      AllLengths(front, n);
      MulOneMore(|front|, n);
      hide Offset, SrcSize;
      if i < |front| * n {
        EntryAt(front, n, i);
      } else {
        DivModUnique(i, n, |front|, i - |front| * n);
      }
    }
  }

  lemma AppendLayout(numels: seq<nat>, numel: nat, n: nat)
    requires n > 0
    ensures AllOffsets(numels + [numel], n) == AllOffsets(numels, n) + Offsets(numel, n, n)
    ensures AllSizes(numels + [numel], n) == AllSizes(numels, n) + SrcSizes(numel, n, n)
  {
    assert (numels + [numel])[..|numels|] == numels;
  }

  /** Two parameters have the same segments on all ranks if and only if they have the same length. */
  lemma SameSegmentsIff(a: nat, b: nat, n: nat)
    requires n > 0
    ensures (forall i: nat :: i < n ==> Offset(a, n, i) == Offset(b, n, i) && SrcSize(a, n, i) == SrcSize(b, n, i)) <==>
              a == b
  {
    LastOffset(a, n);
    LastOffset(b, n);
    NextOffset(a, n, n - 1);
    NextOffset(b, n, n - 1);
    hide Offset, SrcSize;
  }

  ghost predicate LaidOut(numels: seq<nat>, n: nat, offsets: seq<int>, sizes: seq<int>)
    requires n > 0
  {
    numels != [] && offsets == AllOffsets(numels, n) && sizes == AllSizes(numels, n)
  }

  ghost predicate Latest(numels: seq<nat>, n: nat, numel: nat, segmentSize: int)
    requires n > 0
  {
    numels != [] && numel == numels[|numels| - 1] && segmentSize == SegmentSize(numel, n)
  }

  lemma LaidOutMore(numels: seq<nat>, n: nat, offsets: seq<int>, sizes: seq<int>, numel: nat)
    requires n > 0 && (LaidOut(numels, n, offsets, sizes) || (numels == [] && offsets == sizes == []))
    ensures LaidOut(numels + [numel], n, offsets + Offsets(numel, n, n), sizes + SrcSizes(numel, n, n))
    ensures Latest(numels + [numel], n, numel, SegmentSize(numel, n))
  {
    AppendLayout(numels, numel, n);
  }

  ghost predicate AllLaidOut(history: map<int, seq<nat>>, n: nat, offsets: map<int, seq<int>>,
                             sizes: map<int, seq<int>>)
    requires n > 0
  {
    && offsets.Keys == sizes.Keys == history.Keys
    && forall pid :: pid in history ==> LaidOut(history[pid], n, offsets[pid], sizes[pid])
  }

  ghost predicate AllLatest(history: map<int, seq<nat>>, n: nat, numels: map<int, nat>, segmentSizes: map<int, int>)
    requires n > 0
  {
    && segmentSizes.Keys == numels.Keys
    && forall pid :: pid in numels ==> pid in history && Latest(history[pid], n, numels[pid], segmentSizes[pid])
  }

  lemma AllMore(history: map<int, seq<nat>>, n: nat, offsets: map<int, seq<int>>, sizes: map<int, seq<int>>,
                numels: map<int, nat>, segmentSizes: map<int, int>, pid: int, numel: nat)
    requires n > 0 && AllLaidOut(history, n, offsets, sizes) && AllLatest(history, n, numels, segmentSizes)
    ensures var before := if pid in history then history[pid] else [];
            var laid := if pid in offsets then offsets[pid] else [];
            var cut := if pid in sizes then sizes[pid] else [];
            && AllLaidOut(history[pid := before + [numel]], n, offsets[pid := laid + Offsets(numel, n, n)],
                          sizes[pid := cut + SrcSizes(numel, n, n)])
            && AllLatest(history[pid := before + [numel]], n, numels[pid := numel],
                         segmentSizes[pid := SegmentSize(numel, n)])
  {
    hide LaidOut, Latest, SegmentSize, Offsets, SrcSizes;
    LaidOutMore(if pid in history then history[pid] else [], n, if pid in offsets then offsets[pid] else [],
                if pid in sizes then sizes[pid] else [], numel);
  }

  /** The copy in `store`: a buffer of zeros, and this rank's segment at its beginning. */
  method CopyPart<T>(param: seq<T>, n: nat, i: nat, zero: T, offset: int, srcSize: int, segmentSize: int)
    returns (part: seq<T>)
    requires n > 0 && offset == Offset(|param|, n, i) && srcSize == SrcSize(|param|, n, i) &&
             segmentSize == SegmentSize(|param|, n)
    ensures part == Part(param, n, i, zero)
  {
    NextOffset(|param|, n, i);
    NextOffset(|param|, n, i + 1);
    part := Zeros(zero, segmentSize);
    if srcSize > 0 { part := param[offset..offset + srcSize] + part[srcSize..]; }
  }

  /** The fields of one rank's locator; a parameter is kept as its flattened elements. */
  class Locator<T> {
    const zero: T
    const worldSize: nat
    const rank: nat
    var offsets: map<int, seq<int>>
    var srcSizes: map<int, seq<int>>
    var segmentSizes: map<int, int>
    var numels: map<int, nat>
    var paramParts: map<int, seq<T>>
    /** The lengths registered under each id, in order. */
    ghost var history: map<int, seq<nat>>

    constructor (zero: T, worldSize: nat, rank: nat)
      requires rank < worldSize
      ensures Valid() && history == map[]
      ensures this.zero == zero && this.worldSize == worldSize && this.rank == rank
    {
      this.zero, this.worldSize, this.rank := zero, worldSize, rank;
      offsets, srcSizes, segmentSizes, numels, paramParts := map[], map[], map[], map[], map[];
      history := map[];
    }

    /** The layouts of an id are those of all lengths ever registered under it; they stay behind when it is removed.
        An id that is there has the length it was registered with last. */
    ghost predicate Valid()
      reads this
    {
      && rank < worldSize
      && AllLaidOut(history, worldSize, offsets, srcSizes) && AllLatest(history, worldSize, numels, segmentSizes)
    }

    ghost function Registered(pid: int): seq<nat>
      reads this
    {
      if pid in history then history[pid] else []
    }

    function OldLayout(pid: int): seq<int>
      reads this
    {
      if pid in offsets then offsets[pid] else []
    }

    function OldSizes(pid: int): seq<int>
      reads this
    {
      if pid in srcSizes then srcSizes[pid] else []
    }

    lemma RegisteredBefore(pid: int)
      requires Valid() && pid in history
      ensures history[pid] != [] && |offsets[pid]| == |srcSizes[pid]| == |history[pid]| * worldSize
    {
      AllLengths(history[pid], worldSize);
    }

    /** `doRegister` appends a layout to whatever layout the id has. */
    method DoRegister(pid: int, numel: nat)
      requires Valid()
      modifies this
      ensures Valid() && history == old(history)[pid := old(Registered(pid)) + [numel]]
      ensures segmentSizes == old(segmentSizes)[pid := SegmentSize(numel, worldSize)]
      ensures numels == old(numels)[pid := numel] && paramParts == old(paramParts)
    {
      var segmentSize := SegmentSize(numel, worldSize);
      var newOffsets, newSizes := LayOut(OldLayout(pid), OldSizes(pid), numel, worldSize);
      hide AllLaidOut, AllLatest, SegmentSize, Offsets, SrcSizes;
      AllMore(history, worldSize, offsets, srcSizes, numels, segmentSizes, pid, numel);
      history := history[pid := Registered(pid) + [numel]];
      offsets, srcSizes := offsets[pid := newOffsets], srcSizes[pid := newSizes];
      segmentSizes, numels := segmentSizes[pid := segmentSize], numels[pid := numel];
    }

    /** `remove` forgets the parameter and its part, but keeps its layout. */
    method Remove(pid: int)
      requires Valid()
      modifies this
      ensures Valid() && history == old(history)
      ensures segmentSizes == old(segmentSizes) - {pid} && numels == old(numels) - {pid}
      ensures paramParts == old(paramParts) - {pid}
    {
      segmentSizes, numels, paramParts := segmentSizes - {pid}, numels - {pid}, paramParts - {pid};
    }

    /** `store`. The assertion on the layout passes if and only if the id has never been registered; then this rank
        keeps its part of the parameter. */
    method Store(pid: int, param: seq<T>) returns (ok: bool)
      requires Valid()
      modifies this
      ensures Valid() && history == old(history)[pid := old(Registered(pid)) + [|param|]]
      ensures ok <==> pid !in old(history)
      ensures numels == old(numels)[pid := |param|] &&
              segmentSizes == old(segmentSizes)[pid := SegmentSize(|param|, worldSize)]
      ensures paramParts == if ok then old(paramParts)[pid := Part(param, worldSize, rank, zero)] else old(paramParts)
    {
      DoRegister(pid, |param|);
      RegisteredBefore(pid);
      OneLayout(|history[pid]|, worldSize);
      if |offsets[pid]| != worldSize || |srcSizes[pid]| != worldSize { return false; }
      OwnEntries(pid, |param|);
      hide AllLaidOut, AllLatest, Part;
      var part := CopyPart(param, worldSize, rank, zero, offsets[pid][rank], srcSizes[pid][rank], segmentSizes[pid]);
      paramParts := paramParts[pid := part];
      ok := true;
    }

    lemma OwnEntries(pid: int, numel: nat)
      requires Valid() && pid in numels && pid in history && history[pid] == [numel]
      ensures |offsets[pid]| == |srcSizes[pid]| == worldSize
      ensures offsets[pid][rank] == Offset(numel, worldSize, rank) &&
              srcSizes[pid][rank] == SrcSize(numel, worldSize, rank)
      ensures segmentSizes[pid] == SegmentSize(numel, worldSize)
    {
      AllLengths([numel], worldSize);
      EntryAt([numel], worldSize, rank);
      ModSmall(rank, worldSize);
    }

    /** `load`: `gathered` are the parts of all ranks in rank order. */
    method Load(pid: int, gathered: seq<seq<T>>) returns (param: seq<T>)
      requires Valid() && pid in segmentSizes && |gathered| == worldSize
      requires |Concat(gathered)| >= numels[pid]
      ensures param == Concat(gathered)[..numels[pid]]
    {
      var buf: seq<T> := [];
      for i := 0 to |gathered|
        invariant buf == Concat(gathered[..i])
      {
        assert gathered[..i + 1][..i] == gathered[..i];
        buf := buf + gathered[i];
      }
      assert gathered[..|gathered|] == gathered;
      param := buf[..numels[pid]];
    }

    /** `getSegmentRange` with an index: segment `index % worldSize` of what was registered at turn `index /
        worldSize`, up to where the next segment begins. */
    method GetSegmentRange(pid: int, index: nat) returns (first: int, end: int)
      requires Valid() && pid in offsets && index < |offsets[pid]|
      ensures pid in history && index / worldSize < |history[pid]|
      ensures var numel, i := history[pid][index / worldSize], index % worldSize;
              && 0 <= first <= end <= numel && first == Offset(numel, worldSize, i) &&
              end == Offset(numel, worldSize, i + 1)
              && forall x :: first <= x < end <==> Holds(numel, worldSize, i, x)
    {
      RegisteredBefore(pid);
      EntryAt(history[pid], worldSize, index);
      hide AllOffsets, AllSizes;
      ghost var numel, i := history[pid][index / worldSize], index % worldSize;
      NextOffset(numel, worldSize, i);
      NextOffset(numel, worldSize, i + 1);
      first := offsets[pid][index];
      end := first + srcSizes[pid][index];
    }

    /** `getSegmentRange` of this rank: its segment of what was registered first. On all ranks these are the segments
        of the parameter that is there if and only if that has the same length. */
    method OwnRange(pid: int) returns (first: int, end: int)
      requires Valid() && pid in numels
      ensures pid in history && |history[pid]| > 0
      ensures forall x :: first <= x < end <==> Holds(history[pid][0], worldSize, rank, x)
      ensures |history[pid]| == 1 ==> forall x :: first <= x < end <==> Holds(numels[pid], worldSize, rank, x)
    {
      ModSmall(rank, worldSize);
      RegisteredBefore(pid);
      MulAtLeast(|history[pid]|, worldSize);
      first, end := GetSegmentRange(pid, rank);
    }
  }

  /** Two ranks register four elements, remove them and register eight under the same id: the first rank is still
      given the range of a half of four. */
  method StaleRange<T>(locator: Locator<T>, pid: int) returns (first: int, end: int)
    requires locator.Valid() && locator.worldSize == 2 && locator.rank == 0 && pid !in locator.history
    modifies locator
    ensures pid in locator.numels && locator.numels[pid] == 8
    ensures first == 0 && end == 2 && Offset(8, 2, 1) == 4
  {
    locator.DoRegister(pid, 4);
    locator.Remove(pid);
    locator.DoRegister(pid, 8);
    locator.RegisteredBefore(pid);
    first, end := locator.GetSegmentRange(pid, 0);
  }

  /** Storing, removing and storing again fails, whatever the parameters. */
  method StoreAgainFails<T>(locator: Locator<T>, pid: int, param: seq<T>, param': seq<T>) returns (ok: bool)
    requires locator.Valid()
    modifies locator
    ensures !ok
  {
    var first := locator.Store(pid, param);
    locator.Remove(pid);
    ok := locator.Store(pid, param');
  }

  /** Every rank stores the parameter; any rank then loads it unchanged. */
  method StoreAndLoad<T>(locators: seq<Locator<T>>, zero: T, pid: int, param: seq<T>, at: nat) returns (loaded: seq<T>)
    requires at < |locators|
    requires forall i, j :: 0 <= i < j < |locators| ==> locators[i] != locators[j]
    requires forall i :: 0 <= i < |locators| ==>
               locators[i].Valid() && locators[i].worldSize == |locators| && locators[i].rank == i &&
               locators[i].zero == zero
               && pid !in locators[i].history
    modifies locators
    ensures loaded == param
  {
    var gathered: seq<seq<T>> := [];
    for i := 0 to |locators|
      invariant |gathered| == i && forall k :: 0 <= k < i ==> gathered[k] == Part(param, |locators|, k, zero)
      invariant forall k :: 0 <= k < i ==>
                  locators[k].Valid() && pid in locators[k].segmentSizes && locators[k].numels[pid] == |param|
      invariant forall k :: i <= k < |locators| ==> locators[k].Valid() && pid !in locators[k].history
    {
      var ok := locators[i].Store(pid, param);
      gathered := gathered + [locators[i].paramParts[pid]];
    }
    assert gathered == Parts(param, |locators|, |locators|, zero);
    GatheredIsParam(param, |locators|, zero);
    loaded := locators[at].Load(pid, gathered);
  }
}
