/**
 Keeping the best of several candidates in a double loop: a candidate is recorded when it costs less
 than what the one recorded before it is worth.  A candidate need not be worth what it costs.
 */
module Selection {

  /** The two loop counters. */
  type Turn = (nat, nat)

  /** `entered`: which turns have a candidate; `cost` and `worth` of a candidate; `start`: what is there before. */
  datatype Contest = Contest(entered: Turn -> bool, cost: Turn -> int, worth: Turn -> int, start: int)

  predicate Earlier(x: Turn, y: Turn) { x.0 < y.0 || (x.0 == y.0 && x.1 < y.1) }

  function Next(x: Turn): Turn { (x.0, x.1 + 1) }

  /** A candidate before `end`. */
  predicate Entered(c: Contest, end: Turn, x: Turn) { c.entered(x) && Earlier(x, end) }

  /** What is there after `k` records. */
  function WorthAfter(c: Contest, records: seq<Turn>, k: nat): int
    requires k <= |records|
  {
    if k == 0 then c.start else c.worth(records[k - 1])
  }

  ghost predicate InOrder(records: seq<Turn>) {
    forall i, j :: 0 <= i < j < |records| ==> Earlier(records[i], records[j])
  }

  /** `x` comes after exactly `k` of the records. */
  ghost predicate Falls(records: seq<Turn>, k: nat, x: Turn)
    requires k <= |records|
  {
    (forall i :: 0 <= i < k ==> Earlier(records[i], x)) && forall i :: k <= i < |records| ==> Earlier(x, records[i])
  }

  /** `records` are exactly the candidates before `end` that cost less than what was there when their turn came. */
  ghost predicate Records(c: Contest, end: Turn, records: seq<Turn>) {
    && InOrder(records)
    && (forall k: nat :: k < |records| ==> Taken(c, end, records, k))
    && forall x, k: nat :: k <= |records| && Entered(c, end, x) && Falls(records, k, x) ==> Refused(c, records, k, x)
  }

  ghost predicate Taken(c: Contest, end: Turn, records: seq<Turn>, k: nat)
    requires k < |records|
  {
    Entered(c, end, records[k]) && c.cost(records[k]) < WorthAfter(c, records, k)
  }

  ghost predicate Refused(c: Contest, records: seq<Turn>, k: nat, x: Turn)
    requires k <= |records|
  {
    c.cost(x) >= WorthAfter(c, records, k)
  }

  // ---------- turn by turn ----------

  lemma NothingYet(c: Contest)
    ensures Records(c, (0, 0), [])
  {
  }

  lemma RecordKept(c: Contest, x: Turn, records: seq<Turn>)
    requires Records(c, x, records) && (c.entered(x) ==> Refused(c, records, |records|, x))
    ensures Records(c, Next(x), records)
  {
    forall k: nat | k < |records| ensures Taken(c, Next(x), records, k) { assert Taken(c, x, records, k); }
    forall k: nat | k < |records| ensures Earlier(records[k], x) { assert Taken(c, x, records, k); }
    forall y, k: nat | k <= |records| && Entered(c, Next(x), y) && Falls(records, k, y)
      ensures Refused(c, records, k, y)
    {
      assert y == x || Entered(c, x, y);
    }
  }

  lemma RecordAdded(c: Contest, x: Turn, records: seq<Turn>)
    requires Records(c, x, records) && c.entered(x) && !Refused(c, records, |records|, x)
    ensures Records(c, Next(x), records + [x])
  {
    var longer := records + [x];
    forall k: nat | k < |longer| ensures Taken(c, Next(x), longer, k) {
      if k < |records| { assert Taken(c, x, records, k); }
    }
    forall i, j | 0 <= i < j < |longer| ensures Earlier(longer[i], longer[j]) {
      if j == |records| { assert Taken(c, x, records, i); }
    }
    forall y, k: nat | k <= |longer| && Entered(c, Next(x), y) && Falls(longer, k, y) ensures Refused(c, longer, k, y) {
      assert longer[|records|] == x;
      assert k <= |records| && Earlier(y, x);
      assert Falls(records, k, y) by { FallsShorter(records, x, k, y); }
      assert Entered(c, x, y) && Refused(c, records, k, y);
    }
  }

  lemma FallsShorter(records: seq<Turn>, x: Turn, k: nat, y: Turn)
    requires k <= |records| && Falls(records + [x], k, y)
    ensures Falls(records, k, y)
  {
    var longer := records + [x];
    forall i | 0 <= i < |records| ensures longer[i] == records[i] { }
  }

  /** No candidate lies between `end` and `end'`. */
  ghost predicate Quiet(entered: Turn -> bool, end: Turn, end': Turn) {
    forall x :: entered(x) ==> (Earlier(x, end) <==> Earlier(x, end'))
  }

  lemma SkipQuiet(c: Contest, end: Turn, end': Turn, records: seq<Turn>)
    requires Quiet(c.entered, end, end') && Records(c, end, records)
    ensures Records(c, end', records)
  {
    forall k: nat | k < |records| ensures Taken(c, end', records, k) { assert Taken(c, end, records, k); }
    forall x, k: nat | k <= |records| && Entered(c, end', x) && Falls(records, k, x) ensures Refused(c, records, k, x) {
      assert Entered(c, end, x);
    }
  }

  ghost predicate Some(entered: Turn -> bool, end: Turn) { exists x :: entered(x) && Earlier(x, end) }

  lemma SomeNext(entered: Turn -> bool, x: Turn)
    ensures Some(entered, Next(x)) <==> Some(entered, x) || entered(x)
  {
    if y :| entered(y) && Earlier(y, Next(x)) { assert y == x || Earlier(y, x); }
    if entered(x) { assert Earlier(x, Next(x)); }
    if y :| entered(y) && Earlier(y, x) { assert Earlier(y, Next(x)); }
  }

  lemma SomeQuiet(entered: Turn -> bool, end: Turn, end': Turn)
    requires Quiet(entered, end, end')
    ensures Some(entered, end) <==> Some(entered, end')
  {
  }

  // ---------- the records are determined ----------

  lemma FallsBefore(a: seq<Turn>, b: seq<Turn>, k: nat)
    requires InOrder(a) && InOrder(b)
    requires k < |a| && k < |b| && (forall i :: 0 <= i < k ==> a[i] == b[i]) && Earlier(a[k], b[k])
    ensures Falls(b, k, a[k])
  {
    forall i | k <= i < |b| ensures Earlier(a[k], b[i]) { assert i > k ==> Earlier(b[k], b[i]); }
  }

  lemma SameRecord(c: Contest, end: Turn, a: seq<Turn>, b: seq<Turn>, k: nat)
    requires Records(c, end, a) && Records(c, end, b)
    requires k < |a| && k < |b| && forall i :: 0 <= i < k ==> a[i] == b[i]
    ensures !Earlier(a[k], b[k])
  {
    assert Taken(c, end, a, k);
    if Earlier(a[k], b[k]) { FallsBefore(a, b, k); }
  }

  lemma {:induction false} RecordsPrefix(c: Contest, end: Turn, a: seq<Turn>, b: seq<Turn>, k: nat)
    requires Records(c, end, a) && Records(c, end, b) && k <= |a| && k <= |b|
    ensures forall i :: 0 <= i < k ==> a[i] == b[i]
  {
    if k > 0 {
      RecordsPrefix(c, end, a, b, k - 1);
      hide Records;
      SameRecord(c, end, a, b, k - 1);
      SameRecord(c, end, b, a, k - 1);
    }
  }

  lemma NotLonger(c: Contest, end: Turn, a: seq<Turn>, b: seq<Turn>)
    requires Records(c, end, a) && Records(c, end, b)
    ensures |b| <= |a|
  {
    if |a| < |b| {
      RecordsPrefix(c, end, a, b, |a|);
      assert Taken(c, end, b, |a|) && Falls(a, |a|, b[|a|]);
    }
  }

  /** There is one list of records. */
  lemma RecordsAreOne(c: Contest, end: Turn, a: seq<Turn>, b: seq<Turn>)
    requires Records(c, end, a) && Records(c, end, b)
    ensures a == b
  {
    NotLonger(c, end, a, b);
    NotLonger(c, end, b, a);
    RecordsPrefix(c, end, a, b, |a|);
  }

  // ---------- what the last record means ----------

  lemma RecordEntered(c: Contest, end: Turn, records: seq<Turn>, k: nat)
    requires Records(c, end, records) && k < |records|
    ensures Entered(c, end, records[k])
  {
    assert Taken(c, end, records, k);
  }

  /** Every record costs less than the start, and is worth less if no candidate before it that costs less is worth
      more. */
  lemma {:induction false} RecordsBelow(c: Contest, end: Turn, records: seq<Turn>, k: nat)
    requires Records(c, end, records) && k < |records|
    requires forall x :: Entered(c, end, x) && c.cost(x) < c.start ==> c.worth(x) < c.start
    ensures c.cost(records[k]) < c.start && c.worth(records[k]) < c.start
  {
    assert Taken(c, end, records, k);
    if k > 0 { RecordsBelow(c, end, records, k - 1); }
  }

  /** Nothing is recorded exactly when no candidate costs less than the start. */
  lemma NoneRecorded(c: Contest, end: Turn, records: seq<Turn>)
    requires Records(c, end, records)
    ensures records == [] <==> forall x :: Entered(c, end, x) ==> c.cost(x) >= c.start
  {
    if records == [] {
      forall x | Entered(c, end, x) ensures c.cost(x) >= c.start {
        assert Falls(records, 0, x);
        assert Refused(c, records, 0, x);
      }
    } else {
      assert Taken(c, end, records, 0);
    }
  }

  /** No candidate after the last record costs less than what that is worth. */
  lemma LaterCostMore(c: Contest, end: Turn, records: seq<Turn>, x: Turn)
    requires Records(c, end, records) && records != [] && Entered(c, end, x) && Earlier(records[|records| - 1], x)
    ensures c.cost(x) >= c.worth(records[|records| - 1])
  {
    var n := |records|;
    forall i | 0 <= i < n ensures Earlier(records[i], x) { assert i < n - 1 ==> Earlier(records[i], records[n - 1]); }
    assert Falls(records, n, x);
    assert Refused(c, records, n, x);
  }

  /** After how many records `x` comes. */
  lemma {:induction false} Place(records: seq<Turn>, x: Turn, n: nat) returns (k: nat)
    requires InOrder(records) && n <= |records| && forall i :: n <= i < |records| ==> Earlier(x, records[i])
    ensures k <= |records| && ((k < |records| && records[k] == x) || Falls(records, k, x))
  {
    if n == 0 {
      k := 0;
    } else if records[n - 1] == x {
      k := n - 1;
    } else if Earlier(x, records[n - 1]) {
      k := Place(records, x, n - 1);
    } else {
      k := n;
      forall i | 0 <= i < n ensures Earlier(records[i], x) { assert i < n - 1 ==> Earlier(records[i], records[n - 1]); }
    }
  }

  lemma {:induction false} WorthFalls(c: Contest, end: Turn, records: seq<Turn>, k: nat, n: nat)
    requires Records(c, end, records) && k <= n <= |records|
    requires forall x :: Entered(c, end, x) ==> c.worth(x) == c.cost(x)
    ensures WorthAfter(c, records, n) <= WorthAfter(c, records, k)
  {
    if k < n {
      assert Taken(c, end, records, n - 1);
      WorthFalls(c, end, records, k, n - 1);
    }
  }

  /** If candidates are worth what they cost, the last record is the least of all. */
  lemma LastIsLeast(c: Contest, end: Turn, records: seq<Turn>, x: Turn)
    requires Records(c, end, records) && Entered(c, end, x)
    requires forall y :: Entered(c, end, y) ==> c.worth(y) == c.cost(y)
    ensures WorthAfter(c, records, |records|) <= c.cost(x)
  {
    var k := Place(records, x, |records|);
    if k < |records| && records[k] == x {
      WorthFalls(c, end, records, k + 1, |records|);
    } else {
      assert Refused(c, records, k, x);
      WorthFalls(c, end, records, k, |records|);
    }
  }
}
