/** The few facts about products and division with remainder that the layouts rest on. */
module Arithmetic {

  function Min(a: int, b: int): int { if a < b then a else b }

  function Max(a: int, b: int): int { if a < b then b else a }

  lemma MulAssoc(a: int, b: int, c: int)
    ensures a * (b * c) == (a * b) * c
  {
  }

  lemma Distribute(a: int, b: int, m: int)
    ensures (a + b) * m == a * m + b * m
    ensures m * (a + b) == m * a + m * b
  {
  }

  lemma MulOneMore(k: int, x: int)
    ensures (k + 1) * x == k * x + x
  {
  }

  lemma MulNonNegative(a: int, b: int)
    requires a >= 0 && b >= 0
    ensures a * b >= 0
  {
  }

  lemma MulPositive(a: nat, b: nat)
    ensures a * b > 0 <==> a > 0 && b > 0
  {
  }

  lemma MulMonotone(a: nat, b: nat, c: nat)
    requires b <= c
    ensures a * b <= a * c
  {
  }

  lemma MulAtLeast(k: int, n: int)
    requires k >= 1 && n >= 0
    ensures k * n >= n
  {
    assert k * n == (k - 1) * n + n;
  }

  lemma DivModUnique(a: int, n: int, q: int, r: int)
    requires n > 0 && a == q * n + r && 0 <= r < n
    ensures a / n == q && a % n == r
  {
    var q', r' := a / n, a % n;
    assert a == q' * n + r';
    assert (q - q') * n == r' - r;
    if q - q' >= 1 { MulAtLeast(q - q', n); }
    if q' - q >= 1 {
      MulAtLeast(q' - q, n);
    }
  }

  lemma ModAddMultiple(a: int, k: int, n: int)
    requires n > 0
    ensures (a + k * n) % n == a % n
    ensures (a + k * n) / n == a / n + k
  {
    assert a + k * n == (a / n + k) * n + a % n;
    DivModUnique(a + k * n, n, a / n + k, a % n);
  }

  /** Equal remainders, seen from the difference. */
  lemma ModEqual(a: int, b: int, n: int)
    requires n > 0
    ensures a % n == b % n <==> (a - b) % n == 0
  {
    if a % n == b % n {
      assert a - b == (a / n - b / n) * n;
      DivModUnique(a - b, n, a / n - b / n, 0);
    }
    if (a - b) % n == 0 {
      var k := (a - b) / n;
      assert a == b + k * n;
      ModAddMultiple(b, k, n);
    }
  }

  lemma ModSmall(a: int, n: int)
    requires 0 <= a < n
    ensures a % n == a && a / n == 0
  {
    DivModUnique(a, n, 0, a);
  }

  lemma ModSubMod(a: int, b: int, n: int)
    requires n > 0
    ensures (a - b % n) % n == (a - b) % n
    ensures (a % n - b) % n == (a - b) % n
  {
    assert a - b % n == a - b + (b / n) * n;
    ModAddMultiple(a - b, b / n, n);
    assert a % n - b == a - b + (-(a / n)) * n;
    ModAddMultiple(a - b, -(a / n), n);
  }

  /** Ceiling division by a positive number, also for negative dividends. */
  function CeilDiv(a: int, n: int): int
    requires n > 0
  {
    -((-a) / n)
  }

  lemma CeilDivUnique(a: int, n: int, q: int)
    requires n > 0 && (q - 1) * n < a <= q * n
    ensures CeilDiv(a, n) == q
  {
    assert -a == (-q) * n + (q * n - a);
    assert (q - 1) * n == q * n - n;
    DivModUnique(-a, n, -q, q * n - a);
  }

  lemma CeilDivBounds(a: int, n: int)
    requires n > 0
    ensures (CeilDiv(a, n) - 1) * n < a <= CeilDiv(a, n) * n
  {
    var q := CeilDiv(a, n);
    assert -a == (-q) * n + (-a) % n;
    assert (-q) * n == -(q * n);
    assert (q - 1) * n == q * n - n;
  }
}
