/** Nonlinear facts the solver needs spelled out. */
module Arithmetic {

  lemma ProductBound(x: nat, y: nat, a: nat, b: nat)
    requires x <= a && y <= b
    ensures x * y <= a * b
  {
    assert x * y <= a * y <= a * b;
  }

  lemma SmallMultiple(k: int, n: int)
    requires n > 0 && -n < k * n < n
    ensures k == 0
  {
    if k >= 1 {
      ProductBound(1, n, k, n);
    }
  }

  /** Quotient and remainder are unique. */
  lemma DivMod(x: nat, q: nat, r: nat, n: nat)
    requires r < n && x == q * n + r
    ensures x / n == q && x % n == r
  {
    var d, m := x / n, x % n;
    assert x == d * n + m;
    assert (d - q) * n == d * n - q * n;
    SmallMultiple(d - q, n);
  }

  lemma NextMultiple(x: nat, n: nat)
    requires n > 0 && x % n == 0
    ensures (x + n) % n == 0
  {
    assert x == (x / n) * n;
    assert (x / n + 1) * n == (x / n) * n + n;
    DivMod(x + n, x / n + 1, 0, n);
  }

  lemma DistinctMod(a: nat, b: nat, n: nat)
    requires a < b < a + n
    ensures a % n != b % n
  {
    if a % n == b % n {
      var d, e := b / n, a / n;
      assert (d - e) * n == d * n - e * n;
      SmallMultiple(d - e, n);
    }
  }
}
