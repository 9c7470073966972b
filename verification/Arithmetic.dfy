// Division with remainder, by hand.

module Arithmetic {
  lemma AtLeast(a: nat, m: nat)
    requires 1 <= a
    ensures a * m >= m
  {
    assert a * m == (a - 1) * m + m;
  }

  lemma Remainder(x: nat, q: nat, r: nat, m: nat)
    requires 0 < m && x == q * m + r && r < m
    ensures x % m == r && x / m == q
  {
    var p, e := x / m, x % m;
    assert x == p * m + e && e < m;
    assert (q - p) * m == q * m - p * m;
    if p < q {
      AtLeast(q - p, m);
    } else if q < p {
      assert (p - q) * m == p * m - q * m;
      AtLeast(p - q, m);
    }
  }

  /** Reducing a summand first does not change a sum's remainder. */
  lemma AddedRemainder(x: nat, y: nat, m: nat)
    requires 0 < m
    ensures (x % m + y) % m == (x + y) % m
  {
    var a := x % m + y;
    var q, p, e := x / m, a / m, a % m;
    assert x + y == q * m + (p * m + e);
    assert q * m + p * m == (q + p) * m;
    Remainder(x + y, q + p, e, m);
  }
}
