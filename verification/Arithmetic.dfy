/** Facts about products and quotients that the solver is better told than left to find. */
module Arithmetic {
  lemma ProductMonotone(a: int, b: int, k: nat)
    requires a <= b
    ensures a * k <= b * k
  {}

  lemma PositiveFactor(k: int, d: nat)
    requires k * d > 0
    ensures k > 0
  {}

  lemma OneMore(a: int, k: int)
    ensures (a + 1) * k == a * k + k
  {}

  /** `q` is the quotient when it brackets `a`. */
  lemma QuotientIs(a: nat, d: nat, q: nat)
    requires d > 0 && q * d <= a < q * d + d
    ensures a / d == q
  {
    var r := a / d;
    assert a == r * d + a % d;
    assert (r + 1 - q) * d == r * d + d - q * d;
    assert (q + 1 - r) * d == q * d + d - r * d;
    PositiveFactor(r + 1 - q, d);
    PositiveFactor(q + 1 - r, d);
  }

  lemma QuotientMonotone(a: nat, b: nat, d: nat)
    requires a <= b && d > 0
    ensures a / d <= b / d
  {
    var q, r := a / d, b / d;
    assert a == q * d + a % d && b == r * d + b % d;
    assert (r + 1 - q) * d == r * d + d - q * d;
    PositiveFactor(r + 1 - q, d);
  }

  lemma NoMultipleBetween(d: int, m: int)
    requires -m < d * m < m
    ensures d == 0
  {}

  lemma DivMod(q: int, r: int, m: int)
    requires 0 <= r < m
    ensures (q * m + r) / m == q && (q * m + r) % m == r
  {
    var n := q * m + r;
    var d := n / m - q;
    assert n == (n / m) * m + n % m;
    assert d * m == r - n % m;
    assert -m < d * m < m;
    NoMultipleBetween(d, m);
  }
}
