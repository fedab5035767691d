/** Facts about products and quotients that the solver is not left to find. */
module Arithmetic {

  lemma Multiples(a: nat, b: nat, k: nat)
    requires a <= b
    ensures a * k <= b * k
  {}

  /** A quotient and a remainder are the only ones. */
  lemma QuotientIs(n: nat, q: nat, r: nat, k: nat)
    requires 0 < k && n == q * k + r && r < k
    ensures n / k == q && n % k == r && (q >= 1 ==> n >= k)
  {
    var q', r' := n / k, n % k;
    assert n == q' * k + r';
    if q' < q { Multiples(q' + 1, q, k); }
    if q < q' { Multiples(q + 1, q', k); }
    if q >= 1 { Multiples(1, q, k); }
  }

  // ----- Reals -----

  lemma Times(a: real, b: real)
    requires a >= 0.0 && b >= 0.0
    ensures a * b >= 0.0
  {}

  lemma Strictly(a: real, b: real)
    requires a > 0.0 && b > 0.0
    ensures a * b > 0.0
  {}

  lemma Square(a: real)
    ensures a * a >= 0.0
  {}

  /** Products of nonnegative growing values grow. */
  lemma Mono(a: real, b: real, c: real, d: real)
    requires 0.0 <= a <= b && 0.0 <= c <= d
    ensures 0.0 <= a * c <= b * d
  {
    Times(a, c); Times(b - a, d); Times(a, d - c);
    assert b * d - a * c == (b - a) * d + a * (d - c);
  }

  lemma PositiveProduct(a: real, b: real)
    requires a > 0.0 && a * b >= 0.0
    ensures b >= 0.0
  {
    if b < 0.0 { Strictly(a, -b); }
  }

  /** Scaling keeps an order. */
  lemma Scaled(k: real, a: real, b: real)
    requires k >= 0.0 && a <= b
    ensures k * a <= k * b
  {
    Times(k, b - a);
  }

  lemma Cancel(a: real, s: real)
    requires s > 0.0
    ensures a / s * s == a
  {}
}
