/** Quotients of natural numbers, where the solver needs help with products. */
module Arithmetic {
  lemma NextMultiple(d: nat, p: nat, q: nat)
    requires p < q
    ensures d * q >= d * p + d
  {
    var e := q - p - 1;
    assert d * (p + 1 + e) == d * (p + 1) + d * e;
  }

  /** Quotient and remainder are unique. */
  lemma SameQuotient(d: nat, p: nat, s: nat, q: nat, r: nat)
    requires d * p + s == d * q + r && s < d && r < d
    ensures p == q
  {
    if p < q {
      NextMultiple(d, p, q);
    } else if q < p {
      NextMultiple(d, q, p);
    }
  }

  lemma Divided(n: nat, d: nat)
    requires d > 0
    ensures n == d * (n / d) + n % d
  {}

  lemma QuotientIs(n: nat, d: nat, q: nat, r: nat)
    requires d > 0 && n == d * q + r && r < d
    ensures q == n / d
  {
    Divided(n, d);
    SameQuotient(d, n / d, n % d, q, r);
  }

  /** Dividing by `a` and then by `b` is dividing by `a * b`. */
  lemma QuotientTwice(n: nat, a: nat, b: nat)
    requires a > 0 && b > 0
    ensures a * b > 0 && n / a / b == n / (a * b)
  {
    Divided(n, a);
    Divided(n / a, b);
    Combined(n, a, b, n / a, n % a, n / a / b, n / a % b);
  }

  lemma Combined(n: nat, a: nat, b: nat, x: nat, s: nat, q: nat, r: nat)
    requires a > 0 && b > 0 && n == a * x + s && s < a && x == b * q + r && r < b
    ensures a * b > 0 && q == n / (a * b)
  {
    Regrouped(n, a, b, q, r, s);
    Below(a, b, r, s);
    QuotientIs(n, a * b, q, a * r + s);
  }

  lemma Regrouped(n: nat, a: nat, b: nat, q: nat, r: nat, s: nat)
    requires n == a * (b * q + r) + s
    ensures n == (a * b) * q + (a * r + s)
  {
    assert a * (b * q + r) == a * (b * q) + a * r;
  }

  lemma Below(a: nat, b: nat, r: nat, s: nat)
    requires r < b && s < a
    ensures 0 <= a * r + s < a * b
  {
    assert a * (r + 1) <= a * b;
  }
}
