module Arithmetic {

  lemma MulMonotone(a: nat, b: nat, p: nat)
    requires a <= b
    ensures a * p <= b * p
  {
  }

  lemma Gap(d: nat, e: nat, p: nat)
    requires d < e
    ensures d * p + p <= e * p
  {
    assert (d + 1) * p <= e * p by { MulMonotone(d + 1, e, p); }
    assert (d + 1) * p == d * p + p;
  }

  lemma QuotientIs(n: nat, d: nat, q: nat, s: nat)
    requires d > 0 && n == q * d + s && s < d
    ensures n / d == q
  {
    var q' := n / d;
    assert n == q' * d + n % d;
    if q' < q {
      Gap(q', q, d);
    } else if q < q' {
      Gap(q, q', d);
    }
  }

  lemma DivTwice(n: nat, p: nat)
    requires p > 0
    ensures n / 256 / p == n / (256 * p)
  {
    var m := n / 256;
    var q, r := m / p, m % p;
    assert m == q * p + r;
    assert n == 256 * m + n % 256;
    assert 256 * (q * p) == q * (256 * p);
    QuotientIs(n, 256 * p, q, 256 * r + n % 256);
  }
}
