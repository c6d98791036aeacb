/** Integer division as the big-integer library does it, and the facts that fix a quotient. */
module Division {

  /** Division that truncates toward zero. */
  function Quo(a: int, b: nat): int
    requires b > 0
  {
    if a < 0 then -((-a) / b) else a / b
  }

  lemma ExactQuotient(value: int, p: nat)
    requires p > 0
    ensures Quo(value * p, p) == value
  {
    if value < 0 {
      AtLeastOnce(p, -value);
      assert p * (-value) == -(value * p);
      NatQuotient(-value, p, -(value * p));
    } else {
      NatQuotient(value, p, value * p);
    }
  }

  /** Quotient and remainder are determined by the dividend. */
  lemma UniqueQuotient(p: nat, q: nat, r: nat, q': nat, r': nat)
    requires r < p && r' < p && p * q + r == p * q' + r'
    ensures q == q'
  {
    assert p * (q' - q) == p * q' - p * q;
    if q < q' {
      AtLeastOnce(p, q' - q);
    } else if q' < q {
      AtLeastOnce(p, q - q');
    }
  }

  lemma AtLeastOnce(p: nat, d: nat)
    requires d >= 1
    ensures p * d >= p
  {
    assert p * d == p * (d - 1) + p;
  }

  lemma NatQuotient(a: nat, p: nat, m: nat)
    requires p > 0 && m == p * a
    ensures m / p == a
  {
    UniqueQuotient(p, m / p, m % p, a, 0);
  }

  /** A quotient is at least `k` exactly when the dividend is at least `k` times the divisor. */
  lemma QuotientAtLeast(m: nat, d: nat, k: nat)
    requires d > 0
    ensures k <= m / d <==> d * k <= m
  {
    var q := m / d;
    assert d * q <= m < d * q + d;
    if k <= q {
      assert d * q == d * k + d * (q - k);
    } else {
      AtLeastOnce(d, k - q);
      assert d * k == d * q + d * (k - q);
    }
  }

  lemma QuotientRange(m: nat, d: nat)
    requires d > 0
    ensures 0 <= m / d && d * (m / d) <= m < d * (m / d + 1)
  {
    QuotientAtLeast(m, d, m / d);
    QuotientAtLeast(m, d, m / d + 1);
  }

  lemma Divides(m: nat, d: nat)
    requires d > 0
    ensures 0 <= m % d < d && d * Quo(m, d) + m % d == m && Quo(m, d) >= 0
  {
    QuotientRange(m, d);
  }
}
