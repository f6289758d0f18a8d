/** Facts about division by a number that is not fixed. */
module Division {
  lemma {:induction false} TimesMonotone(a: nat, b: nat, p: nat)
    requires a <= b
    ensures a * p <= b * p
  {
    if a < b {
      TimesMonotone(a, b - 1, p);
      Distribute(b - 1, 1, p);
    }
  }

  lemma Distribute(a: int, b: int, p: int)
    ensures (a + b) * p == a * p + b * p
  {
  }

  /** Division is the only way to write a number as so many periods and a remainder. */
  lemma DivideExact(p: nat, d: nat, r: nat, n: nat)
    requires r < p && n == d * p + r
    ensures n / p == d && n % p == r
  {
    var e := n / p;
    assert n == p * e + n % p;
    if e < d {
      TimesMonotone(e + 1, d, p);
      Distribute(e, 1, p);
    }
    if e > d {
      TimesMonotone(d + 1, e, p);
      Distribute(d, 1, p);
    }
  }

  lemma DivideSum(p: nat, a: nat, b: nat)
    requires p > 0
    ensures (a * p + b) / p == a + b / p && (a * p + b) % p == b % p
  {
    var d, r := b / p, b % p;
    assert b == p * d + r;
    Distribute(a, d, p);
    DivideExact(p, a + d, r, a * p + b);
  }

  lemma DivideTwice(n: nat, d: nat, p: nat)
    requires d > 0 && p > 0
    ensures d * p > 0 && n / d / p == n / (d * p)
  {
    var m := n / d;
    var q, r := m / p, m % p;
    assert n == m * d + n % d && m == q * p + r;
    Distribute(q * p, r, d);
    assert q * p * d == q * (d * p);
    TimesMonotone(r + 1, p, d);
    Distribute(r, 1, d);
    DivideExact(d * p, q, r * d + n % d, n);
  }
}
