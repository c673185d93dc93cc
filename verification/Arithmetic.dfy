/** Quotients and remainders. */
module Arithmetic {
  lemma NextQuotient(d: nat, k: nat)
    requires d > 0
    ensures k % d + 1 < d ==> (k + 1) / d == k / d && (k + 1) % d == k % d + 1
    ensures k % d + 1 == d ==> (k + 1) / d == k / d + 1 && (k + 1) % d == 0
  {
    var q, r := k / d, k % d;
    Euclid(k, d);
    if r + 1 < d {
      QuotientIs(k + 1, d, q, r + 1);
    } else {
      NextMultiple(d, q);
      QuotientIs(k + 1, d, q + 1, 0);
    }
  }

  lemma NextMultiple(d: nat, q: nat)
    ensures d * (q + 1) == d * q + d
  {
  }

  lemma QuotientIs(x: nat, d: nat, q: nat, r: nat)
    requires r < d && x == d * q + r
    ensures x / d == q && x % d == r
  {
    var other := x / d;
    Euclid(x, d);
    if other > q {
      FactorStep(d, q, other);
    } else if other < q {
      FactorStep(d, other, q);
    }
  }

  lemma Euclid(x: nat, d: nat)
    requires d > 0
    ensures x == d * (x / d) + x % d && x % d < d
  {
  }

  lemma FactorStep(d: nat, a: nat, b: nat)
    requires a < b
    ensures d * b >= d * a + d
  {
    var gap := b - a - 1;
    assert d * gap >= 0;
    assert d * b == d * a + d + d * gap by {
      assert b == a + 1 + gap;
    }
  }

  lemma NextResidue(x: nat, n: nat)
    requires n > 0
    ensures (x + 1) % n == if x % n + 1 == n then 0 else x % n + 1
  {
    NextQuotient(n, x);
  }

  lemma {:induction false} SumResidue(x: nat, o: nat, n: nat)
    requires n > 0
    ensures (x % n + o) % n == (x + o) % n
  {
    if o == 0 {
      Euclid(x, n);
      QuotientIs(x % n, n, 0, x % n);
    } else {
      SumResidue(x, o - 1, n);
      NextResidue(x % n + o - 1, n);
      NextResidue(x + o - 1, n);
    }
  }

  lemma Monotone(d: nat, a: nat, b: nat)
    requires a <= b
    ensures d * a <= d * b
  {
    if a < b {
      FactorStep(d, a, b);
    }
  }
}
