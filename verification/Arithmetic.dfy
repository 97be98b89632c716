/** Facts about products and quotients that the length proofs use. */
module Arithmetic {

  lemma Distribute(a: int, b: int)
    ensures (a + 1) * b == a * b + b
  {
  }

  lemma {:induction false} ProductGrows(a: int, b: int, d: nat)
    requires a >= b
    ensures a * d >= b * d
    decreases a - b
  {
    if a == b {
    } else {
      ProductGrows(a - 1, b, d);
      Distribute(a - 1, d);
    }
  }

  lemma EuclidOrder(q: int, m: int, q': int, m': int, d: int)
    requires q > q' && 0 <= m && 0 <= m' < d
    ensures q * d + m > q' * d + m'
  {
    ProductGrows(q, q' + 1, d);
    Distribute(q', d);
  }

  lemma QuotientUnique(n: int, d: int, q: int, m: int)
    requires 0 <= m < d && n == q * d + m
    ensures n / d == q && n % d == m
  {
    if q > n / d {
      EuclidOrder(q, m, n / d, n % d, d);
    } else if n / d > q {
      EuclidOrder(n / d, n % d, q, m, d);
    }
  }

  lemma QuotientBound(f: nat, d: nat, n: nat)
    requires d > 0 && f * d <= n
    ensures f <= n / d
  {
    var m := n - f * d;
    assert m == m / d * d + m % d;
    assert n == (f + m / d) * d + m % d;
    QuotientUnique(n, d, f + m / d, m % d);
  }

  // Named, so that proofs that do not compute with them need not look inside.

  function FloorQuotient(r: nat, k: nat): nat
    requires k > 0
  {
    r / k
  }

  function FloorRemainder(r: nat, k: nat): nat
    requires k > 0
  {
    r % k
  }

  lemma QuotientOfZero(k: nat)
    requires k > 0
    ensures FloorQuotient(0, k) == 0 && FloorRemainder(0, k) == 0
  {
  }

  lemma QuotientStep(r: nat, k: nat)
    requires k > 1
    ensures FloorQuotient(r + 1, k) == FloorQuotient(r, k) + if FloorRemainder(r, k) + 1 == k then 1 else 0
    ensures FloorRemainder(r + 1, k) == if FloorRemainder(r, k) + 1 == k then 0 else FloorRemainder(r, k) + 1
  {
    if r % k + 1 == k {
      Distribute(r / k, k);
      QuotientUnique(r + 1, k, r / k + 1, 0);
    } else {
      QuotientUnique(r + 1, k, r / k, r % k + 1);
    }
  }

  lemma ReachBound(n: nat, f: nat, s: nat, d: nat, k: nat, x: nat)
    requires d > 0 && s == 0 && f * d + s * k <= x <= n
    ensures f <= n / d && s * (k - 1) == 0
  {
    QuotientBound(f, d, n);
  }

  lemma OverheadBound(n: nat, f: nat, s: nat, d: nat, k: nat)
    requires d > 0 && f * d + s * k <= n && (k == 0 ==> s == 0)
    ensures f <= n / d && s * (k - 1) >= 0
  {
    assert s * k >= 0;
    QuotientBound(f, d, n);
  }
}
