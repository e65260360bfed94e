/** The few facts about multiplication and remainders the other modules need. */
module Arith {

  lemma Multiple(n: int, k: int)
    requires n >= 0 && k >= 1
    ensures n * k >= n
  {
  }

  lemma Monotone(a: nat, b: nat, c: nat)
    requires a <= b
    ensures a * c <= b * c && c * a <= c * b
  {
  }

  /** A multiple of n smaller than n is zero. */
  lemma SmallMultiple(n: int, d: int)
    requires -n < n * d < n
    ensures d == 0
  {
    if d >= 1 { Multiple(n, d); } else if d <= -1 { Multiple(n, -d); }
  }

  /** Quotient and remainder are determined by the division equation. */
  lemma DivMod(x: int, n: nat, q: int, r: nat)
    requires r < n && x == n * q + r
    ensures x / n == q && x % n == r
  {
    var p, s := x / n, x % n;
    assert x == n * p + s;
    assert n * (p - q) == n * p - n * q;
    SmallMultiple(n, p - q);
  }

  lemma QuotientBound(k: nat, b: nat, m: nat)
    requires k >= 1 && k * b <= m
    ensures b <= m / k
  {
    var q, r := m / k, m % k;
    assert m == k * q + r;
    assert k * (b - q) == k * b - k * q;
    if b > q { Multiple(k, b - q); }
  }

  lemma Successor(m: nat, k: nat)
    requires k > 0
    ensures if m % k + 1 == k then (m + 1) / k == m / k + 1 && (m + 1) % k == 0
            else (m + 1) / k == m / k && (m + 1) % k == m % k + 1
  {
    var q, r := m / k, m % k;
    assert m == k * q + r;
    assert k * (q + 1) == k * q + k;
    if r + 1 == k { DivMod(m + 1, k, q + 1, 0); } else { DivMod(m + 1, k, q, r + 1); }
  }
}
