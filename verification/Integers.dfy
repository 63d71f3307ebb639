/** Products, quotients and ranges of integers. */
module Integers {
  /** The integer nearest to r among those from 0 up to, not including, n. */
  function Clamp(r: int, n: nat): (c: int)
    requires n > 0
    ensures 0 <= c < n && (0 <= r < n ==> c == r) && (r < 0 ==> c == 0) && (r >= n ==> c == n - 1)
  {
    if r < 0 then 0 else if r >= n then n - 1 else r
  }

  lemma PreviousMultiple(q: int, b: int)
    ensures (q - 1) * b == q * b - b
  {
  }

  lemma Distribute(a: int, p: int, b: int, unit: int)
    ensures (a * p + b) * unit == a * (p * unit) + b * unit
  {
  }

  lemma Regroup(a: int, b: int, c: int)
    ensures a * b * c == a * (c * b)
  {
  }

  lemma DoubledProduct(a: int, p: int)
    ensures a * (2 * p) == 2 * (a * p)
  {
  }

  lemma SmallMod(v: nat, m: nat)
    requires v < m
    ensures v % m == v
  {
  }

  lemma {:induction false} NextMultiple(p: nat, a: int, b: int)
    requires a < b
    ensures p * a + p <= p * b
    decreases b - a
  {
    if a + 1 < b {
      NextMultiple(p, a, b - 1);
    }
  }

  /** Division with remainder is unique. */
  lemma UniqueQuotient(p: nat, a: int, r: int, b: int, s: int)
    requires 0 <= r < p && 0 <= s < p && p * a + r == p * b + s
    ensures a == b
  {
    if a < b {
      NextMultiple(p, a, b);
    } else if b < a {
      NextMultiple(p, b, a);
    }
  }

  lemma QuotientOf(v: int, p: nat, q: int, r: int)
    requires 0 <= r < p && v == p * q + r
    ensures v / p == q
  {
    var a := v / p;
    assert v == p * a + v % p;
    UniqueQuotient(p, a, v % p, q, r);
  }

  lemma RestOf(v: int, p: nat, q: int, r: int)
    requires 0 <= r < p && v == p * q + r
    ensures v % p == r
  {
    QuotientOf(v, p, q, r);
  }

  /** Reducing modulo a multiple first changes nothing. */
  lemma ModOfMultiple(v: int, p: nat, c: nat)
    requires p > 0 && c * p > 0
    ensures v % (c * p) % p == v % p
  {
    var t, w := v / (c * p), v % (c * p);
    assert v == c * p * t + w;
    assert c * p * t == p * (c * t);
    assert w == p * (w / p) + w % p;
    Sum(p, c * t, w / p);
    RestOf(v, p, c * t + w / p, w % p);
  }

  lemma Sum(p: int, a: int, b: int)
    ensures p * (a + b) == p * a + p * b
  {
  }

  /** Halving a quotient, and what the odd half is worth. */
  lemma HalveQuotient(v: int, h: nat)
    requires h > 0
    ensures v / (2 * h) == v / h / 2
    ensures v / h * h == v / (2 * h) * (2 * h) + v / h % 2 * h
  {
    var q := v / h;
    var x, b := q / 2, q % 2;
    HalvedProduct(q, x, b, h);
    assert v == h * q + v % h;
    QuotientOf(v, 2 * h, x, b * h + v % h);
  }

  lemma HalvedProduct(q: int, x: int, b: nat, h: nat)
    requires q == 2 * x + b && b <= 1
    ensures q * h == x * (2 * h) + b * h && q * h == h * q && x * (2 * h) == 2 * h * x
    ensures b * h <= h
  {
  }
}
