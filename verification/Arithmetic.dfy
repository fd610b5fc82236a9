/** Facts about products and remainders that the solver does not find by itself. */
module Arithmetic {
  lemma Distribute(a: int, b: int, n: int)
    ensures (a - b) * n == a * n - b * n && (a + b) * n == a * n + b * n
  {
  }

  lemma Assoc(a: nat, b: nat, c: nat)
    ensures a * (b * c) == (a * b) * c
  {
  }

  lemma Positive(k: nat, n: nat)
    ensures k * n >= 0
  {
  }

  lemma TimesGrows(a: nat, b: nat, m: nat)
    requires a <= b
    ensures a * m <= b * m
  {
    Distribute(b, a, m);
    Positive(b - a, m);
  }

  /** A product of positive numbers is no smaller than either. */
  lemma Grows(a: nat, b: nat)
    requires a > 0 && b > 0
    ensures a * b >= b && a * b >= a
  {
    TimesGrows(1, a, b);
    TimesGrows(1, b, a);
  }

  /** Different multiples are at least `n` apart. */
  lemma MultiplesApart(d: int, n: nat)
    requires d != 0
    ensures d * n >= n || d * n + n <= 0
  {
    if d > 0 {
      TimesGrows(1, d, n);
    } else {
      TimesGrows(1, -d, n);
      assert -d * n == -(d * n);
    }
  }

  /** Quotient and remainder are determined by what they make up. */
  lemma ModUnique(x: nat, n: nat, q: nat, r: nat)
    requires r < n && x == q * n + r
    ensures x % n == r && x / n == q
  {
    var d: int := x / n - q;
    Distribute(x / n, q, n);
    assert d * n == r - x % n;
    if d != 0 { MultiplesApart(d, n); }
  }

  /** Only the remainder of a position matters for what is some way on from it. */
  lemma Onwards(x: nat, k: nat, n: nat)
    requires n > 0
    ensures (x + k) % n == (x % n + k) % n
  {
    var q, y := x / n, x % n + k;
    assert x + k == q * n + y;
    Distribute(q, y / n, n);
    ModUnique(x + k, n, q + y / n, y % n);
  }
}
