/** A byte ring: reading and writing across its end, and positions that count on forever. */
module FifoRing {
  import opened Arithmetic
  import opened Words

  /** Positions that differ by less than the length of the ring are different places in it. */
  lemma Places(i: nat, j: nat, n: nat)
    requires i < j < i + n
    ensures i % n != j % n
  {
    var q: int, r: int := i / n, j / n;
    var d: int := r - q;
    Distribute(r, q, n);
    assert j - i == d * n + (j % n - i % n);
    if d != 0 { MultiplesApart(d, n); }
  }

  /** A place, found by wrapping around at most once. */
  lemma Wrapped(x: nat, n: nat)
    requires 0 < n && x < 2 * n
    ensures x % n == if x < n then x else x - n
  {
    if x >= n { ModUnique(x, n, 1, x - n); }
  }

  /** Where a run of elements begins among the bytes. */
  lemma Scaled(x: nat, n: nat, esize: nat)
    requires n > 0 && esize > 0
    ensures n * esize > 0 && x * esize % (n * esize) == x % n * esize
  {
    var q, r := x / n, x % n;
    assert x == q * n + r;
    Distribute(q * n, -r, esize);
    assert x * esize == q * (n * esize) + r * esize;
    assert r * esize < n * esize by { Distribute(n, r, esize); Grows(n - r, esize); }
    Grows(n, esize);
    ModUnique(x * esize, n * esize, q, r * esize);
  }

  /** The low bits of a counter do not feel its wrapping. */
  lemma LowOfWrapped(x: nat, k: nat)
    requires k <= 32
    ensures x % U32 % Pow2(k) == x % Pow2(k)
  {
    Pow2Add(32 - k, k);
    Pow2Values();
    ModMod(x, U32, Pow2(32 - k), Pow2(k));
  }

  lemma ModMod(x: nat, m: nat, c: nat, p: nat)
    requires m == c * p && m > 0 && p > 0
    ensures x % m % p == x % p
  {
    var q, y := x / m, x % m;
    assert x == q * m + y;
    Assoc(q, c, p);
    Distribute(q * c, y / p, p);
    Positive(q, c);
    ModUnique(x, p, q * c + y / p, y % p);
  }
}
