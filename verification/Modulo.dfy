/** Multiples and remainders. */
module Modulo {

  lemma MultipleIsLarge(m: int, n: int)
    requires m >= 1 && n > 0
    ensures m * n >= n
  {
  }

  lemma MultiplesAreOrdered(a: int, b: int, n: int)
    requires a <= b && n > 0
    ensures a * n <= b * n
  {
  }

  lemma RemainderIsUnique(a: int, r: int, b: int, t: int, n: int)
    requires n > 0 && 0 <= r < n && 0 <= t < n && a * n + r == b * n + t
    ensures a == b && r == t
  {
    assert (a - b) * n == t - r && (b - a) * n == r - t;
    if a > b {
      MultipleIsLarge(a - b, n);
    } else if b > a {
      MultipleIsLarge(b - a, n);
    }
  }

  lemma ModuloOfSum(k: int, r: int, n: int)
    requires n > 0 && 0 <= r < n
    ensures (k * n + r) % n == r
  {
    var x := k * n + r;
    assert x / n * n + x % n == x;
    RemainderIsUnique(x / n, x % n, k, r, n);
  }

  /** No multiple of n lies strictly between two neighbouring ones. */
  lemma NoneBetween(q: int, c: int, n: int)
    requires n > 0
    ensures !((c - 1) * n < q * n < c * n)
  {
    if q >= c {
      assert (q - c) * n >= 0;
    } else {
      assert (c - 1 - q) * n >= 0;
    }
  }
}
