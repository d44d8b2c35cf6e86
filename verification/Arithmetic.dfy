/** Products and remainders that the solver does not find alone. */
module Arithmetic {

  lemma TimesAtLeast(d: int, n: nat)
    requires d >= 1
    ensures d * n >= n
  {
    assert (d - 1) * n >= 0;
  }

  /** The only multiple of n strictly between -n and n is 0. */
  lemma TimesBetween(d: int, n: nat)
    requires -(n as int) < d * n < n
    ensures d == 0
  {
    if d > 0 {
      TimesAtLeast(d, n);
    } else if d < 0 {
      TimesAtLeast(-d, n);
    }
  }

  lemma RemainderIs(x: int, n: nat)
    requires n > 0
    ensures x == (x / n) * n + x % n && 0 <= x % n < n
  {
  }

  lemma RemainderUnique(x: int, n: nat, q: int, r: int)
    requires n > 0 && x == q * n + r && 0 <= r < n
    ensures x % n == r
  {
    RemainderIs(x, n);
    assert (q - x / n) * n == x % n - r;
    TimesBetween(q - x / n, n);
  }
}
