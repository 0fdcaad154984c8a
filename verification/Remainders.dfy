/** Products, quotients, remainders and minima. */
module Remainders {

  function Times(a: int, b: int): int { a * b }

  function Min(a: int, b: int): int { if a < b then a else b }

  predicate Divides(d: int, n: int)
    requires d > 0
  {
    n % d == 0
  }

  lemma QuotientUnique(x: int, q: int, r: int, n: int)
    requires n > 0 && 0 <= r < n && x == q * n + r
    ensures x / n == q && x % n == r
  {
    var d := q - x / n;
    assert d * n == x % n - r;
    assert d >= 1 ==> d * n >= n;
    assert d <= -1 ==> d * n <= -n;
  }

  lemma SumWraps(a: int, b: int, n: int)
    requires n > 0
    ensures var s := a % n + b % n; (a + b) % n == if s < n then s else s - n
  {
    var s := a % n + b % n;
    if s < n {
      QuotientUnique(a + b, a / n + b / n, s, n);
    } else {
      QuotientUnique(a + b, a / n + b / n + 1, s - n, n);
    }
  }

  lemma AddMultiple(a: int, k: int, n: int)
    requires n > 0
    ensures (a + k * n) % n == a % n
  {
    assert a + k * n == (a / n + k) * n + a % n;
    QuotientUnique(a + k * n, a / n + k, a % n, n);
  }

  /** Block i of a table of blocks of the same length. */
  lemma BlockFits(i: nat, len: nat)
    ensures 0 <= i * len && i * len + len == (i + 1) * len
  {}

  lemma BlockBound(i: nat, entries: nat, len: nat)
    requires i < entries
    ensures (i + 1) * len <= entries * len
  {
    assert (entries - (i + 1)) * len >= 0;
  }
}
