/** Prime factors, as far as the lengths of kiss_fft.c need them. */
module PrimeFactors {
  import opened Remainders

  predicate Prime(p: int) { p >= 2 && forall d :: 2 <= d < p ==> !Divides(d, p) }

  /** No prime factor of n is over the bound. */
  ghost predicate NoPrimeOver(n: int, bound: int) {
    forall p :: Prime(p) && Divides(p, n) ==> p <= bound
  }

  /** No divisor of n from two on is below p. */
  predicate NoneBelow(n: int, p: int) { forall d :: 2 <= d < p ==> !Divides(d, n) }

  lemma DividesProduct(d: int, a: int, b: int)
    requires d > 0 && Divides(d, a)
    ensures Divides(d, a * b) && Divides(d, b * a)
  {
    assert a * b == (a / d * b) * d + 0 by {
      Reorder(a / d, b, d);
    }
    QuotientUnique(a * b, a / d * b, 0, d);
  }

  lemma Reorder(q: int, b: int, d: int)
    ensures (q * d) * b == (q * b) * d
  {}

  lemma Transitive(d: int, e: int, n: int)
    requires d > 0 && e > 0 && Divides(d, e) && Divides(e, n)
    ensures Divides(d, n)
  {
    DividesProduct(d, e, n / e);
  }

  /** The least divisor from two on, starting the search at d: it is prime. */
  lemma LeastDivisor(n: int, d: int) returns (p: int)
    requires 2 <= d <= n && NoneBelow(n, d)
    ensures d <= p <= n && Prime(p) && Divides(p, n)
    decreases n - d
  {
    if Divides(d, n) {
      p := d;
      forall e | 2 <= e < d
        ensures !Divides(e, d)
      {
        if Divides(e, d) {
          Transitive(e, d, n);
        }
      }
    } else {
      p := LeastDivisor(n, d + 1);
    }
  }

  /** A prime that divides r * m and is greater than r divides m. */
  lemma PrimeDivides(p: int, r: int, m: int)
    requires Prime(p) && 1 <= r < p && Divides(p, r * m)
    ensures Divides(p, m)
    decreases r
  {
    if r > 1 {
      var k, s := p / r, p % r;
      assert !Divides(r, p);
      assert s * m == p * m - k * (r * m) by {
        Spread(p, r, k, s, m);
      }
      DifferenceDivides(p, m, k * (r * m));
      DividesProduct(p, r * m, k);
      PrimeDivides(p, s, m);
    }
  }

  lemma Spread(p: int, r: int, k: int, s: int, m: int)
    requires p == k * r + s
    ensures s * m == p * m - k * (r * m)
  {}

  lemma DifferenceDivides(p: int, m: int, b: int)
    requires p > 0
    ensures Divides(p, b) ==> Divides(p, p * m - b)
  {
    if Divides(p, b) {
      assert p * m - b == (m - b / p) * p + 0;
      QuotientUnique(p * m - b, m - b / p, 0, p);
    }
  }

  /** Splitting off a factor within the bound changes nothing about the primes over it. */
  lemma SmallFactor(n: int, r: int, m: int, bound: int)
    requires n == r * m && 1 <= r <= bound && m >= 1
    ensures NoPrimeOver(n, bound) <==> NoPrimeOver(m, bound)
  {
    forall p | Prime(p) && p > bound
      ensures Divides(p, n) <==> Divides(p, m)
    {
      if Divides(p, n) {
        PrimeDivides(p, r, m);
      }
      if Divides(p, m) {
        DividesProduct(p, m, r);
      }
    }
  }

  /** A number over the bound without divisors within it has a prime factor over it. */
  lemma RoughHasLargePrime(n: int, bound: int)
    requires n > bound >= 1 && NoneBelow(n, bound + 1)
    ensures !NoPrimeOver(n, bound)
  {
    var p := LeastDivisor(n, bound + 1);
  }

  lemma OneHasNone(bound: int)
    ensures NoPrimeOver(1, bound)
  {}

  // ----- trial division -----

  /** Below the square root of n only: then n has no proper divisor. */
  lemma BeyondSquareRoot(n: int, p: int)
    requires 2 <= p && NoneBelow(n, p) && p * p > n >= 1
    ensures NoneBelow(n, n)
  {
    forall d | 2 <= d < n
      ensures !Divides(d, n)
    {
      if Divides(d, n) && d >= p {
        var e := n / d;
        assert e * d == n;
        Cofactor(n, d, e, p);
        DividesProduct(e, e, d);
      }
    }
  }

  lemma Cofactor(n: int, d: int, e: int, p: int)
    requires e * d == n && 2 <= p <= d < n < p * p
    ensures 2 <= e < p
  {
    if e >= p {
      ProductGrows(e, d, p);
    }
    assert e <= 1 ==> e * d <= d;
  }

  lemma ProductGrows(e: int, d: int, p: int)
    requires e >= p >= 0 && d >= p
    ensures e * d >= p * p
  {
    assert (e - p) * d >= 0;
    assert p * (d - p) >= 0;
  }

  /** After an odd trial the next is two on: the even number between divides nothing odd. */
  lemma NextOdd(n: int, p: int)
    requires 3 <= p && p % 2 == 1 && NoneBelow(n, p) && !Divides(p, n)
    ensures NoneBelow(n, p + 2)
  {
    if Divides(p + 1, n) {
      assert Divides(2, p + 1);
      Transitive(2, p + 1, n);
    }
  }

  lemma QuotientNoneBelow(n: int, m: int, r: int, p: int)
    requires n == r * m && r >= 1 && NoneBelow(n, p)
    ensures NoneBelow(m, p)
  {
    forall d | 2 <= d < p
      ensures !Divides(d, m)
    {
      if Divides(d, m) {
        DividesProduct(d, m, r);
      }
    }
  }
}
