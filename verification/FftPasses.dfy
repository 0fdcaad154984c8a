/** One pass over all blocks of an array, and why it completes the passes below it. */
module FftPasses {
  import opened ComplexNumbers
  import opened ComplexSums
  import opened Remainders
  import opened RootsOfUnity
  import opened FftSpec
  import opened Columns

  /** All passes are done on each of the first count blocks (of length n) of f; the rest is as in z. */
  ghost predicate BlocksDone(z: seq<Complex>, f: seq<Complex>, count: int, n: int, stride: int, factors: seq<int>,
                             tw: seq<Complex>)
    requires |tw| > 0 && n > 0 && Chain(n, factors)
  {
    && |f| == |z|
    && (forall x :: 0 <= x < |z| && x < count * n ==> f[x] == Work(z, BlockStart(x, n), stride, factors, tw, x % n))
    && (forall x :: 0 <= x < |z| && x >= count * n ==> f[x] == z[x])
  }

  /** Every pass but the last is done: the sub-blocks of the first count blocks are complete. */
  ghost predicate SubBlocksDone(z: seq<Complex>, y: seq<Complex>, count: int, n: int, stride: int, factors: seq<int>,
                                tw: seq<Complex>)
    requires |tw| > 0 && Chain(n, factors)
  {
    if factors[1] == 1 then y == z
    else BlocksDone(z, y, count * factors[0], factors[1], stride * factors[0], factors[2..], tw)
  }

  /** One pass is done on each of the first count blocks of length p*m. */
  ghost predicate PassDone(y: seq<Complex>, f: seq<Complex>, count: int, p: nat, m: int, stride: int, tw: seq<Complex>)
    requires |tw| > 0 && m > 0 && p > 0
  {
    |f| == |y| && forall x :: 0 <= x < |y| ==> f[x] == AfterPass(y, count, p, m, stride, tw, x)
  }

  function AfterPass(y: seq<Complex>, count: int, p: nat, m: int, stride: int, tw: seq<Complex>, x: int): Complex
    requires |tw| > 0 && m > 0 && p > 0 && 0 <= x < |y|
  {
    if x < count * (p * m)
    then Butterfly(y, BlockStart(x, p * m) + (x % (p * m)) % m, p, m, stride, tw, x % (p * m))
    else y[x]
  }

  function BlockStart(x: int, n: int): int
    requires n > 0
  {
    (x / n) * n
  }

  lemma InBlock(x: int, i: int, n: int)
    requires n > 0 && i * n <= x < (i + 1) * n
    ensures BlockStart(x, n) == i * n && x % n == x - i * n
  {
    QuotientUnique(x, i, x - i * n, n);
  }

  lemma NextBlock(y: seq<Complex>, f: seq<Complex>, g: seq<Complex>, i: int, p: nat, m: int, stride: int,
                  tw: seq<Complex>)
    requires |tw| > 0 && m > 0 && p > 0 && 0 <= i && (i + 1) * (p * m) <= |y|
    requires PassDone(y, f, i, p, m, stride, tw)
    requires ColumnsDone(f, g, i * (p * m), p, m, stride, tw, m)
    ensures PassDone(y, g, i + 1, p, m, stride, tw)
  {
    hide Butterfly, BlockStart, Slot;
    var n := p * m;
    assert (i + 1) * n == i * n + n;
    forall x | 0 <= x < |y|
      ensures g[x] == AfterPass(y, i + 1, p, m, stride, tw, x)
    {
      if i * n <= x < i * n + n {
        InBlock(x, i, n);
        BlockUntouched(y, f, i, p, m, stride, tw, (x - i * n) % m, i * n + (x - i * n) % m);
        ButterflyReads(f, y, i * n + (x - i * n) % m, p, m, stride, tw, x - i * n);
      }
    }
  }

  lemma BlockUntouched(y: seq<Complex>, f: seq<Complex>, i: int, p: nat, m: int, stride: int, tw: seq<Complex>, u: int,
                       base: int)
    requires |tw| > 0 && m > 0 && p > 0 && 0 <= i
    requires PassDone(y, f, i, p, m, stride, tw)
    requires 0 <= u < m && base == i * (p * m) + u
    ensures forall q :: 0 <= q < p ==> At(f, Slot(base, q, m)) == At(y, Slot(base, q, m))
  {
    hide Butterfly, BlockStart;
    forall q | 0 <= q < p
      ensures At(f, Slot(base, q, m)) == At(y, Slot(base, q, m))
    {
      SlotInColumn(base, q, p, m);
    }
  }

  /** A pass of radix p over blocks whose sub-blocks are done completes the blocks. */
  lemma PassCompletes(z: seq<Complex>, y: seq<Complex>, f: seq<Complex>, count: int, n: int, stride: int,
                      factors: seq<int>, tw: seq<Complex>)
    requires |tw| > 0 && n > 0 && Chain(n, factors) && 0 <= count && count * n <= |z|
    requires SubBlocksDone(z, y, count, n, stride, factors, tw)
    requires |y| == |z|
    requires PassDone(y, f, count, factors[0], factors[1], stride, tw)
    ensures BlocksDone(z, f, count, n, stride, factors, tw)
  {
    assert factors[0] * factors[1] == n;
    Unchanged(z, y, count, n, stride, factors, tw);
    hide Butterfly, Work, SubBlocksDone, BlockStart, Chain;
    forall x | 0 <= x < |z| && x < count * n
      ensures f[x] == Work(z, BlockStart(x, n), stride, factors, tw, x % n)
    {
      BlockNumber(x, n, count);
      BlockCompletes(z, y, count, n, stride, factors, tw, x / n, x % n);
    }
  }

  lemma BlockNumber(x: int, n: int, count: int)
    requires n > 0 && 0 <= x < count * n
    ensures 0 <= x / n < count && BlockStart(x, n) == (x / n) * n && 0 <= x % n < n
  {
    var q := RowOf(x, count, n);
    QuotientUnique(x, q, x % n, n);
  }

  lemma Unchanged(z: seq<Complex>, y: seq<Complex>, count: int, n: int, stride: int, factors: seq<int>,
                  tw: seq<Complex>)
    requires |tw| > 0 && Chain(n, factors) && |y| == |z|
    requires SubBlocksDone(z, y, count, n, stride, factors, tw)
    ensures forall x :: 0 <= x < |z| && x >= count * n ==> y[x] == z[x]
  {
    assert factors[0] * factors[1] == n;
    hide Work, Chain, BlockStart;
    ProductRegroups(count, factors[0], factors[1]);
  }

  lemma ProductRegroups(a: int, b: int, c: int)
    ensures (a * b) * c == a * (b * c)
  {}

  lemma BlockCompletes(z: seq<Complex>, y: seq<Complex>, count: int, n: int, stride: int, factors: seq<int>,
                       tw: seq<Complex>, i: int, k: int)
    requires |tw| > 0 && n > 0 && Chain(n, factors) && 0 <= i < count && 0 <= k < n && count * n <= |z|
    requires SubBlocksDone(z, y, count, n, stride, factors, tw)
    ensures Butterfly(y, i * n + k % factors[1], factors[0], factors[1], stride, tw, k)
         == Work(z, i * n, stride, factors, tw, k)
  {
    hide Mul, Add, Root, At, Sum, SubBlocksDone;
    var p, m := factors[0], factors[1];
    var f := ButterflyTerm(y, i * n + k % m, m, stride, tw, k);
    var g := WorkTerm(z, i * n, stride, factors, tw, k);
    forall q | 0 <= q < p
      ensures f(q) == g(q)
    {
      RowOfSubBlock(z, y, count, n, stride, factors, tw, i, k % m, q);
    }
    SumCongruent(f, g, p);
  }

  lemma RowOfSubBlock(z: seq<Complex>, y: seq<Complex>, count: int, n: int, stride: int, factors: seq<int>,
                      tw: seq<Complex>, i: int, u: int, q: int)
    requires |tw| > 0 && n > 0 && Chain(n, factors) && count * n <= |z|
    requires 0 <= i < count && 0 <= u < factors[1] && 0 <= q < factors[0]
    requires SubBlocksDone(z, y, count, n, stride, factors, tw)
    requires factors[1] != 1 ==> Chain(factors[1], factors[2..])
    ensures factors[1] == 1 ==> At(y, (i * n + u) + q * factors[1]) == At(z, i * n + q)
    ensures factors[1] != 1 ==>
      At(y, (i * n + u) + q * factors[1]) == Work(z, i * n + q * factors[1], stride * factors[0], factors[2..], tw, u)
  {
    hide Work;
    var p, m := factors[0], factors[1];
    if m != 1 {
      SubBlockOf(i, p, m, n, u, q, count);
      var x := i * n + u + q * m;
      assert 0 <= x < |z| && x < (count * p) * m;
      assert y[x] == Work(z, BlockStart(x, m), stride * p, factors[2..], tw, x % m);
    }
  }

  lemma SubBlockOf(i: int, p: int, m: int, n: int, u: int, q: int, count: int)
    requires 0 <= i < count && 0 <= u < m && 0 <= q < p && p * m == n
    ensures var x := i * n + u + q * m;
      && 0 <= x < (count * p) * m == count * n
      && BlockStart(x, m) == i * n + q * m
      && x % m == u
  {
    var b := i * p + q;
    BelowProduct(i, q, count, p);
    BelowProduct(b, u, count * p, m);
    QuotientUnique(b * m + u, b, u, m);
    assert b * m == i * (p * m) + q * m;
    ProductRegroups(count, p, m);
  }

  lemma BelowProduct(i: int, q: int, count: int, p: int)
    requires 0 <= i < count && 0 <= q < p
    ensures 0 <= i * p + q < count * p
  {
    assert i * p <= (count - 1) * p;
    assert i * p >= 0;
  }
}
