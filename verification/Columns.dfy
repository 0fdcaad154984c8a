/** One butterfly column, and how finished columns add up to a finished block. */
module Columns {
  import opened ComplexNumbers
  import opened ComplexSums
  import opened Remainders
  import opened RootsOfUnity
  import opened FftSpec
  import opened Butterflies

  function Slot(base: int, q: int, m: int): int { base + q * m }

  lemma SlotIs(base: int, q: int, m: int)
    ensures Slot(base, q, m) == base + q * m
  {}

  lemma NextSlot(base: int, q: int, m: int)
    ensures Slot(base, 0, m) == base && Slot(base, q + 1, m) == Slot(base, q, m) + m
  {}

  ghost predicate InColumn(i: int, base: int, p: int, m: int)
    requires m > 0
  {
    base <= i < base + p * m && (i - base) % m == 0
  }

  lemma SlotInColumn(base: int, q: int, p: int, m: int)
    requires m > 0 && 0 <= q < p
    ensures InColumn(Slot(base, q, m), base, p, m)
    ensures base <= Slot(base, q, m) <= base + (p - 1) * m < base + p * m
  {
    QuotientUnique(q * m, q, 0, m);
    assert q * m <= (p - 1) * m;
  }

  lemma ColumnSlot(i: int, base: int, p: int, m: int) returns (q: int)
    requires m > 0 && InColumn(i, base, p, m)
    ensures 0 <= q < p && i == Slot(base, q, m)
  {
    q := (i - base) / m;
    assert q * m == i - base < p * m;
    assert q >= p ==> q * m >= p * m;
  }

  /** f is z with column u of a block replaced by its butterfly. */
  ghost predicate ColumnTransformed(z: seq<Complex>, f: seq<Complex>, base: int, p: nat, m: int, stride: int,
                                    tw: seq<Complex>, u: int)
    requires |tw| > 0 && m > 0
  {
    && |f| == |z|
    && (forall q :: 0 <= q < p ==> At(f, Slot(base, q, m)) == Butterfly(z, base, p, m, stride, tw, Slot(u, q, m)))
    && (forall i :: 0 <= i < |z| && !InColumn(i, base, p, m) ==> f[i] == z[i])
  }

  lemma SmallDftColumn(z: seq<Complex>, f: seq<Complex>, base: int, p: nat, m: int, stride: int, tw: seq<Complex>,
                       inverse: bool, u: int)
    requires RootTable(tw, inverse) && m > 0 && p > 0 && p * m * stride == |tw|
    requires |f| == |z|
    requires forall q :: 0 <= q < p ==>
      At(f, Slot(base, q, m)) == SmallDft(Twiddled(z, base, p, m, stride, tw, u), RadixRoots(tw, p, m * stride), q)
    requires forall i :: 0 <= i < |z| && !InColumn(i, base, p, m) ==> f[i] == z[i]
    ensures ColumnTransformed(z, f, base, p, m, stride, tw, u)
  {
    hide Mul, Add, Sum, RootTable, Root, At, SmallDft, Butterfly, InColumn, Slot;
    NonEmpty(tw, inverse);
    forall q | 0 <= q < p
      ensures At(f, Slot(base, q, m)) == Butterfly(z, base, p, m, stride, tw, Slot(u, q, m))
    {
      SlotIs(u, q, m);
      ColumnIsSmallDft(z, base, p, m, stride, tw, inverse, u, q);
    }
  }

  /** A butterfly reads nothing outside its column. */
  lemma ButterflyReads(z: seq<Complex>, y: seq<Complex>, base: int, p: nat, m: int, stride: int, tw: seq<Complex>,
                       k: int)
    requires |tw| > 0
    requires forall q :: 0 <= q < p ==> At(z, Slot(base, q, m)) == At(y, Slot(base, q, m))
    ensures Butterfly(z, base, p, m, stride, tw, k) == Butterfly(y, base, p, m, stride, tw, k)
  {
    hide Mul, Add, Root, At;
    var f, g := ButterflyTerm(z, base, m, stride, tw, k), ButterflyTerm(y, base, m, stride, tw, k);
    forall q | 0 <= q < p
      ensures f(q) == g(q)
    {
      assert Slot(base, q, m) == base + q * m;
    }
    SumCongruent(f, g, p);
  }

  /** f is z with the first j columns of the block at off transformed. */
  ghost predicate ColumnsDone(z: seq<Complex>, f: seq<Complex>, off: int, p: nat, m: int, stride: int,
                              tw: seq<Complex>, j: int)
    requires |tw| > 0 && m > 0
  {
    && |f| == |z|
    && forall i :: 0 <= i < |z| ==> f[i] == AfterColumns(z, off, p, m, stride, tw, j, i)
  }

  function AfterColumns(z: seq<Complex>, off: int, p: nat, m: int, stride: int, tw: seq<Complex>, j: int,
                        i: int): Complex
    requires |tw| > 0 && m > 0 && 0 <= i < |z|
  {
    if off <= i < off + p * m && (i - off) % m < j
    then Butterfly(z, off + (i - off) % m, p, m, stride, tw, i - off)
    else z[i]
  }

  lemma ColumnOfBlock(i: int, off: int, j: int, p: int, m: int)
    requires 0 <= j < m
    ensures InColumn(i, off + j, p, m) <==> off <= i < off + p * m && (i - off) % m == j
  {
    if InColumn(i, off + j, p, m) {
      var q := ColumnSlot(i, off + j, p, m);
      ColumnPosition(q, j, p, m);
    }
    if off <= i < off + p * m && (i - off) % m == j {
      var q := RowOf(i - off, p, m);
      ColumnPosition(q, j, p, m);
    }
  }

  lemma ColumnPosition(q: int, j: int, p: int, m: int)
    requires 0 <= q < p && 0 <= j < m
    ensures (q * m + j) % m == j && (q * m + j) / m == q && (q * m) % m == 0
    ensures 0 <= q * m && q * m + j < p * m
  {
    QuotientUnique(q * m + j, q, j, m);
    QuotientUnique(q * m, q, 0, m);
    assert q * m <= (p - 1) * m;
  }

  lemma RowOf(x: int, p: int, m: int) returns (q: int)
    requires m > 0 && 0 <= x < p * m
    ensures 0 <= q < p && x == q * m + x % m
  {
    q := x / m;
    assert q >= p ==> q * m >= p * m;
  }

  lemma ColumnUntouched(z: seq<Complex>, f: seq<Complex>, off: int, p: nat, m: int, stride: int, tw: seq<Complex>,
                        j: int, base: int)
    requires |tw| > 0 && 0 <= j < m && base == off + j
    requires 0 <= off && off + p * m <= |z|
    requires ColumnsDone(z, f, off, p, m, stride, tw, j)
    ensures forall q :: 0 <= q < p ==> At(f, Slot(base, q, m)) == At(z, Slot(base, q, m))
  {
    hide Butterfly;
    forall q | 0 <= q < p
      ensures At(f, Slot(base, q, m)) == At(z, Slot(base, q, m))
    {
      SlotInColumn(base, q, p, m);
      ColumnOfBlock(Slot(base, q, m), off, j, p, m);
    }
  }

  lemma NextColumn(z: seq<Complex>, f: seq<Complex>, g: seq<Complex>, off: int, p: nat, m: int, stride: int,
                   tw: seq<Complex>, j: int)
    requires |tw| > 0 && 0 <= j < m
    requires 0 <= off && off + p * m <= |z|
    requires ColumnsDone(z, f, off, p, m, stride, tw, j)
    requires ColumnTransformed(f, g, off + j, p, m, stride, tw, j)
    ensures ColumnsDone(z, g, off, p, m, stride, tw, j + 1)
  {
    hide Butterfly;
    ColumnUntouched(z, f, off, p, m, stride, tw, j, off + j);
    forall i | 0 <= i < |z|
      ensures g[i] == AfterColumns(z, off, p, m, stride, tw, j + 1, i)
    {
      ColumnOfBlock(i, off, j, p, m);
      if InColumn(i, off + j, p, m) {
        var q := ColumnSlot(i, off + j, p, m);
        ButterflyReads(f, z, off + j, p, m, stride, tw, j + q * m);
      }
    }
  }

  // ----- the roots each radix uses -----

  lemma TwiddleInTable(p: int, m: int, stride: int, u: int, q: int, n: int)
    requires p * m * stride == n && stride >= 1 && 0 <= u < m && 0 <= q < p
    ensures 0 <= q * u * stride < n
    ensures (q * u * stride) % n == q * u * stride
  {
    ProductBelow(q, u, p, m);
    ScaledBelow(q * u, p * m, stride);
    QuotientUnique(q * u * stride, 0, q * u * stride, n);
  }

  lemma ScaledBelow(x: int, y: int, s: int)
    requires 0 <= x < y && s >= 1
    ensures 0 <= x * s < y * s
  {}

  lemma ProductBelow(q: int, u: int, p: int, m: int)
    requires 0 <= q < p && 0 <= u < m
    ensures 0 <= q * u < p * m
  {
    assert q * u <= q * m;
    assert q * m <= (p - 1) * m;
  }

  lemma RadixRootAt(tw: seq<Complex>, p: nat, h: int, q: int)
    requires |tw| > 0 && p * h == |tw| && 0 <= q < p
    ensures 0 <= q * h < |tw|
    ensures RadixRoots(tw, p, h)[q] == Root(tw, q * h) == tw[q * h]
  {
    hide Root;
    RootWithin(p, h, q, |tw|);
    assert Root(tw, q * h) == tw[q * h] by { RootInTable(tw, q * h); }
  }

  lemma RootWithin(p: nat, h: int, q: int, n: int)
    requires p * h == n > 0 && 0 <= q < p
    ensures 0 <= q * h < n
  {
    assert h >= 1;
    assert q * h <= (p - 1) * h;
  }

  lemma RootInTable(tw: seq<Complex>, e: int)
    requires 0 <= e < |tw|
    ensures Root(tw, e) == tw[e]
  {
    QuotientUnique(e, 0, e, |tw|);
  }

  lemma RadixRootZero(tw: seq<Complex>, inverse: bool, p: nat, h: int)
    requires RootTable(tw, inverse) && p * h == |tw| && p > 0
    ensures RadixRoots(tw, p, h)[0] == ONE
  {
    hide *;
    NonEmpty(tw, inverse);
    RootAtMultiple(tw, inverse, 0);
    RadixRootAt(tw, p, h, 0);
  }

  lemma RadixRootHalf(tw: seq<Complex>, inverse: bool, h: int)
    requires RootTable(tw, inverse) && 2 * h == |tw|
    ensures RadixRoots(tw, 2, h)[1] == MINUS_ONE
  {
    hide *;
    NonEmpty(tw, inverse);
    HalfRoot(tw, inverse, h);
    RadixRootAt(tw, 2, h, 1);
  }

  lemma Radix2Roots(tw: seq<Complex>, inverse: bool, h: int)
    requires RootTable(tw, inverse) && 2 * h == |tw|
    ensures RadixRoots(tw, 2, h) == [ONE, MINUS_ONE]
  {
    hide *;
    NonEmpty(tw, inverse);
    RadixRootZero(tw, inverse, 2, h);
    RadixRootHalf(tw, inverse, h);
  }

  lemma Radix3Roots(tw: seq<Complex>, inverse: bool, h: int)
    requires RootTable(tw, inverse) && 3 * h == |tw|
    ensures 0 <= h < |tw|
    ensures RadixRoots(tw, 3, h) == CubeRoots(tw[h].im)
  {
    hide RootTable, Root, RadixRoots;
    NonEmpty(tw, inverse);
    ThirdRoot(tw, inverse, h);
    RadixRootZero(tw, inverse, 3, h);
    RadixRootAt(tw, 3, h, 1);
    RadixRootAt(tw, 3, h, 2);
  }

  lemma Radix4Roots(tw: seq<Complex>, inverse: bool, h: int)
    requires RootTable(tw, inverse) && 4 * h == |tw|
    ensures RadixRoots(tw, 4, h) == FourthRoots(inverse)
  {
    hide RootTable, Root, RadixRoots;
    NonEmpty(tw, inverse);
    QuarterRoots(tw, inverse, h);
    RadixRootZero(tw, inverse, 4, h);
    RadixRootAt(tw, 4, h, 1);
    RadixRootAt(tw, 4, h, 2);
    RadixRootAt(tw, 4, h, 3);
  }

  lemma Radix5Roots(tw: seq<Complex>, inverse: bool, h: int)
    requires RootTable(tw, inverse) && 5 * h == |tw|
    ensures 0 <= h < 2 * h < |tw|
    ensures RadixRoots(tw, 5, h) == FifthRootsFrom(tw[h], tw[2 * h])
  {
    hide RootTable, Root, RadixRoots;
    NonEmpty(tw, inverse);
    FifthRoots(tw, inverse, h);
    RadixRootZero(tw, inverse, 5, h);
    RadixRootAt(tw, 5, h, 1);
    RadixRootAt(tw, 5, h, 2);
    RadixRootAt(tw, 5, h, 3);
    RadixRootAt(tw, 5, h, 4);
  }

  // ----- what each butterfly body leaves in its column -----

  ghost predicate Geometry(tw: seq<Complex>, inverse: bool, length: int, base: int, p: int, m: int, stride: int,
                           u: int) {
    && RootTable(tw, inverse)
    && p > 0 && stride >= 1 && 0 <= u < m
    && p * m * stride == |tw|
    && 0 <= base && base + (p - 1) * m < length
  }

  lemma ColumnBounds(tw: seq<Complex>, inverse: bool, length: int, base: int, p: int, m: int, stride: int, u: int)
    requires Geometry(tw, inverse, length, base, p, m, stride, u)
    ensures m > 0 && p > 0 && |tw| > 0 && 0 <= base && base + (p - 1) * m < length
  {
    hide RootTable;
    NonEmpty(tw, inverse);
  }

  lemma TwiddledAt(z: seq<Complex>, base: int, p: nat, m: int, stride: int, tw: seq<Complex>, inverse: bool, u: int,
                   q: int)
    requires Geometry(tw, inverse, |z|, base, p, m, stride, u) && 0 <= q < p
    ensures |tw| > 0 && 0 <= q * u * stride < |tw| && 0 <= Slot(base, q, m) < |z|
    ensures Twiddled(z, base, p, m, stride, tw, u)[q] == Mul(z[Slot(base, q, m)], tw[q * u * stride])
  {
    hide Mul, RootTable, Root;
    NonEmpty(tw, inverse);
    assert 0 <= q * u * stride < |tw| by { TwiddleInTable(p, m, stride, u, q, |tw|); }
    assert 0 <= Slot(base, q, m) < |z| by { SlotInColumn(base, q, p, m); }
    assert Root(tw, q * u * stride) == tw[q * u * stride] by { RootInTable(tw, q * u * stride); }
  }

  lemma FirstTwiddled(z: seq<Complex>, base: int, p: nat, m: int, stride: int, tw: seq<Complex>, inverse: bool, u: int)
    requires Geometry(tw, inverse, |z|, base, p, m, stride, u)
    ensures |tw| > 0 && 0 <= base < |z|
    ensures Twiddled(z, base, p, m, stride, tw, u)[0] == z[base]
  {
    hide Mul, RootTable, Root;
    NonEmpty(tw, inverse);
    RootAtMultiple(tw, inverse, 0);
    assert 0 * u * stride == 0 && 0 * m == 0;
    SlotInColumn(base, 0, p, m);
    MulByOne(z[base]);
  }

  /** Every table index the p-point butterfly uses is in range. */
  lemma TableIndex(tw: seq<Complex>, inverse: bool, length: int, base: int, p: nat, m: int, stride: int, u: int, q: int)
    requires Geometry(tw, inverse, length, base, p, m, stride, u) && 0 <= q < p
    ensures 0 <= q * u * stride < |tw|
    ensures 0 <= q * (m * stride) < |tw|
  {
    hide RootTable;
    NonEmpty(tw, inverse);
    assert 0 <= q * u * stride < |tw| by { TwiddleInTable(p, m, stride, u, q, |tw|); }
    assert p * (m * stride) == |tw|;
    RootWithin(p, m * stride, q, |tw|);
  }

  lemma Column2(z: seq<Complex>, f: seq<Complex>, base: int, m: int, stride: int, tw: seq<Complex>, inverse: bool,
                u: int, a: seq<Complex>)
    requires Geometry(tw, inverse, |z|, base, 2, m, stride, u) && |tw| > 0 && base + m < |z|
    requires a == Twiddled(z, base, 2, m, stride, tw, u)
    requires f == z[base := Add(a[0], a[1])][base + m := Sub(a[0], a[1])]
    ensures ColumnTransformed(z, f, base, 2, m, stride, tw, u)
  {
    hide Mul, Add, Sub, RootTable, SmallDft, Butterfly, Twiddled, RadixRoots;
    assert a == [a[0], a[1]];
    Radix2(a[0], a[1]);
    Radix2Roots(tw, inverse, m * stride);
    SlotInColumn(base, 0, 2, m);
    SlotInColumn(base, 1, 2, m);
    SmallDftColumn(z, f, base, 2, m, stride, tw, inverse, u);
  }

  lemma Column3(z: seq<Complex>, f: seq<Complex>, base: int, m: int, stride: int, tw: seq<Complex>, inverse: bool,
                u: int, a: seq<Complex>, y: real)
    requires Geometry(tw, inverse, |z|, base, 3, m, stride, u) && |tw| > 0 && base + 2 * m < |z|
    requires a == Twiddled(z, base, 3, m, stride, tw, u)
    requires RadixRoots(tw, 3, m * stride) == CubeRoots(y)
    requires f == z[base := Add(a[0], Add(a[1], a[2]))][base + m := Radix3Output(a[0], a[1], a[2], y, 1.0)]
                   [base + 2 * m := Radix3Output(a[0], a[1], a[2], y, -1.0)]
    ensures ColumnTransformed(z, f, base, 3, m, stride, tw, u)
  {
    hide Mul, Add, Sub, RootTable, SmallDft, Butterfly, Twiddled, RadixRoots, Radix3Output, CubeRoots;
    assert a == [a[0], a[1], a[2]];
    Radix3(a[0], a[1], a[2], y);
    SlotInColumn(base, 0, 3, m);
    SlotInColumn(base, 1, 3, m);
    SlotInColumn(base, 2, 3, m);
    SmallDftColumn(z, f, base, 3, m, stride, tw, inverse, u);
  }

  lemma Column4(z: seq<Complex>, f: seq<Complex>, base: int, m: int, stride: int, tw: seq<Complex>, inverse: bool,
                u: int, a: seq<Complex>)
    requires Geometry(tw, inverse, |z|, base, 4, m, stride, u) && |tw| > 0 && base + 3 * m < |z|
    requires a == Twiddled(z, base, 4, m, stride, tw, u)
    requires f == z[base := Add(Add(a[0], a[2]), Add(a[1], a[3]))]
                   [base + m := Radix4Output(a[0], a[1], a[2], a[3], if inverse then 1.0 else -1.0)]
                   [base + 2 * m := Sub(Add(a[0], a[2]), Add(a[1], a[3]))]
                   [base + 3 * m := Radix4Output(a[0], a[1], a[2], a[3], if inverse then -1.0 else 1.0)]
    ensures ColumnTransformed(z, f, base, 4, m, stride, tw, u)
  {
    hide Mul, Add, Sub, RootTable, SmallDft, Butterfly, Twiddled, RadixRoots, Radix4Output, FourthRoots;
    assert a == [a[0], a[1], a[2], a[3]];
    Radix4(a[0], a[1], a[2], a[3], inverse);
    Radix4Roots(tw, inverse, m * stride);
    SlotInColumn(base, 0, 4, m);
    SlotInColumn(base, 1, 4, m);
    SlotInColumn(base, 2, 4, m);
    SlotInColumn(base, 3, 4, m);
    SmallDftColumn(z, f, base, 4, m, stride, tw, inverse, u);
  }

  lemma Column5(z: seq<Complex>, f: seq<Complex>, base: int, m: int, stride: int, tw: seq<Complex>, inverse: bool,
                u: int, a: seq<Complex>, ya: Complex, yb: Complex, e1: Complex, o1: Complex, e2: Complex, o2: Complex)
    requires Geometry(tw, inverse, |z|, base, 5, m, stride, u) && |tw| > 0 && base + 4 * m < |z|
    requires a == Twiddled(z, base, 5, m, stride, tw, u)
    requires RadixRoots(tw, 5, m * stride) == FifthRootsFrom(ya, yb)
    requires e1 == Radix5Even(a[0], a[1], a[2], a[3], a[4], ya.re, yb.re)
    requires o1 == Radix5Odd(a[1], a[2], a[3], a[4], ya.im, yb.im)
    requires e2 == Radix5Even(a[0], a[1], a[2], a[3], a[4], yb.re, ya.re)
    requires o2 == Radix5Odd(a[1], a[2], a[3], a[4], yb.im, -ya.im)
    requires f == z[base := Add(a[0], Add(Add(a[1], a[4]), Add(a[2], a[3])))]
                   [base + m := Sub(e1, o1)][base + 2 * m := Sub(e2, o2)]
                   [base + 3 * m := Add(e2, o2)][base + 4 * m := Add(e1, o1)]
    ensures ColumnTransformed(z, f, base, 5, m, stride, tw, u)
  {
    hide Mul, Add, Sub, RootTable, SmallDft, Butterfly, Twiddled, RadixRoots, Radix5Even, Radix5Odd, FifthRootsFrom;
    assert a == [a[0], a[1], a[2], a[3], a[4]];
    Radix5(a[0], a[1], a[2], a[3], a[4], ya, yb);
    SlotInColumn(base, 0, 5, m);
    SlotInColumn(base, 1, 5, m);
    SlotInColumn(base, 2, 5, m);
    SlotInColumn(base, 3, 5, m);
    SlotInColumn(base, 4, 5, m);
    SmallDftColumn(z, f, base, 5, m, stride, tw, inverse, u);
  }
}
