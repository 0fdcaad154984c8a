/** The twiddle table: the nfft-th roots of unity that kiss_fft_alloc tabulates with cos and sin
    (kiss_fft.c:489-495), known here only through the laws those values obey. */
module RootsOfUnity {
  import opened ComplexNumbers
  import opened ComplexSums
  import opened Remainders

  /** tw[a] behaves like exp(-2*pi*i*a/n), or exp(+2*pi*i*a/n) when inverse: exponents add modulo n,
      every entry lies on the unit circle, only the first is one, and the quarter turn has the sign of
      the direction. */
  ghost predicate RootTable(tw: seq<Complex>, inverse: bool) {
    |tw| > 0 && Multiplicative(tw) && Unitary(tw) && Primitive(tw) && Oriented(tw, inverse)
  }

  ghost predicate Multiplicative(tw: seq<Complex>) {
    forall a, b :: 0 <= a < |tw| && 0 <= b < |tw| ==> ExponentsAdd(tw, a, b)
  }

  ghost predicate Unitary(tw: seq<Complex>) {
    forall a :: 0 <= a < |tw| ==> OnUnitCircle(tw[a])
  }

  ghost predicate Primitive(tw: seq<Complex>) {
    forall a :: 0 <= a < |tw| ==> (tw[a] == ONE <==> a == 0)
  }

  ghost predicate Oriented(tw: seq<Complex>, inverse: bool) {
    |tw| > 0 && |tw| % 4 == 0 ==> tw[|tw| / 4] == Quarter(inverse)
  }

  ghost predicate ExponentsAdd(tw: seq<Complex>, a: int, b: int)
    requires 0 <= a < |tw| && 0 <= b < |tw|
  {
    tw[if a + b < |tw| then a + b else a + b - |tw|] == Mul(tw[a], tw[b])
  }

  ghost predicate OnUnitCircle(w: Complex) { Mul(w, w.Conj()) == ONE }

  const MINUS_ONE := Complex(-1.0, 0.0)

  function Quarter(inverse: bool): Complex { Complex(0.0, if inverse then 1.0 else -1.0) }

  /** The root with exponent e, for any integer e. */
  function Root(tw: seq<Complex>, e: int): Complex
    requires |tw| > 0
  {
    tw[e % |tw|]
  }

  lemma NonEmpty(tw: seq<Complex>, inverse: bool)
    requires RootTable(tw, inverse)
    ensures |tw| > 0
  {}

  lemma RootSum(tw: seq<Complex>, inverse: bool, a: int, b: int)
    requires RootTable(tw, inverse)
    ensures Root(tw, a + b) == Mul(Root(tw, a), Root(tw, b))
  {
    var n := |tw|;
    SumWraps(a, b, n);
    assert ExponentsAdd(tw, a % n, b % n);
  }

  lemma RootPeriodic(tw: seq<Complex>, a: int, k: int)
    requires |tw| > 0
    ensures Root(tw, a + k * |tw|) == Root(tw, a)
  {
    AddMultiple(a, k, |tw|);
  }

  lemma RootConj(tw: seq<Complex>, inverse: bool, a: int)
    requires RootTable(tw, inverse)
    ensures Root(tw, -a) == Root(tw, a).Conj()
    ensures OnUnitCircle(Root(tw, a))
  {
    hide Mul;
    RootSum(tw, inverse, a, -a);
    RootAtMultiple(tw, inverse, 0);
    InverseOnCircle(Root(tw, a), Root(tw, -a));
  }

  lemma RootAtMultiple(tw: seq<Complex>, inverse: bool, k: int)
    requires RootTable(tw, inverse)
    ensures Root(tw, k * |tw|) == ONE
  {
    QuotientUnique(k * |tw|, k, 0, |tw|);
  }

  lemma InverseOnCircle(w: Complex, v: Complex)
    requires OnUnitCircle(w) && Mul(w, v) == ONE
    ensures v == w.Conj()
  {
    calc {
      v;
      Mul(ONE, v);
      Mul(Mul(w, w.Conj()), v);
      { MulCommutes(w, w.Conj()); MulAssociates(w.Conj(), w, v); }
      Mul(w.Conj(), Mul(w, v));
      Mul(w.Conj(), ONE);
      w.Conj();
    }
  }

  lemma RootNotOne(tw: seq<Complex>, inverse: bool, a: int)
    requires RootTable(tw, inverse)
    requires a % |tw| != 0
    ensures Root(tw, a) != ONE
  {
    hide Mul;
  }

  /** The roots at multiples of n/p, for the radices with their own butterflies. */
  lemma HalfRoot(tw: seq<Complex>, inverse: bool, h: int)
    requires RootTable(tw, inverse)
    requires 2 * h == |tw|
    ensures Root(tw, h) == MINUS_ONE
  {
    QuotientUnique(h, 0, h, |tw|);
    RootNotOne(tw, inverse, h);
    RootSum(tw, inverse, h, h);
    RootAtMultiple(tw, inverse, 1);
    SquareRootOfOne(Root(tw, h));
  }

  lemma SquareRootOfOne(w: Complex)
    requires Mul(w, w) == ONE && w != ONE
    ensures w == MINUS_ONE
  {
    assert Mul(Sub(w, ONE), Add(w, ONE)) == ZERO;
    NoZeroDivisors(Sub(w, ONE), Add(w, ONE));
  }

  lemma ThirdRoot(tw: seq<Complex>, inverse: bool, h: int)
    requires RootTable(tw, inverse)
    requires 3 * h == |tw|
    ensures Root(tw, h).re == -0.5
    ensures Root(tw, 2 * h) == Root(tw, h).Conj()
  {
    QuotientUnique(h, 0, h, |tw|);
    RootNotOne(tw, inverse, h);
    RootSum(tw, inverse, h, h);
    ComplementRoot(tw, inverse, h);
    CubeRootOfOne(Root(tw, h));
  }

  lemma CubeRootOfOne(w: Complex)
    requires Mul(w, w) == w.Conj() && OnUnitCircle(w) && w != ONE
    ensures w.re == -0.5
  {
    var s := Add(ONE, Add(w, w.Conj()));
    assert Mul(Sub(w, ONE), s) == ZERO by {
      MulDistributes(Sub(w, ONE), ONE, Add(w, w.Conj()));
    }
    NoZeroDivisors(Sub(w, ONE), s);
  }

  lemma ComplementRoot(tw: seq<Complex>, inverse: bool, a: int)
    requires RootTable(tw, inverse)
    ensures Root(tw, |tw| - a) == Root(tw, a).Conj()
    ensures OnUnitCircle(Root(tw, a))
  {
    RootConj(tw, inverse, a);
    RootPeriodic(tw, -a, 1);
  }

  lemma QuarterRoot(tw: seq<Complex>, inverse: bool, h: int)
    requires RootTable(tw, inverse)
    requires 4 * h == |tw|
    ensures Root(tw, h) == Quarter(inverse)
  {
    hide Mul;
    QuotientUnique(h, 0, h, 4 * h);
    assert (4 * h) % 4 == 0 && (4 * h) / 4 == h;
  }

  lemma QuarterRoots(tw: seq<Complex>, inverse: bool, h: int)
    requires RootTable(tw, inverse)
    requires 4 * h == |tw|
    ensures Root(tw, h) == Quarter(inverse)
    ensures Root(tw, 2 * h) == MINUS_ONE
    ensures Root(tw, 3 * h) == Quarter(inverse).Conj()
  {
    hide Mul, Root, RootTable;
    QuarterRoot(tw, inverse, h);
    HalfRoot(tw, inverse, 2 * h);
    ComplementRoot(tw, inverse, h);
  }

  lemma FifthRoots(tw: seq<Complex>, inverse: bool, h: int)
    requires RootTable(tw, inverse)
    requires 5 * h == |tw|
    ensures Root(tw, 3 * h) == Root(tw, 2 * h).Conj()
    ensures Root(tw, 4 * h) == Root(tw, h).Conj()
  {
    ComplementRoot(tw, inverse, h);
    ComplementRoot(tw, inverse, 2 * h);
  }

  function Powers(tw: seq<Complex>, e: int): int -> Complex
    requires |tw| > 0
  {
    j => Root(tw, j * e)
  }

  /** The roots of unity sum to zero along every exponent that is not a multiple of n. */
  lemma PowersCancel(tw: seq<Complex>, inverse: bool, e: int)
    requires RootTable(tw, inverse)
    requires e % |tw| != 0
    ensures Sum(Powers(tw, e), |tw|) == ZERO
  {
    RootNotOne(tw, inverse, e);
    PowersTurn(tw, inverse, e);
    PowersWrap(tw, inverse, e);
    FixedByOther(Root(tw, e), Sum(Powers(tw, e), |tw|));
  }

  lemma PowersTurn(tw: seq<Complex>, inverse: bool, e: int)
    requires RootTable(tw, inverse)
    ensures Sum(Shifted(Powers(tw, e), 1), |tw|) == Mul(Root(tw, e), Sum(Powers(tw, e), |tw|))
  {
    hide Mul, Root, RootTable;
    NonEmpty(tw, inverse);
    forall j | 0 <= j < |tw|
      ensures Shifted(Powers(tw, e), 1)(j) == Mul(Root(tw, e), Powers(tw, e)(j))
    {
      RootSum(tw, inverse, e, j * e);
      assert e + j * e == (1 + j) * e;
    }
    SumOfProducts(Root(tw, e), Powers(tw, e), Shifted(Powers(tw, e), 1), |tw|);
  }

  lemma PowersWrap(tw: seq<Complex>, inverse: bool, e: int)
    requires RootTable(tw, inverse)
    ensures Sum(Shifted(Powers(tw, e), 1), |tw|) == Sum(Powers(tw, e), |tw|)
  {
    hide Powers, Root, Mul;
    NonEmpty(tw, inverse);
    PowersPeriod(tw, e);
    SumRotated(Powers(tw, e), |tw|);
  }

  lemma PowersPeriod(tw: seq<Complex>, e: int)
    requires |tw| > 0
    ensures Powers(tw, e)(0) == Powers(tw, e)(|tw|)
  {
    RootPeriodic(tw, 0, e);
    assert |tw| * e == 0 * e + e * |tw|;
  }

  lemma SumRotated(f: int -> Complex, n: nat)
    requires f(0) == f(n)
    ensures Sum(Shifted(f, 1), n) == Sum(f, n)
  {
    SumSplit(f, 1, n);
    assert Sum(f, 1) == Add(Sum(f, 0), f(0));
    assert Sum(f, n + 1) == Add(Sum(f, n), f(n));
  }

  lemma FixedByOther(w: Complex, s: Complex)
    requires Mul(w, s) == s && w != ONE
    ensures s == ZERO
  {
    assert Mul(Sub(w, ONE), s) == ZERO;
    NoZeroDivisors(Sub(w, ONE), s);
  }

  lemma PowersOfOne(tw: seq<Complex>, inverse: bool, e: int)
    requires RootTable(tw, inverse)
    requires e % |tw| == 0
    ensures Sum(Powers(tw, e), |tw|) == Complex(|tw| as real, 0.0)
  {
    hide Mul;
    forall j: int
      ensures Powers(tw, e)(j) == ONE
    {
      assert j * e == (j * (e / |tw|)) * |tw|;
      RootAtMultiple(tw, inverse, j * (e / |tw|));
    }
    SumOfOnes(Powers(tw, e), |tw|);
  }

  lemma {:induction false} SumOfOnes(f: int -> Complex, n: nat)
    requires forall j :: f(j) == ONE
    ensures Sum(f, n) == Complex(n as real, 0.0)
  {
    if n > 0 {
      SumOfOnes(f, n - 1);
    }
  }

  /** The laws are consistent: the square roots of one obey them. */
  lemma SquareRootsAreATable(inverse: bool)
    ensures RootTable([ONE, MINUS_ONE], inverse)
  {
    hide Mul;
    MulByOne(ONE);
    MulByOne(MINUS_ONE);
    MinusOneSquared();
    var tw := [ONE, MINUS_ONE];
    assert tw[0] == ONE && tw[1] == MINUS_ONE;
  }

  /** And so do the fourth roots, in both directions. */
  lemma FourthRootsAreATable(inverse: bool)
    ensures RootTable([ONE, Quarter(inverse), MINUS_ONE, Quarter(inverse).Conj()], inverse)
  {
    hide Mul;
    var q, r := Quarter(inverse), Quarter(inverse).Conj();
    var tw := [ONE, q, MINUS_ONE, r];
    QuarterProducts(inverse);
    forall a, b | 0 <= a < 4 && 0 <= b < 4
      ensures ExponentsAdd(tw, a, b)
    {
      FourthExponents(tw, q, r, a, b);
    }
    forall a | 0 <= a < 4
      ensures OnUnitCircle(tw[a])
    {
      MulByOne(ONE);
    }
    hide ExponentsAdd, OnUnitCircle;
  }

  /** How the two quarter turns and the half turn multiply. */
  ghost predicate QuarterTurns(q: Complex, r: Complex) {
    && Mul(q, q) == MINUS_ONE && Mul(r, r) == MINUS_ONE && Mul(MINUS_ONE, MINUS_ONE) == ONE
    && Mul(q, r) == ONE && Mul(r, q) == ONE
    && Mul(q, MINUS_ONE) == r && Mul(MINUS_ONE, q) == r
    && Mul(r, MINUS_ONE) == q && Mul(MINUS_ONE, r) == q
  }

  lemma FourthExponents(tw: seq<Complex>, q: Complex, r: Complex, a: int, b: int)
    requires tw == [ONE, q, MINUS_ONE, r] && 0 <= a < 4 && 0 <= b < 4
    requires QuarterTurns(q, r)
    ensures ExponentsAdd(tw, a, b)
  {
    hide Mul;
    MulByOne(tw[a]);
    MulByOne(tw[b]);
  }

  lemma QuarterProducts(inverse: bool)
    ensures QuarterTurns(Quarter(inverse), Quarter(inverse).Conj())
  {
    var s := if inverse then 1.0 else -1.0;
    hide Mul;
    Imaginary(s);
    Imaginary(-s);
    assert Mul(MINUS_ONE, MINUS_ONE) == ONE by { MinusOneSquared(); }
  }

  /** Products among i, -i and -1. */
  lemma Imaginary(s: real)
    requires s == 1.0 || s == -1.0
    ensures Mul(Complex(0.0, s), Complex(0.0, s)) == MINUS_ONE
    ensures Mul(Complex(0.0, s), Complex(0.0, -s)) == ONE
    ensures Mul(Complex(0.0, s), MINUS_ONE) == Complex(0.0, -s)
    ensures Mul(MINUS_ONE, Complex(0.0, s)) == Complex(0.0, -s)
  {
    hide Mul;
    ImaginaryProduct(s, s);
    ImaginaryProduct(s, -s);
    ImaginaryTurned(s);
    assert s * s == 1.0 && s * -s == -1.0;
  }

  lemma ImaginaryProduct(s: real, t: real)
    ensures Mul(Complex(0.0, s), Complex(0.0, t)) == Complex(-(s * t), 0.0)
  {}

  lemma ImaginaryTurned(s: real)
    ensures Mul(Complex(0.0, s), MINUS_ONE) == Complex(0.0, -s)
    ensures Mul(MINUS_ONE, Complex(0.0, s)) == Complex(0.0, -s)
  {}

  lemma MulByOne(w: Complex)
    ensures Mul(ONE, w) == w && Mul(w, ONE) == w
  {}

  lemma MinusOneSquared()
    ensures Mul(MINUS_ONE, MINUS_ONE) == ONE
  {}
}
