/** The inverse of the complex transform: conjugate roots, a factor of n, nothing else. */
module DftInversion {
  import opened ComplexNumbers
  import opened ComplexSums
  import opened Remainders
  import opened RootsOfUnity
  import opened FftSpec

  ghost predicate ConjugateTables(tw: seq<Complex>, back: seq<Complex>) {
    |tw| == |back| && forall a :: 0 <= a < |tw| ==> back[a] == tw[a].Conj()
  }

  /** s is c times the transform of z. */
  ghost predicate ScaledSpectrum(z: seq<Complex>, s: seq<Complex>, c: real, tw: seq<Complex>)
    requires |tw| > 0
  {
    |s| >= |tw| && forall k :: 0 <= k < |tw| ==> s[k] == Scale(c, Dft(z, 0, 1, 1, tw, |tw|, k))
  }

  function DoubleTerm(z: seq<Complex>, c: real, tw: seq<Complex>, t: int): (int, int) -> Complex
    requires |tw| > 0
  {
    (k, j) => Scale(c, Mul(At(z, j), Root(tw, k * (j - t))))
  }

  lemma ScaleMul(c: real, a: Complex, b: Complex)
    ensures Mul(Scale(c, a), b) == Scale(c, Mul(a, b))
    ensures Scale(c, a) == Mul(Complex(c, 0.0), a)
  {}

  /** Transforming back with the conjugate table gives n times the samples (times the scale c). */
  lemma InverseTransform(z: seq<Complex>, s: seq<Complex>, c: real, tw: seq<Complex>, back: seq<Complex>, inverse: bool,
                         t: int)
    requires RootTable(tw, inverse) && |tw| > 0 && ConjugateTables(tw, back)
    requires ScaledSpectrum(z, s, c, tw)
    requires 0 <= t < |tw|
    ensures Dft(s, 0, 1, 1, back, |tw|, t) == Scale(c, Scale(|tw| as real, At(z, t)))
  {
    hide *;
    SameSize(tw, back);
    var n := |tw|;
    var g := DoubleTerm(z, c, tw, t);
    var f := DftTerm(s, 0, 1, 1, back, t);
    DftSum(s, back, n, t);
    forall k | 0 <= k < n
      ensures f(k) == RowSums(g, n)(k)
    {
      SpectrumTerm(z, s, c, tw, back, inverse, t, k);
    }
    SumCongruent(f, RowSums(g, n), n);
    SumExchange(g, n, n);
    forall j | 0 <= j < n && j != t
      ensures ColumnSums(g, n)(j) == ZERO
    {
      ColumnVanishes(z, c, tw, inverse, t, j);
    }
    SumOfOne(ColumnSums(g, n), n, t);
    ColumnRemains(z, c, tw, inverse, t);
  }

  lemma SameSize(tw: seq<Complex>, back: seq<Complex>)
    requires ConjugateTables(tw, back)
    ensures |back| == |tw|
  {}

  lemma DftSum(x: seq<Complex>, tw: seq<Complex>, n: nat, k: int)
    requires |tw| > 0
    ensures Dft(x, 0, 1, 1, tw, n, k) == Sum(DftTerm(x, 0, 1, 1, tw, k), n)
  {}

  /** One term of the inverse transform is a row of the double sum. */
  lemma SpectrumTerm(z: seq<Complex>, s: seq<Complex>, c: real, tw: seq<Complex>, back: seq<Complex>, inverse: bool,
                     t: int, k: int)
    requires RootTable(tw, inverse) && |tw| > 0 && ConjugateTables(tw, back)
    requires ScaledSpectrum(z, s, c, tw)
    requires 0 <= k < |tw|
    ensures DftTerm(s, 0, 1, 1, back, t)(k) == RowSums(DoubleTerm(z, c, tw, t), |tw|)(k)
  {
    hide Mul, Add, Root, RootTable, Scale, At, DoubleTerm, DftTerm;
    var n := |tw|;
    var w := Root(tw, -(k * t));
    var x := DftTerm(z, 0, 1, 1, tw, k);
    var row := Row(DoubleTerm(z, c, tw, t), k);
    assert DftTerm(s, 0, 1, 1, back, t)(k) == Mul(Scale(c, Sum(x, n)), w) by {
      SpectrumSample(z, s, c, tw, back, inverse, t, k);
    }
    var cc := Mul(Complex(c, 0.0), w);
    forall j | 0 <= j < n
      ensures row(j) == Mul(cc, x(j))
    {
      RowTerm(z, c, tw, inverse, t, k, j);
    }
    SumOfProducts(cc, x, row, n);
    ScaledProduct(c, Sum(x, n), w);
  }

  lemma SpectrumSample(z: seq<Complex>, s: seq<Complex>, c: real, tw: seq<Complex>, back: seq<Complex>, inverse: bool,
                       t: int, k: int)
    requires RootTable(tw, inverse) && |tw| > 0 && ConjugateTables(tw, back)
    requires ScaledSpectrum(z, s, c, tw)
    requires 0 <= k < |tw|
    ensures DftTerm(s, 0, 1, 1, back, t)(k) == Mul(Scale(c, Sum(DftTerm(z, 0, 1, 1, tw, k), |tw|)), Root(tw, -(k * t)))
  {
    hide *;
    SameSize(tw, back);
    FlatTerm(s, back, t, k);
    ConjugateRoot(tw, back, inverse, k * t);
    SampleOfSpectrum(z, s, c, tw, k);
  }

  lemma SampleOfSpectrum(z: seq<Complex>, s: seq<Complex>, c: real, tw: seq<Complex>, k: int)
    requires |tw| > 0 && ScaledSpectrum(z, s, c, tw) && 0 <= k < |tw|
    ensures At(s, k) == Scale(c, Sum(DftTerm(z, 0, 1, 1, tw, k), |tw|))
  {
    hide Mul, Scale, Sum, DftTerm;
  }

  lemma FlatTerm(x: seq<Complex>, tw: seq<Complex>, k: int, j: int)
    requires |tw| > 0
    ensures DftTerm(x, 0, 1, 1, tw, k)(j) == Mul(At(x, j), Root(tw, j * k))
  {
    hide Mul, Root, At;
    assert 0 + j * 1 * 1 == j && j * k * 1 == j * k;
  }

  lemma ScaledProduct(c: real, a: Complex, w: Complex)
    ensures Mul(Scale(c, a), w) == Mul(Mul(Complex(c, 0.0), w), a)
  {
    ScaleMul(c, a, w);
    hide Mul, Scale;
    ScaleMul(c, Mul(a, w), w);
    MulCommutes(a, w);
    MulAssociates(Complex(c, 0.0), w, a);
  }

  lemma ConjugateRoot(tw: seq<Complex>, back: seq<Complex>, inverse: bool, e: int)
    requires RootTable(tw, inverse) && |tw| > 0 && ConjugateTables(tw, back)
    ensures Root(back, e) == Root(tw, -e)
  {
    hide RootTable, Mul;
    RootConj(tw, inverse, e);
  }

  lemma RowTerm(z: seq<Complex>, c: real, tw: seq<Complex>, inverse: bool, t: int, k: int, j: int)
    requires RootTable(tw, inverse) && |tw| > 0
    ensures DoubleTerm(z, c, tw, t)(k, j)
         == Mul(Mul(Complex(c, 0.0), Root(tw, -(k * t))), DftTerm(z, 0, 1, 1, tw, k)(j))
  {
    hide Mul, Root, RootTable, Scale, At;
    var w, v, x := Root(tw, -(k * t)), Root(tw, j * k), At(z, j);
    assert Root(tw, k * (j - t)) == Mul(v, w) by {
      RootSum(tw, inverse, j * k, -(k * t));
      assert j * k + -(k * t) == k * (j - t);
    }
    FlatTerm(z, tw, k, j);
    ScaleMul(c, Mul(x, Mul(v, w)), w);
    MulAssociates(x, v, w);
    MulCommutes(Mul(x, v), w);
    MulAssociates(Complex(c, 0.0), w, Mul(x, v));
  }

  /** Down a column the roots cancel, except where the exponent vanishes. */
  lemma ColumnVanishes(z: seq<Complex>, c: real, tw: seq<Complex>, inverse: bool, t: int, j: int)
    requires RootTable(tw, inverse) && |tw| > 0
    requires 0 <= t < |tw| && 0 <= j < |tw| && j != t
    ensures ColumnSums(DoubleTerm(z, c, tw, t), |tw|)(j) == ZERO
  {
    hide *;
    ColumnFactors(z, c, tw, t, j);
    DifferenceNotMultiple(j, t, |tw|);
    PowersCancel(tw, inverse, j - t);
    MulByZero(Scale(c, At(z, j)));
  }

  lemma ColumnRemains(z: seq<Complex>, c: real, tw: seq<Complex>, inverse: bool, t: int)
    requires RootTable(tw, inverse) && |tw| > 0
    requires 0 <= t < |tw|
    ensures ColumnSums(DoubleTerm(z, c, tw, t), |tw|)(t) == Scale(c, Scale(|tw| as real, At(z, t)))
  {
    hide *;
    ColumnFactors(z, c, tw, t, t);
    PowersOfOne(tw, inverse, t - t);
    ScaleTwice(c, |tw| as real, At(z, t));
  }

  lemma ColumnFactors(z: seq<Complex>, c: real, tw: seq<Complex>, t: int, j: int)
    requires |tw| > 0
    ensures ColumnSums(DoubleTerm(z, c, tw, t), |tw|)(j) == Mul(Scale(c, At(z, j)), Sum(Powers(tw, j - t), |tw|))
  {
    hide Mul, Add, Root, Scale, At;
    var x := Scale(c, At(z, j));
    var column := Column(DoubleTerm(z, c, tw, t), j);
    forall k | 0 <= k < |tw|
      ensures column(k) == Mul(x, Powers(tw, j - t)(k))
    {
      ScaleMul(c, At(z, j), Root(tw, k * (j - t)));
    }
    SumOfProducts(x, Powers(tw, j - t), column, |tw|);
  }

  lemma DifferenceNotMultiple(j: int, t: int, n: int)
    requires 0 <= t < n && 0 <= j < n && j != t
    ensures (j - t) % n != 0
  {
    if j > t {
      QuotientUnique(j - t, 0, j - t, n);
    } else {
      QuotientUnique(j - t, -1, j - t + n, n);
    }
  }

  lemma ScaleTwice(c: real, n: real, a: Complex)
    ensures Mul(Scale(c, a), Complex(n, 0.0)) == Scale(c, Scale(n, a))
  {}

  lemma MulByZero(a: Complex)
    ensures Mul(a, ZERO) == ZERO
  {}
}

/** The real transform through a complex one of half the length: kiss_fftr2 and kiss_fftri2 of kiss_fftr.c,
    and the pair spx_fft, spx_ifft of fftwrap.c (float build). */
module RealFft {
  import opened ComplexNumbers
  import opened ComplexSums
  import opened Remainders
  import opened RootsOfUnity
  import opened FftSpec
  import opened KissFft
  import opened DftInversion
  import opened PrimeFactors
  import Signals
  import opened Wrappers

  datatype RealState = RealState(sub: FftState, super: seq<Complex>)

  /** The tables kiss_fftr_alloc fills, known through the table big of the 2n-th roots: the half-length
      table is every other entry, and the super twiddles are a quarter turn times the first half. */
  ghost predicate ValidReal(st: RealState, big: seq<Complex>) {
    && ValidState(st.sub)
    && |st.sub.twiddles| == st.sub.nfft > 0
    && |st.super| == st.sub.nfft
    && |big| == 2 * st.sub.nfft
    && RootTable(big, st.sub.inverse)
    && (forall a :: 0 <= a < st.sub.nfft ==> st.sub.twiddles[a] == big[2 * a])
    && (forall k :: 0 <= k < st.sub.nfft ==> st.super[k] == Mul(Quarter(st.sub.inverse), big[k]))
  }

  /** Every other entry of a table of roots is the table of half the length. */
  function EveryOther(big: seq<Complex>): (tw: seq<Complex>)
    requires |big| % 2 == 0
    ensures |tw| == |big| / 2
  {
    seq(|big| / 2, a requires 0 <= a < |big| / 2 => big[2 * a])
  }

  lemma EveryOtherIsTable(big: seq<Complex>, inverse: bool)
    requires RootTable(big, inverse) && |big| % 2 == 0
    ensures RootTable(EveryOther(big), inverse)
  {
    hide Mul, OnUnitCircle, Quarter;
    var tw := EveryOther(big);
    forall a, b | 0 <= a < |tw| && 0 <= b < |tw|
      ensures ExponentsAdd(tw, a, b)
    {
      assert ExponentsAdd(big, 2 * a, 2 * b);
    }
    hide ExponentsAdd;
  }

  /** kiss_fftr_alloc: there is no state for an odd length. */
  method KissFftrAlloc(nfft: int, inverse: bool, big: seq<Complex>) returns (st: Option<RealState>)
    requires 1 <= nfft < 0x8000_0000 && RootTable(big, inverse) && |big| == nfft
    ensures st.Some? <==> nfft % 2 == 0
    ensures st.Some? ==> ValidReal(st.value, big) && st.value.sub.nfft == nfft / 2 && st.value.sub.inverse == inverse
    ensures st.Some? ==> (RadicesFit(nfft / 2, st.value.sub.factors) <==> NoPrimeOver(nfft / 2, MAX_RADIX))
  {
    hide RootTable, Chain, RadicesFit, NoPrimeOver, Mul, Quarter;
    if nfft % 2 != 0 {
      return None;
    }
    EveryOtherIsTable(big, inverse);
    var sub := KissFftAlloc(nfft / 2, inverse, EveryOther(big));
    var super := seq(nfft / 2, k requires 0 <= k < nfft / 2 => Mul(Quarter(inverse), big[k]));
    st := Some(RealState(sub, super));
  }

  lemma SuperTwiddles(st: RealState, big: seq<Complex>, k: int)
    requires ValidReal(st, big) && 0 <= k < st.sub.nfft
    ensures OnUnitCircle(st.super[k])
    ensures k > 0 ==> st.super[st.sub.nfft - k] == st.super[k].Conj()
  {
    hide Mul, RootTable, Root, OnUnitCircle, ValidState;
    var n, q := st.sub.nfft, Quarter(st.sub.inverse);
    BigRoot(big, st.sub.inverse, k);
    QuarterOnCircle(st.sub.inverse);
    UnitProduct(q, big[k]);
    if k > 0 {
      MirrorRoot(big, st.sub.inverse, n, k);
      QuarterConj(st.sub.inverse);
      ConjMul(q, big[k]);
      MulAssociates(q, MINUS_ONE, big[k].Conj());
    }
  }

  lemma BigRoot(big: seq<Complex>, inverse: bool, k: int)
    requires RootTable(big, inverse) && 0 <= k < |big|
    ensures OnUnitCircle(big[k]) && Root(big, k) == big[k]
  {
    hide Mul, OnUnitCircle;
    QuotientUnique(k, 0, k, |big|);
  }

  lemma QuarterOnCircle(inverse: bool)
    ensures OnUnitCircle(Quarter(inverse))
  {}

  lemma QuarterConj(inverse: bool)
    ensures Mul(Quarter(inverse), MINUS_ONE) == Quarter(inverse).Conj()
  {}

  lemma UnitProduct(a: Complex, b: Complex)
    requires OnUnitCircle(a) && OnUnitCircle(b)
    ensures OnUnitCircle(Mul(a, b))
  {
    ConjMul(a, b);
    hide Mul;
    var c, d := a.Conj(), b.Conj();
    calc {
      Mul(Mul(a, b), Mul(c, d));
      { MulAssociates(a, b, Mul(c, d)); }
      Mul(a, Mul(b, Mul(c, d)));
      { MulCommutes(c, d); MulAssociates(b, d, c); }
      Mul(a, Mul(Mul(b, d), c));
      { MulByOne(c); }
      Mul(a, c);
    }
  }

  /** Half a turn past -k is minus the conjugate of k. */
  lemma MirrorRoot(big: seq<Complex>, inverse: bool, n: int, k: int)
    requires RootTable(big, inverse) && |big| == 2 * n && 0 < k < n
    ensures big[n - k] == Mul(MINUS_ONE, big[k].Conj())
  {
    hide *;
    BigRoot(big, inverse, k);
    BigRoot(big, inverse, n - k);
    RootConj(big, inverse, k);
    HalfRoot(big, inverse, n);
    RootSum(big, inverse, n, -k);
  }

  // ----- splitting and joining bins -----

  function SumBin(Z: seq<Complex>, n: int, k: int): Complex
    requires 0 < k < n <= |Z|
  {
    Add(Z[k], Z[n - k].Conj())
  }

  function DifferenceBin(Z: seq<Complex>, n: int, k: int): Complex
    requires 0 < k < n <= |Z|
  {
    Sub(Z[k], Z[n - k].Conj())
  }

  /** Bin k of the real signal from the transform Z of its even/odd pairs. */
  function SplitBin(Z: seq<Complex>, super: seq<Complex>, n: int, k: int): Complex
    requires 0 < k < n <= |Z| && |super| == n
  {
    Scale(0.5, Add(SumBin(Z, n, k), Mul(DifferenceBin(Z, n, k), super[k])))
  }

  /** Bin k as kiss_fftr2 stores it: real and imaginary part next to each other, offset by one. */
  function Bin(F: seq<real>, n: int, k: int): Complex
    requires 0 < k < n && 2 * n <= |F|
  {
    Complex(F[2 * k - 1], F[2 * k])
  }

  /** Bin k of the half-length spectrum from the real spectrum. */
  function JoinBin(F: seq<real>, super: seq<Complex>, n: int, k: int): Complex
    requires 0 < k < n && 2 * n <= |F| && |super| == n
  {
    var a, b := Bin(F, n, k), Bin(F, n, n - k).Conj();
    Add(Add(a, b), Mul(Sub(a, b), super[k]))
  }

  /** F holds c times the packed spectrum that kiss_fftr2 makes of Z. */
  ghost predicate PackedSpectrum(Z: seq<Complex>, F: seq<real>, c: real, super: seq<Complex>, n: int)
    requires 0 < n <= |Z| && |super| == n
  {
    && 2 * n <= |F|
    && F[0] == Signals.Product(c, Z[0].re + Z[0].im)
    && F[2 * n - 1] == Signals.Product(c, Z[0].re - Z[0].im)
    && forall k :: 0 < k < n ==> Bin(F, n, k) == Scale(c, SplitBin(Z, super, n, k))
  }

  /** Bin n-k of the split is the conjugate of the difference the code stores there. */
  lemma SplitMirror(Z: seq<Complex>, super: seq<Complex>, n: int, k: int)
    requires 0 < k < n <= |Z| && |super| == n
    requires super[n - k] == super[k].Conj()
    ensures SplitBin(Z, super, n, n - k)
         == Scale(0.5, Sub(SumBin(Z, n, k), Mul(DifferenceBin(Z, n, k), super[k]))).Conj()
  {
    hide Mul;
    var d := DifferenceBin(Z, n, k);
    assert DifferenceBin(Z, n, n - k) == Sub(ZERO, d.Conj());
    NegatedProduct(d.Conj(), super[k].Conj());
    ConjMul(d, super[k]);
  }

  lemma NegatedProduct(a: Complex, b: Complex)
    ensures Mul(Sub(ZERO, a), b) == Sub(ZERO, Mul(a, b))
  {}

  /** Joining undoes splitting, up to a factor of two. */
  lemma JoinSplit(Z: seq<Complex>, F: seq<real>, c: real, st: RealState, big: seq<Complex>,
                  back: seq<Complex>, k: int)
    requires ValidReal(st, big) && st.sub.nfft <= |Z|
    requires PackedSpectrum(Z, F, c, st.super, st.sub.nfft)
    requires ConjugateTables(st.super, back)
    requires 0 < k < st.sub.nfft
    ensures JoinBin(F, back, st.sub.nfft, k) == Scale(c, Scale(2.0, Z[k]))
  {
    var n := st.sub.nfft;
    SuperTwiddles(st, big, k);
    SuperTwiddles(st, big, n - k);
    hide Mul, ValidReal;
    SplitMirror(Z, st.super, n, k);
    var f1, f2, w := SumBin(Z, n, k), DifferenceBin(Z, n, k), st.super[k];
    var t := Mul(f2, w);
    var a, b := Bin(F, n, k), Bin(F, n, n - k).Conj();
    hide SumBin, DifferenceBin;
    assert a == Scale(c, Scale(0.5, Add(f1, t)));
    assert b == Scale(c, Scale(0.5, Sub(f1, t)).Conj()).Conj();
    HalfSums(a, b, c, f1, t);
    ScaleMul(c, t, w.Conj());
    MulAssociates(f2, w, w.Conj());
    MulByOne(f2);
    assert JoinBin(F, back, n, k) == Add(Scale(c, f1), Scale(c, f2));
    SumAndDifference(Z[k], Z[n - k].Conj(), f1, f2, c) by {
      assert f1 == Add(Z[k], Z[n - k].Conj()) && f2 == Sub(Z[k], Z[n - k].Conj());
    }
  }

  lemma HalfSums(a: Complex, b: Complex, c: real, f1: Complex, t: Complex)
    requires a == Scale(c, Scale(0.5, Add(f1, t))) && b == Scale(c, Scale(0.5, Sub(f1, t)).Conj()).Conj()
    ensures Add(a, b) == Scale(c, f1) && Sub(a, b) == Scale(c, t)
  {}

  lemma SumAndDifference(x: Complex, y: Complex, f1: Complex, f2: Complex, c: real)
    requires f1 == Add(x, y) && f2 == Sub(x, y)
    ensures Add(Scale(c, f1), Scale(c, f2)) == Scale(c, Scale(2.0, x))
  {}

  // ----- what the two transforms compute -----

  function Pair(x: seq<real>, j: int): Complex
    requires 0 <= j && 2 * j + 1 < |x|
  {
    Complex(x[2 * j], x[2 * j + 1])
  }

  /** The samples seen as complex numbers: the cast kiss_fftr2 makes of its input. */
  function Pairs(x: seq<real>, n: nat): (z: seq<Complex>)
    requires 2 * n <= |x|
    ensures |z| == n
  {
    seq(n, j requires 0 <= j < n => Pair(x, j))
  }

  function HalfSpectrum(x: seq<real>, n: nat, tw: seq<Complex>): (Z: seq<Complex>)
    requires 2 * n <= |x| && |tw| == n > 0
    ensures |Z| == n
  {
    seq(n, k => Dft(Pairs(x, n), 0, 1, 1, tw, n, k))
  }

  function Joined(F: seq<real>, super: seq<Complex>, n: nat): (J: seq<Complex>)
    requires 0 < n && 2 * n <= |F| && |super| == n
    ensures |J| == n
  {
    seq(n, k requires 0 <= k < n =>
      if k == 0 then Complex(F[0] + F[2 * n - 1], F[0] - F[2 * n - 1]) else JoinBin(F, super, n, k))
  }

  /** F is c times the real spectrum of the samples x, in packed form. */
  ghost predicate RealSpectrum(st: RealState, x: seq<real>, F: seq<real>, c: real) {
    var n := st.sub.nfft;
    && 0 < n == |st.sub.twiddles| == |st.super| && 2 * n <= |x|
    && PackedSpectrum(HalfSpectrum(x, n, st.sub.twiddles), F, c, st.super, n)
  }

  /** y is what the inverse transform makes of the packed spectrum F. */
  ghost predicate RealSignal(st: RealState, F: seq<real>, y: seq<real>) {
    var n := st.sub.nfft;
    && 0 < n == |st.sub.twiddles| == |st.super| && 2 * n <= |F| && 2 * n <= |y|
    && forall t :: 0 <= t < n ==> Pair(y, t) == Dft(Joined(F, st.super, n), 0, 1, 1, st.sub.twiddles, n, t)
  }

  // ----- the inverse law -----

  ghost predicate Opposite(fwd: RealState, back: RealState) {
    && fwd.sub.nfft == back.sub.nfft
    && ConjugateTables(fwd.sub.twiddles, back.sub.twiddles)
    && ConjugateTables(fwd.super, back.super)
  }

  lemma JoinedSpectrum(fwd: RealState, back: RealState, big: seq<Complex>, x: seq<real>, F: seq<real>, c: real)
    requires ValidReal(fwd, big) && Opposite(fwd, back) && RealSpectrum(fwd, x, F, c)
    ensures var n := fwd.sub.nfft;
      ScaledSpectrum(Pairs(x, n), Joined(F, back.super, n), c * 2.0, fwd.sub.twiddles)
  {
    var n := fwd.sub.nfft;
    var Z, J := HalfSpectrum(x, n, fwd.sub.twiddles), Joined(F, back.super, n);
    forall k | 0 <= k < n
      ensures J[k] == Scale(c * 2.0, Dft(Pairs(x, n), 0, 1, 1, fwd.sub.twiddles, n, k))
    {
      hide *;
      HalfSpectrumAt(x, n, fwd.sub.twiddles, k);
      if k > 0 {
        JoinedAt(fwd, back, big, x, F, c, k);
      } else {
        JoinedAtZero(fwd, back, x, F, c);
      }
    }
    hide Mul, Scale, Dft, Joined;
  }

  lemma HalfSpectrumAt(x: seq<real>, n: nat, tw: seq<Complex>, k: int)
    requires 2 * n <= |x| && |tw| == n > 0 && 0 <= k < n
    ensures HalfSpectrum(x, n, tw)[k] == Dft(Pairs(x, n), 0, 1, 1, tw, n, k)
  {
    hide Dft;
  }

  lemma JoinedAt(fwd: RealState, back: RealState, big: seq<Complex>, x: seq<real>, F: seq<real>, c: real, k: int)
    requires ValidReal(fwd, big) && Opposite(fwd, back) && RealSpectrum(fwd, x, F, c)
    requires 0 < k < fwd.sub.nfft
    ensures Joined(F, back.super, fwd.sub.nfft)[k]
         == Scale(c * 2.0, HalfSpectrum(x, fwd.sub.nfft, fwd.sub.twiddles)[k])
  {
    hide Mul, RootTable, ValidReal, PackedSpectrum, Scale, HalfSpectrum, JoinBin;
    var Z := HalfSpectrum(x, fwd.sub.nfft, fwd.sub.twiddles);
    JoinSplit(Z, F, c, fwd, big, back.super, k);
    ScaleNested(c, Z[k]);
  }

  lemma JoinedAtZero(fwd: RealState, back: RealState, x: seq<real>, F: seq<real>, c: real)
    requires RealSpectrum(fwd, x, F, c) && |back.super| == fwd.sub.nfft
    ensures Joined(F, back.super, fwd.sub.nfft)[0]
         == Scale(c * 2.0, HalfSpectrum(x, fwd.sub.nfft, fwd.sub.twiddles)[0])
  {
    hide Scale, HalfSpectrum, JoinBin, Bin, SplitBin, Signals.Product;
    SumAndDifferenceOfDc(c, HalfSpectrum(x, fwd.sub.nfft, fwd.sub.twiddles)[0]);
  }

  lemma ScaleNested(c: real, a: Complex)
    ensures Scale(c, Scale(2.0, a)) == Scale(c * 2.0, a)
  {}

  lemma SumAndDifferenceOfDc(c: real, z: Complex)
    ensures Complex(Signals.Product(c, z.re + z.im) + Signals.Product(c, z.re - z.im),
        Signals.Product(c, z.re + z.im) - Signals.Product(c, z.re - z.im))
         == Scale(c * 2.0, z)
  {}

  /** kiss_fftri2 after kiss_fftr2 multiplies every sample by 2n (times the scale c of the spectrum). */
  lemma RealRoundTrip(fwd: RealState, back: RealState, big: seq<Complex>, x: seq<real>, F: seq<real>, y: seq<real>,
                      c: real, t: int)
    requires ValidReal(fwd, big) && Opposite(fwd, back)
    requires RealSpectrum(fwd, x, F, c) && RealSignal(back, F, y)
    requires 0 <= t < fwd.sub.nfft
    ensures Pair(y, t) == Scale(c * 2.0, Scale(fwd.sub.nfft as real, Pair(x, t)))
  {
    hide *;
    var n := fwd.sub.nfft;
    RoundTripFacts(fwd, back, big, x, F, y, c, t);
    JoinedSpectrum(fwd, back, big, x, F, c);
    InverseTransform(Pairs(x, n), Joined(F, back.super, n), c * 2.0, fwd.sub.twiddles, back.sub.twiddles,
        fwd.sub.inverse, t);
  }

  lemma RoundTripFacts(fwd: RealState, back: RealState, big: seq<Complex>, x: seq<real>, F: seq<real>, y: seq<real>,
                       c: real, t: int)
    requires ValidReal(fwd, big) && Opposite(fwd, back)
    requires RealSpectrum(fwd, x, F, c) && RealSignal(back, F, y)
    requires 0 <= t < fwd.sub.nfft
    ensures var n := fwd.sub.nfft;
      && 0 < n == |fwd.sub.twiddles| == |back.sub.twiddles| == |back.super| && 2 * n <= |x| && 2 * n <= |F|
      && 2 * n <= |y|
      && RootTable(fwd.sub.twiddles, fwd.sub.inverse)
      && ConjugateTables(fwd.sub.twiddles, back.sub.twiddles)
      && Pair(y, t) == Dft(Joined(F, back.super, n), 0, 1, 1, back.sub.twiddles, n, t)
      && At(Pairs(x, n), t) == Pair(x, t)
  {
    hide Mul, RootTable, Dft, Joined, PackedSpectrum;
  }

  /** spx_ifft after spx_fft is the identity: spx_fft scales the spectrum by one over the frame length. */
  lemma SpxInverse(fwd: RealState, back: RealState, big: seq<Complex>, x: seq<real>, F: seq<real>, y: seq<real>,
                   scale: real)
    requires ValidReal(fwd, big) && Opposite(fwd, back)
    requires scale == 1.0 / (2 * fwd.sub.nfft) as real
    requires RealSpectrum(fwd, x, F, scale) && RealSignal(back, F, y)
    requires |x| == |y| == 2 * fwd.sub.nfft
    ensures y == x
  {
    hide *;
    var n := fwd.sub.nfft;
    forall i | 0 <= i < 2 * n
      ensures y[i] == x[i]
    {
      RealRoundTrip(fwd, back, big, x, F, y, scale, i / 2);
      ScaleCancels(n, scale, Pair(x, i / 2));
      PairAt(x, i);
      PairAt(y, i);
    }
  }

  lemma PairAt(x: seq<real>, i: int)
    requires 0 <= i < |x| && |x| % 2 == 0
    ensures x[i] == if i % 2 == 0 then Pair(x, i / 2).re else Pair(x, i / 2).im
  {}

  lemma ScaleCancels(n: int, scale: real, v: Complex)
    requires n > 0 && scale == 1.0 / (2 * n) as real
    ensures Scale(scale * 2.0, Scale(n as real, v)) == v
  {
    UnitScale(n as real, scale, v.re);
    UnitScale(n as real, scale, v.im);
  }

  lemma UnitScale(r: real, scale: real, v: real)
    requires r > 0.0 && scale == 1.0 / (2.0 * r)
    ensures (scale * 2.0) * (r * v) == v
  {
    var d := 2.0 * r;
    assert scale * d == 1.0;
    Regroup(scale, r, v);
    TimesOne(scale * (2.0 * r), v);
  }

  lemma TimesOne(u: real, v: real)
    requires u == 1.0
    ensures u * v == v
  {}

  lemma Regroup(scale: real, r: real, v: real)
    ensures (scale * 2.0) * (r * v) == (scale * (2.0 * r)) * v
  {}

  // ----- the methods -----

  /** The pointer cast from samples to complex numbers. */
  method PackPairs(timedata: array<real>, n: int) returns (z: array<Complex>)
    requires 0 <= n && 2 * n <= timedata.Length
    ensures fresh(z) && z[..] == Pairs(timedata[..], n)
  {
    z := new Complex[n];
    var j := 0;
    while j < n
      invariant 0 <= j <= n
      invariant forall i :: 0 <= i < j ==> z[i] == Pair(timedata[..], i)
    {
      z[j] := Complex(timedata[2 * j], timedata[2 * j + 1]);
      j := j + 1;
    }
  }

  /** The first j bins and their mirror images are stored. */
  ghost predicate BinsStored(Z: seq<Complex>, F: seq<real>, super: seq<Complex>, n: int, j: int)
    requires 0 < n <= |Z| && |super| == n
  {
    && 2 * n <= |F| && n > 0
    && F[0] == Z[0].re + Z[0].im
    && F[2 * n - 1] == Z[0].re - Z[0].im
    && forall k :: 0 < k < n && (k < j || n - k < j) ==> Bin(F, n, k) == SplitBin(Z, super, n, k)
  }

  lemma StoreBin(Z: seq<Complex>, F: seq<real>, G: seq<real>, st: RealState, big: seq<Complex>, n: int, j: int,
                 f1: Complex, tw: Complex)
    requires ValidReal(st, big) && n == st.sub.nfft && n <= |Z|
    requires BinsStored(Z, F, st.super, n, j) && 1 <= j <= n / 2
    requires f1 == SumBin(Z, n, j) && tw == Mul(DifferenceBin(Z, n, j), st.super[j])
    requires G == F[2 * j - 1 := 0.5 * (f1.re + tw.re)][2 * j := 0.5 * (f1.im + tw.im)]
                   [2 * (n - j) - 1 := 0.5 * (f1.re - tw.re)][2 * (n - j) := 0.5 * (tw.im - f1.im)]
    ensures BinsStored(Z, G, st.super, n, j + 1)
  {
    SuperTwiddles(st, big, j);
    hide Mul, ValidReal, RootTable;
    SplitMirror(Z, st.super, n, j);
    hide SumBin, DifferenceBin;
    assert Bin(G, n, n - j) == SplitBin(Z, st.super, n, n - j);
    if n - j != j {
      assert Bin(G, n, j) == SplitBin(Z, st.super, n, j);
    }
    hide SplitBin;
    forall k | 0 < k < n && (k < j + 1 || n - k < j + 1)
      ensures Bin(G, n, k) == SplitBin(Z, st.super, n, k)
    {
      if k != j && k != n - j {
        assert Bin(G, n, k) == Bin(F, n, k);
      }
    }
  }

  lemma AllBins(Z: seq<Complex>, F: seq<real>, super: seq<Complex>, n: int)
    requires 0 < n <= |Z| && |super| == n
    requires BinsStored(Z, F, super, n, n / 2 + 1)
    ensures PackedSpectrum(Z, F, 1.0, super, n)
  {
    hide SplitBin, Bin;
    forall k | 0 < k < n
      ensures Bin(F, n, k) == Scale(1.0, SplitBin(Z, super, n, k))
    {
      assert k < n / 2 + 1 || n - k < n / 2 + 1;
    }
  }

  lemma NoBins(Z: seq<Complex>, F: seq<real>, super: seq<Complex>, n: int)
    requires 0 < n <= |Z| && |super| == n && 2 * n <= |F|
    requires F[0] == Z[0].re + Z[0].im && F[2 * n - 1] == Z[0].re - Z[0].im
    ensures BinsStored(Z, F, super, n, 1)
  {}

  lemma RealSizes(st: RealState, big: seq<Complex>)
    requires ValidReal(st, big)
    ensures 0 < st.sub.nfft == |st.super| == |st.sub.twiddles| && ValidState(st.sub)
  {
    hide RootTable, ValidState;
  }

  /** The complex transform of the pairs: both real half-signals at once. */
  method HalfTransform(st: RealState, ghost big: seq<Complex>, timedata: array<real>, tmpbuf: array<Complex>)
    returns (ok: bool)
    requires ValidReal(st, big)
    requires 2 * st.sub.nfft <= timedata.Length && st.sub.nfft <= tmpbuf.Length
    modifies tmpbuf
    ensures ok <==> RadicesFit(st.sub.nfft, st.sub.factors)
    ensures 0 < st.sub.nfft == |st.sub.twiddles|
    ensures ok ==> tmpbuf[..st.sub.nfft] == HalfSpectrum(timedata[..], st.sub.nfft, st.sub.twiddles)
  {
    hide *;
    RealSizes(st, big);
    var n := st.sub.nfft;
    var x := PackPairs(timedata, n);
    ok := KissFftStride(st.sub, x, tmpbuf, 1);
    if ok {
      forall k | 0 <= k < n
        ensures tmpbuf[k] == HalfSpectrum(timedata[..], n, st.sub.twiddles)[k]
      {
        HalfSpectrumAt(timedata[..], n, st.sub.twiddles, k);
      }
    }
  }

  /** Separates the two half-signals, two bins at a time. */
  method SplitBins(st: RealState, ghost big: seq<Complex>, tmpbuf: array<Complex>, freqdata: array<real>)
    requires ValidReal(st, big)
    requires 2 * st.sub.nfft <= freqdata.Length && st.sub.nfft <= tmpbuf.Length
    modifies freqdata
    ensures 0 < st.sub.nfft == |st.super|
    ensures PackedSpectrum(tmpbuf[..], freqdata[..], 1.0, st.super, st.sub.nfft)
    ensures forall i :: 2 * st.sub.nfft <= i < freqdata.Length ==> freqdata[i] == old(freqdata[i])
  {
    hide ValidReal, Mul, SplitBin, BinsStored, PackedSpectrum, RootTable;
    RealSizes(st, big);
    var n := st.sub.nfft;
    ghost var Z := tmpbuf[..];
    var tdc := tmpbuf[0];
    freqdata[0] := tdc.re + tdc.im;
    freqdata[2 * n - 1] := tdc.re - tdc.im;
    NoBins(Z, freqdata[..], st.super, n);
    var k := 1;
    while k <= n / 2
      invariant 1 <= k <= n / 2 + 1
      invariant BinsStored(Z, freqdata[..], st.super, n, k)
      invariant forall i :: 2 * n <= i < freqdata.Length ==> freqdata[i] == old(freqdata[i])
    {
      ghost var F := freqdata[..];
      var f2k := Complex(tmpbuf[k].re - tmpbuf[n - k].re, tmpbuf[k].im + tmpbuf[n - k].im);
      var f1 := Complex(tmpbuf[k].re + tmpbuf[n - k].re, tmpbuf[k].im - tmpbuf[n - k].im);
      var tw := Mul(f2k, st.super[k]);
      freqdata[2 * k - 1] := 0.5 * (f1.re + tw.re);
      freqdata[2 * k] := 0.5 * (f1.im + tw.im);
      freqdata[2 * (n - k) - 1] := 0.5 * (f1.re - tw.re);
      freqdata[2 * (n - k)] := 0.5 * (tw.im - f1.im);
      assert f1 == SumBin(Z, n, k) && f2k == DifferenceBin(Z, n, k);
      StoreBin(Z, F, freqdata[..], st, big, n, k, f1, tw);
      k := k + 1;
    }
    AllBins(Z, freqdata[..], st.super, n);
  }

  /** The packed spectrum of 2n real samples.  It fails, as the source aborts, on an inverse state or a
      radix without butterfly. */
  method KissFftr2(st: RealState, ghost big: seq<Complex>, timedata: array<real>, freqdata: array<real>,
                   tmpbuf: array<Complex>)
      returns (ok: bool)
    requires ValidReal(st, big)
    requires 2 * st.sub.nfft <= timedata.Length && 2 * st.sub.nfft <= freqdata.Length && st.sub.nfft <= tmpbuf.Length
    modifies freqdata, tmpbuf
    ensures ok <==> !st.sub.inverse && RadicesFit(st.sub.nfft, st.sub.factors)
    ensures ok ==> RealSpectrum(st, old(timedata[..]), freqdata[..], 1.0)
    ensures ok ==> forall i :: 2 * st.sub.nfft <= i < freqdata.Length ==> freqdata[i] == old(freqdata[i])
  {
    if st.sub.inverse {
      return false;
    }
    hide *;
    RealSizes(st, big);
    ok := HalfTransform(st, big, timedata, tmpbuf);
    if ok {
      SplitBins(st, big, tmpbuf, freqdata);
      SpectrumOfPrefix(st, old(timedata[..]), tmpbuf[..], freqdata[..]);
    }
  }

  lemma SpectrumOfPrefix(st: RealState, x: seq<real>, Z: seq<Complex>, F: seq<real>)
    requires 0 < st.sub.nfft == |st.super| == |st.sub.twiddles| && st.sub.nfft <= |Z| && 2 * st.sub.nfft <= |x|
    requires Z[..st.sub.nfft] == HalfSpectrum(x, st.sub.nfft, st.sub.twiddles)
    requires PackedSpectrum(Z, F, 1.0, st.super, st.sub.nfft)
    ensures RealSpectrum(st, x, F, 1.0)
  {
    hide Mul, HalfSpectrum, Scale, Signals.Product;
    var n := st.sub.nfft;
    var H := HalfSpectrum(x, n, st.sub.twiddles);
    forall k | 0 < k < n
      ensures Bin(F, n, k) == Scale(1.0, SplitBin(H, st.super, n, k))
    {
      assert Z[k] == H[k] && Z[n - k] == H[n - k];
    }
  }

  // ----- the inverse -----

  /** The first j entries of the half-length spectrum and their mirror images are rebuilt. */
  ghost predicate BinsJoined(F: seq<real>, T: seq<Complex>, super: seq<Complex>, n: int, j: int)
    requires 0 < n <= |T| && |super| == n && 2 * n <= |F|
  {
    && T[0] == Complex(F[0] + F[2 * n - 1], F[0] - F[2 * n - 1])
    && forall k :: 0 < k < n && (k < j || n - k < j) ==> T[k] == JoinBin(F, super, n, k)
  }

  lemma JoinMirror(F: seq<real>, super: seq<Complex>, n: int, k: int)
    requires 0 < k < n && |super| == n && 2 * n <= |F|
    requires super[n - k] == super[k].Conj()
    ensures var a, b := Bin(F, n, k), Bin(F, n, n - k).Conj();
      JoinBin(F, super, n, n - k) == Sub(Add(a, b), Mul(Sub(a, b), super[k])).Conj()
  {
    hide Mul, Bin;
    var a, b := Bin(F, n, k), Bin(F, n, n - k).Conj();
    var d := Sub(a, b);
    assert Sub(b.Conj(), a.Conj()) == Sub(ZERO, d.Conj());
    NegatedProduct(d.Conj(), super[k].Conj());
    ConjMul(d, super[k]);
  }

  lemma StoreJoined(F: seq<real>, T: seq<Complex>, U: seq<Complex>, st: RealState, big: seq<Complex>, n: int, j: int,
                    fek: Complex, fok: Complex)
    requires ValidReal(st, big) && n == st.sub.nfft && n <= |T| && 2 * n <= |F|
    requires BinsJoined(F, T, st.super, n, j) && 1 <= j <= n / 2
    requires var a, b := Bin(F, n, j), Bin(F, n, n - j).Conj();
      fek == Add(a, b) && fok == Mul(Sub(a, b), st.super[j])
    requires U == T[j := Add(fek, fok)][n - j := Sub(fek, fok).Conj()]
    ensures BinsJoined(F, U, st.super, n, j + 1)
  {
    SuperTwiddles(st, big, j);
    hide Mul, ValidReal, RootTable, Bin;
    JoinMirror(F, st.super, n, j);
  }

  method JoinBins(st: RealState, ghost big: seq<Complex>, freqdata: array<real>, tmpbuf: array<Complex>)
    requires ValidReal(st, big)
    requires 2 * st.sub.nfft <= freqdata.Length && st.sub.nfft <= tmpbuf.Length
    modifies tmpbuf
    ensures 0 < st.sub.nfft == |st.super|
    ensures tmpbuf[..st.sub.nfft] == Joined(freqdata[..], st.super, st.sub.nfft)
  {
    hide ValidReal, Mul, JoinBin, BinsJoined, RootTable, Joined;
    RealSizes(st, big);
    var n := st.sub.nfft;
    ghost var F := freqdata[..];
    tmpbuf[0] := Complex(freqdata[0] + freqdata[2 * n - 1], freqdata[0] - freqdata[2 * n - 1]);
    NoneJoined(F, tmpbuf[..], st.super, n);
    var k := 1;
    while k <= n / 2
      invariant 1 <= k <= n / 2 + 1
      invariant BinsJoined(F, tmpbuf[..], st.super, n, k)
    {
      ghost var T := tmpbuf[..];
      var fk := Complex(freqdata[2 * k - 1], freqdata[2 * k]);
      var fnkc := Complex(freqdata[2 * (n - k) - 1], -freqdata[2 * (n - k)]);
      var fek := Add(fk, fnkc);
      var tmp := Sub(fk, fnkc);
      var fok := Mul(tmp, st.super[k]);
      tmpbuf[k] := Add(fek, fok);
      tmpbuf[n - k] := Sub(fek, fok);
      tmpbuf[n - k] := Complex(tmpbuf[n - k].re, -tmpbuf[n - k].im);
      assert fk == Bin(F, n, k) && fnkc == Bin(F, n, n - k).Conj();
      assert tmpbuf[..] == T[k := Add(fek, fok)][n - k := Sub(fek, fok).Conj()];
      StoreJoined(F, T, tmpbuf[..], st, big, n, k, fek, fok);
      k := k + 1;
    }
    AllJoined(F, tmpbuf[..], st.super, n);
  }

  lemma NoneJoined(F: seq<real>, T: seq<Complex>, super: seq<Complex>, n: int)
    requires 0 < n <= |T| && |super| == n && 2 * n <= |F|
    requires T[0] == Complex(F[0] + F[2 * n - 1], F[0] - F[2 * n - 1])
    ensures BinsJoined(F, T, super, n, 1)
  {}

  lemma AllJoined(F: seq<real>, T: seq<Complex>, super: seq<Complex>, n: int)
    requires 0 < n <= |T| && |super| == n && 2 * n <= |F|
    requires BinsJoined(F, T, super, n, n / 2 + 1)
    ensures T[..n] == Joined(F, super, n)
  {
    hide JoinBin;
    forall k | 0 < k < n
      ensures T[k] == JoinBin(F, super, n, k)
    {
      assert k < n / 2 + 1 || n - k < n / 2 + 1;
    }
  }

  /** The bins joined, and the half-length transform of them. */
  method InverseHalf(st: RealState, ghost big: seq<Complex>, freqdata: array<real>, tmpbuf: array<Complex>)
    returns (ok: bool, out: array<Complex>)
    requires ValidReal(st, big) && 2 * st.sub.nfft <= freqdata.Length && st.sub.nfft <= tmpbuf.Length
    modifies tmpbuf
    ensures 0 < st.sub.nfft == |st.super| == |st.sub.twiddles| && fresh(out) && out.Length == st.sub.nfft
    ensures ok <==> RadicesFit(st.sub.nfft, st.sub.factors)
    ensures tmpbuf[..st.sub.nfft] == Joined(freqdata[..], st.super, st.sub.nfft)
    ensures ok ==> forall k :: 0 <= k < st.sub.nfft ==>
      out[k] == Dft(tmpbuf[..], 0, 1, 1, st.sub.twiddles, st.sub.nfft, k)
  {
    hide *;
    RealSizes(st, big);
    JoinBins(st, big, freqdata, tmpbuf);
    out := new Complex[st.sub.nfft];
    ok := KissFftStride(st.sub, tmpbuf, out, 1);
  }

  /** 2n samples from the packed spectrum; it fails on a forward state or a radix without butterfly. */
  method KissFftri2(st: RealState, ghost big: seq<Complex>, freqdata: array<real>, timedata: array<real>,
                    tmpbuf: array<Complex>)
      returns (ok: bool)
    requires ValidReal(st, big)
    requires 2 * st.sub.nfft <= timedata.Length && 2 * st.sub.nfft <= freqdata.Length && st.sub.nfft <= tmpbuf.Length
    modifies timedata, tmpbuf
    ensures ok <==> st.sub.inverse && RadicesFit(st.sub.nfft, st.sub.factors)
    ensures ok ==> RealSignal(st, old(freqdata[..]), timedata[..])
    ensures ok ==> forall i :: 2 * st.sub.nfft <= i < timedata.Length ==> timedata[i] == old(timedata[i])
  {
    if !st.sub.inverse {
      return false;
    }
    hide *;
    ghost var F := freqdata[..];
    var out;
    ok, out := InverseHalf(st, big, freqdata, tmpbuf);
    if ok {
      UnpackPairs(out, timedata, st.sub.nfft);
      SignalOfPrefix(st, F, tmpbuf[..], out[..], timedata[..]);
    }
  }

  /** The pointer cast on the output side. */
  method UnpackPairs(z: array<Complex>, timedata: array<real>, n: int)
    requires 0 <= n <= z.Length && 2 * n <= timedata.Length
    modifies timedata
    ensures forall i :: 0 <= i < n ==> Pair(timedata[..], i) == z[i]
    ensures forall i :: 2 * n <= i < timedata.Length ==> timedata[i] == old(timedata[i])
  {
    var j := 0;
    while j < n
      invariant 0 <= j <= n
      invariant forall i :: 0 <= i < j ==> Pair(timedata[..], i) == z[i]
      invariant forall i :: 2 * n <= i < timedata.Length ==> timedata[i] == old(timedata[i])
    {
      timedata[2 * j], timedata[2 * j + 1] := z[j].re, z[j].im;
      j := j + 1;
    }
  }

  lemma SignalOfPrefix(st: RealState, F: seq<real>, T: seq<Complex>, out: seq<Complex>, y: seq<real>)
    requires 0 < st.sub.nfft == |st.super| == |st.sub.twiddles| && st.sub.nfft <= |T| && st.sub.nfft <= |out|
    requires 2 * st.sub.nfft <= |F| && 2 * st.sub.nfft <= |y|
    requires T[..st.sub.nfft] == Joined(F, st.super, st.sub.nfft)
    requires forall k :: 0 <= k < st.sub.nfft ==> out[k] == Dft(T, 0, 1, 1, st.sub.twiddles, st.sub.nfft, k)
    requires forall k :: 0 <= k < st.sub.nfft ==> Pair(y, k) == out[k]
    ensures RealSignal(st, F, y)
  {
    var n := st.sub.nfft;
    var J := Joined(F, st.super, n);
    hide Mul, Joined, Root, Sum;
    forall t | 0 <= t < n
      ensures Pair(y, t) == Dft(J, 0, 1, 1, st.sub.twiddles, n, t)
    {
      var f, g := DftTerm(T, 0, 1, 1, st.sub.twiddles, t), DftTerm(J, 0, 1, 1, st.sub.twiddles, t);
      forall j | 0 <= j < n
        ensures f(j) == g(j)
      {
        FlatTerm(T, st.sub.twiddles, t, j);
        FlatTerm(J, st.sub.twiddles, t, j);
        assert T[..n][j] == J[j];
      }
      SumCongruent(f, g, n);
    }
  }

  /** spx_fft: the packed spectrum divided by the frame length N = 2n. */
  method SpxFft(st: RealState, ghost big: seq<Complex>, input: array<real>, out: array<real>, tmpbuf: array<Complex>)
      returns (ok: bool)
    requires ValidReal(st, big) && input.Length == out.Length == 2 * st.sub.nfft && st.sub.nfft <= tmpbuf.Length
    modifies out, tmpbuf
    ensures ok <==> !st.sub.inverse && RadicesFit(st.sub.nfft, st.sub.factors)
    ensures st.sub.nfft > 0
    ensures ok ==> RealSpectrum(st, old(input[..]), out[..], 1.0 / (2 * st.sub.nfft) as real)
  {
    hide *;
    RealSizes(st, big);
    var n := 2 * st.sub.nfft;
    var scale := 1.0 / n as real;
    ok := KissFftr2(st, big, input, out, tmpbuf);
    if !ok {
      return;
    }
    ghost var F := out[..];
    var i := 0;
    while i < n
      invariant 0 <= i <= n
      invariant forall j :: 0 <= j < i ==> out[j] == Signals.Product(scale, F[j])
      invariant forall j :: i <= j < n ==> out[j] == F[j]
    {
      TimesIs(out[i], scale);
      out[i] := out[i] * scale;
      i := i + 1;
    }
    ScaledPacked(st, old(input[..]), F, out[..], scale);
  }

  lemma TimesIs(a: real, b: real)
    ensures a * b == Signals.Product(b, a)
  {}

  lemma ScaledPacked(st: RealState, x: seq<real>, F: seq<real>, G: seq<real>, scale: real)
    requires RealSpectrum(st, x, F, 1.0) && |G| == |F| == 2 * st.sub.nfft
    requires forall j :: 0 <= j < |F| ==> G[j] == Signals.Product(scale, F[j])
    ensures RealSpectrum(st, x, G, scale)
  {
    hide Mul, HalfSpectrum, SplitBin, RootTable;
    var n := st.sub.nfft;
    var Z := HalfSpectrum(x, n, st.sub.twiddles);
    UnitTimes(Z[0].re + Z[0].im);
    UnitTimes(Z[0].re - Z[0].im);
    forall k | 0 < k < n
      ensures Bin(G, n, k) == Scale(scale, SplitBin(Z, st.super, n, k))
    {
      UnitScaled(SplitBin(Z, st.super, n, k));
    }
  }

  lemma UnitTimes(a: real)
    ensures Signals.Product(1.0, a) == a
  {}

  lemma UnitScaled(a: Complex)
    ensures Scale(1.0, a) == a
  {}
}
