/** The packed spectrum of kiss_fftr2 is the plain transform of the 2n real samples, with the table of the
    2n-th roots, at every frequency from zero to the half-way bin. */
module RealSpectrumMeaning {
  import opened ComplexNumbers
  import opened ComplexSums
  import opened Remainders
  import opened RootsOfUnity
  import opened FftSpec
  import opened KissFft
  import opened DftInversion
  import opened PrimeFactors
  import opened RealFft
  import opened Wrappers
  import Signals

  const I := Complex(0.0, 1.0)

  function Reals(x: seq<real>, length: nat): (z: seq<Complex>)
    requires length <= |x|
    ensures |z| == length
  {
    seq(length, j requires 0 <= j < length => Complex(x[j], 0.0))
  }

  /** The plain transform of the real samples. */
  function RealDft(x: seq<real>, big: seq<Complex>, k: int): Complex
    requires 0 < |big| <= |x|
  {
    Sum(RealTerm(x, big, k), |big|)
  }

  function RealTerm(x: seq<real>, big: seq<Complex>, k: int): int -> Complex
    requires 0 < |big| <= |x|
  {
    j => Mul(At(Reals(x, |big|), j), Root(big, j * k))
  }

  /** The terms of the transform of the even (q = 0) or odd (q = 1) samples. */
  function HalfTerm(x: seq<real>, tw: seq<Complex>, k: int, q: int): int -> Complex
    requires 0 < |tw| && 2 * |tw| <= |x|
  {
    j => Mul(At(Reals(x, 2 * |tw|), q + j * 2), Root(tw, j * k))
  }

  function Half(x: seq<real>, tw: seq<Complex>, k: int, q: int): Complex
    requires 0 < |tw| && 2 * |tw| <= |x|
  {
    Sum(HalfTerm(x, tw, k, q), |tw|)
  }

  lemma Tables(st: RealState, big: seq<Complex>)
    requires ValidReal(st, big)
    ensures 0 < st.sub.nfft == |st.sub.twiddles| == |st.super| && |big| == 2 * st.sub.nfft
    ensures RootTable(big, st.sub.inverse) && RootTable(st.sub.twiddles, st.sub.inverse)
  {
    hide RootTable;
  }

  lemma EveryOtherRoot(st: RealState, big: seq<Complex>, e: int)
    requires ValidReal(st, big) && |st.sub.twiddles| > 0 && |big| > 0
    ensures Root(big, 2 * e) == Root(st.sub.twiddles, e)
  {
    hide RootTable, ValidState, Mul;
    var n := st.sub.nfft;
    assert 0 <= e % n < n;
    QuotientUnique(2 * e, e / n, 2 * (e % n), 2 * n);
  }

  /** Even samples plus odd samples turned by one root of the large table. */
  lemma EvenPlusOdd(st: RealState, big: seq<Complex>, x: seq<real>, k: int)
    requires ValidReal(st, big) && 0 < |st.sub.twiddles| && |big| == 2 * |st.sub.twiddles| <= |x|
    ensures RealDft(x, big, k)
         == Add(Half(x, st.sub.twiddles, k, 0), Mul(Root(big, k), Half(x, st.sub.twiddles, k, 1)))
  {
    hide Mul, Add, Root, RootTable, ValidReal, Sum, Reals, RealTerm, HalfTerm, Strand;
    var tw, n := st.sub.twiddles, |st.sub.twiddles|;
    var f := RealTerm(x, big, k);
    SumByStrands(f, 2, n);
    SumOfTwo(Strands(f, 2, n));
    forall j | 0 <= j < n
      ensures Strand(f, 0, 2)(j) == HalfTerm(x, tw, k, 0)(j)
      ensures Strand(f, 1, 2)(j) == Mul(Root(big, k), HalfTerm(x, tw, k, 1)(j))
    {
      StrandTerms(st, big, x, k, j);
    }
    SumCongruent(Strand(f, 0, 2), HalfTerm(x, tw, k, 0), n);
    SumOfProducts(Root(big, k), HalfTerm(x, tw, k, 1), Strand(f, 1, 2), n);
  }

  lemma StrandTerms(st: RealState, big: seq<Complex>, x: seq<real>, k: int, j: int)
    requires ValidReal(st, big) && 0 < |st.sub.twiddles| && |big| == 2 * |st.sub.twiddles| <= |x|
    ensures Strand(RealTerm(x, big, k), 0, 2)(j) == HalfTerm(x, st.sub.twiddles, k, 0)(j)
    ensures Strand(RealTerm(x, big, k), 1, 2)(j) == Mul(Root(big, k), HalfTerm(x, st.sub.twiddles, k, 1)(j))
  {
    hide *;
    Tables(st, big);
    var tw, e := st.sub.twiddles, j * k;
    var w := Root(tw, e);
    EveryOtherRoot(st, big, e);
    StrandIndexes(RealTerm(x, big, k), j);
    RealTermAt(x, big, k, 0 + j * 2, 2 * e);
    RealTermAt(x, big, k, 1 + j * 2, 2 * e + k);
    HalfTermAt(x, tw, k, 0, j, e);
    HalfTermAt(x, tw, k, 1, j, e);
    RootSum(big, st.sub.inverse, 2 * e, k);
    var s := At(Reals(x, |big|), 1 + j * 2);
    MulAssociates(s, w, Root(big, k));
    MulCommutes(Mul(s, w), Root(big, k));
  }

  lemma StrandIndexes(f: int -> Complex, j: int)
    ensures Strand(f, 0, 2)(j) == f(0 + j * 2) && Strand(f, 1, 2)(j) == f(1 + j * 2)
  {}

  lemma RealTermAt(x: seq<real>, big: seq<Complex>, k: int, i: int, e: int)
    requires 0 < |big| <= |x| && e == i * k
    ensures RealTerm(x, big, k)(i) == Mul(At(Reals(x, |big|), i), Root(big, e))
  {
    hide Mul, Root, At, Reals;
  }

  lemma HalfTermAt(x: seq<real>, tw: seq<Complex>, k: int, q: int, j: int, e: int)
    requires 0 < |tw| && 2 * |tw| <= |x| && e == j * k
    ensures HalfTerm(x, tw, k, q)(j) == Mul(At(Reals(x, 2 * |tw|), q + j * 2), Root(tw, e))
  {
    hide Mul, Root, At, Reals;
  }

  lemma PairTerm(a: real, b: real, w: Complex)
    ensures Mul(Complex(a, b), w) == Add(Mul(Complex(a, 0.0), w), Mul(I, Mul(Complex(b, 0.0), w)))
    ensures Mul(Complex(a, -b), w) == Add(Mul(Complex(a, 0.0), w), Mul(I.Conj(), Mul(Complex(b, 0.0), w)))
  {}

  lemma PairsTerm(x: seq<real>, tw: seq<Complex>, k: int, j: int)
    requires 0 < |tw| && 2 * |tw| <= |x| && 0 <= j < |tw|
    ensures DftTerm(Pairs(x, |tw|), 0, 1, 1, tw, k)(j)
         == Add(HalfTerm(x, tw, k, 0)(j), Mul(I, HalfTerm(x, tw, k, 1)(j)))
  {
    hide Mul, Add, Root, DftTerm, HalfTerm;
    FlatTerm(Pairs(x, |tw|), tw, k, j);
    HalfTermAt(x, tw, k, 0, j, j * k);
    HalfTermAt(x, tw, k, 1, j, j * k);
    PairTerm(x[2 * j], x[2 * j + 1], Root(tw, j * k));
  }

  lemma MirrorTerm(x: seq<real>, tw: seq<Complex>, inverse: bool, k: int, j: int)
    requires RootTable(tw, inverse) && 0 < |tw| && 2 * |tw| <= |x| && 0 <= j < |tw|
    ensures DftTerm(Pairs(x, |tw|), 0, 1, 1, tw, |tw| - k)(j).Conj()
         == Add(HalfTerm(x, tw, k, 0)(j), Mul(I.Conj(), HalfTerm(x, tw, k, 1)(j)))
  {
    hide Mul, Add, Root, DftTerm, HalfTerm, RootTable;
    var n := |tw|;
    FlatTerm(Pairs(x, n), tw, n - k, j);
    MirrorExponent(tw, inverse, n, k, j);
    ConjMul(Pair(x, j), Root(tw, j * (n - k)));
    HalfTermAt(x, tw, k, 0, j, j * k);
    HalfTermAt(x, tw, k, 1, j, j * k);
    PairTerm(x[2 * j], x[2 * j + 1], Root(tw, j * k));
  }

  /** The transform of the pairs holds the two half-signals as real and imaginary strands. */
  lemma PairsSplit(x: seq<real>, tw: seq<Complex>, k: int)
    requires 0 < |tw| && 2 * |tw| <= |x| && 0 <= k < |tw|
    ensures HalfSpectrum(x, |tw|, tw)[k] == Add(Half(x, tw, k, 0), Mul(I, Half(x, tw, k, 1)))
  {
    hide Mul, Add, Sum, Dft, DftTerm, HalfSpectrum, HalfTerm;
    var n := |tw|;
    HalfSpectrumAt(x, n, tw, k);
    DftSum(Pairs(x, n), tw, n, k);
    var even, odd := HalfTerm(x, tw, k, 0), HalfTerm(x, tw, k, 1);
    var turned := j => Mul(I, odd(j));
    forall j | 0 <= j < n
      ensures DftTerm(Pairs(x, n), 0, 1, 1, tw, k)(j) == Add(even(j), turned(j))
    {
      PairsTerm(x, tw, k, j);
    }
    SumOfSums(even, turned, DftTerm(Pairs(x, n), 0, 1, 1, tw, k), n);
    SumOfProducts(I, odd, turned, n);
  }

  lemma MirrorSplit(x: seq<real>, tw: seq<Complex>, inverse: bool, k: int)
    requires RootTable(tw, inverse) && 0 < |tw| && 2 * |tw| <= |x| && 0 < k < |tw|
    ensures HalfSpectrum(x, |tw|, tw)[|tw| - k].Conj() == Add(Half(x, tw, k, 0), Mul(I.Conj(), Half(x, tw, k, 1)))
  {
    hide Mul, Add, Sum, Dft, DftTerm, HalfSpectrum, RootTable, HalfTerm;
    var n := |tw|;
    HalfSpectrumAt(x, n, tw, n - k);
    DftSum(Pairs(x, n), tw, n, n - k);
    var f := DftTerm(Pairs(x, n), 0, 1, 1, tw, n - k);
    var even, odd := HalfTerm(x, tw, k, 0), HalfTerm(x, tw, k, 1);
    var turned := j => Mul(I.Conj(), odd(j));
    var g := j => Add(even(j), turned(j));
    forall j | 0 <= j < n
      ensures g(j) == f(j).Conj()
    {
      MirrorTerm(x, tw, inverse, k, j);
    }
    SumConj(f, g, n);
    SumOfSums(even, turned, g, n);
    SumOfProducts(I.Conj(), odd, turned, n);
  }

  lemma MirrorExponent(tw: seq<Complex>, inverse: bool, n: int, k: int, j: int)
    requires RootTable(tw, inverse) && n == |tw| > 0
    ensures Root(tw, j * (n - k)).Conj() == Root(tw, j * k)
  {
    hide RootTable, Root, Mul;
    RootConj(tw, inverse, j * (n - k));
    RootPeriodic(tw, j * k, -j);
    assert -(j * (n - k)) == j * k + (-j) * n;
  }

  /** Every stored bin is the plain transform at its frequency. */
  lemma BinIsRealDft(st: RealState, big: seq<Complex>, x: seq<real>, k: int)
    requires ValidReal(st, big) && |big| <= |x|
    requires 0 < k < st.sub.nfft
    ensures 0 < st.sub.nfft == |st.sub.twiddles| == |st.super| && |big| == 2 * st.sub.nfft
    ensures !st.sub.inverse ==>
      SplitBin(HalfSpectrum(x, st.sub.nfft, st.sub.twiddles), st.super, st.sub.nfft, k) == RealDft(x, big, k)
  {
    Tables(st, big);
    hide Mul, Add, Root, RootTable, HalfSpectrum, Half, Scale, RealDft;
    var tw := st.sub.twiddles;
    PairsSplit(x, tw, k);
    MirrorSplit(x, tw, st.sub.inverse, k);
    EvenPlusOdd(st, big, x, k);
    BigRoot(big, st.sub.inverse, k);
    Recombine(Half(x, tw, k, 0), Half(x, tw, k, 1), big[k]);
  }

  lemma Recombine(e: Complex, o: Complex, w: Complex)
    ensures var a, b := Add(e, Mul(I, o)), Add(e, Mul(I.Conj(), o));
      Scale(0.5, Add(Add(a, b), Mul(Sub(a, b), Mul(Quarter(false), w)))) == Add(e, Mul(w, o))
  {
    var a, b := Add(e, Mul(I, o)), Add(e, Mul(I.Conj(), o));
    assert Add(a, b) == Add(e, e);
    assert Sub(a, b) == Mul(Complex(0.0, 2.0), o);
    hide Mul;
    var q := Quarter(false);
    calc {
      Mul(Mul(Complex(0.0, 2.0), o), Mul(q, w));
      {
        MulAssociates(Complex(0.0, 2.0), o, Mul(q, w));
        MulAssociates(o, q, w);
        MulCommutes(o, q);
        MulAssociates(q, o, w);
      }
      Mul(Complex(0.0, 2.0), Mul(q, Mul(o, w)));
      { MulAssociates(Complex(0.0, 2.0), q, Mul(o, w)); TwoTurns(); MulCommutes(o, w); }
      Mul(Complex(2.0, 0.0), Mul(w, o));
    }
    DoubleOf(Mul(w, o));
  }

  lemma TwoTurns()
    ensures Mul(Complex(0.0, 2.0), Quarter(false)) == Complex(2.0, 0.0)
  {}

  lemma DoubleOf(a: Complex)
    ensures Mul(Complex(2.0, 0.0), a) == Add(a, a)
  {}

  /** At a multiple of n the half-signals are plain sums of real samples. */
  lemma HalfAtMultiple(x: seq<real>, tw: seq<Complex>, inverse: bool, c: int, q: int)
    requires RootTable(tw, inverse) && 0 < |tw| && 2 * |tw| <= |x| && 0 <= q < 2
    ensures Half(x, tw, c * |tw|, q) == Half(x, tw, 0, q)
    ensures Half(x, tw, 0, q).im == 0.0
  {
    hide Mul, Add, Sum, RootTable, HalfTerm;
    var f, g := HalfTerm(x, tw, c * |tw|, q), HalfTerm(x, tw, 0, q);
    forall j | 0 <= j < |tw|
      ensures f(j) == g(j) == Complex(x[q + j * 2], 0.0)
    {
      WholeTurns(x, tw, inverse, c, q, j);
    }
    SumCongruent(f, g, |tw|);
    RealSum(g, |tw|);
  }

  lemma WholeTurns(x: seq<real>, tw: seq<Complex>, inverse: bool, c: int, q: int, j: int)
    requires RootTable(tw, inverse) && 0 < |tw| && 2 * |tw| <= |x| && 0 <= q < 2 && 0 <= j < |tw|
    ensures HalfTerm(x, tw, c * |tw|, q)(j) == HalfTerm(x, tw, 0, q)(j) == Complex(x[q + j * 2], 0.0)
  {
    hide Mul, RootTable, Root, HalfTerm;
    assert j * (c * |tw|) == (j * c) * |tw| && j * 0 == 0 * |tw|;
    HalfTermAt(x, tw, c * |tw|, q, j, (j * c) * |tw|);
    HalfTermAt(x, tw, 0, q, j, 0 * |tw|);
    RootAtMultiple(tw, inverse, j * c);
    RootAtMultiple(tw, inverse, 0);
    MulByOne(Complex(x[q + j * 2], 0.0));
  }

  lemma {:induction false} RealSum(f: int -> Complex, n: nat)
    requires forall i :: 0 <= i < n ==> f(i).im == 0.0
    ensures Sum(f, n).im == 0.0
  {
    if n > 0 {
      RealSum(f, n - 1);
    }
  }

  /** The two packed end values are the plain transform at frequency zero and at the half-way bin. */
  lemma EndsAreRealDft(st: RealState, big: seq<Complex>, x: seq<real>)
    requires ValidReal(st, big) && |big| <= |x|
    ensures 0 < st.sub.nfft == |st.sub.twiddles| && |big| == 2 * st.sub.nfft
    ensures var z := HalfSpectrum(x, st.sub.nfft, st.sub.twiddles)[0];
      && RealDft(x, big, 0) == Complex(z.re + z.im, 0.0)
      && RealDft(x, big, st.sub.nfft) == Complex(z.re - z.im, 0.0)
  {
    hide *;
    Tables(st, big);
    var n, tw := st.sub.nfft, st.sub.twiddles;
    assert 1 * |tw| == n;
    PairsSplit(x, tw, 0);
    EvenPlusOdd(st, big, x, 0);
    EvenPlusOdd(st, big, x, n);
    HalfAtMultiple(x, tw, st.sub.inverse, 1, 0);
    HalfAtMultiple(x, tw, st.sub.inverse, 1, 1);
    RootAtMultiple(big, st.sub.inverse, 0);
    HalfRoot(big, st.sub.inverse, n);
    RealParts(Half(x, tw, 0, 0), Half(x, tw, 0, 1));
  }

  lemma RealParts(e: Complex, o: Complex)
    requires e.im == 0.0 && o.im == 0.0
    ensures Add(e, Mul(I, o)) == Complex(e.re, o.re)
    ensures Add(e, Mul(ONE, o)) == Complex(e.re + o.re, 0.0)
    ensures Add(e, Mul(MINUS_ONE, o)) == Complex(e.re - o.re, 0.0)
  {}

  /** What kiss_fftr2 leaves in its output is the plain transform of the real samples, bin by bin, times the scale. */
  lemma SpectrumIsRealDft(st: RealState, big: seq<Complex>, x: seq<real>, F: seq<real>, c: real, k: int)
    requires ValidReal(st, big) && |big| <= |x| && !st.sub.inverse && RealSpectrum(st, x, F, c)
    requires 0 <= k <= st.sub.nfft
    ensures |big| == 2 * st.sub.nfft > 0 && 2 * st.sub.nfft <= |F|
    ensures 0 < k < st.sub.nfft ==> Bin(F, st.sub.nfft, k) == Scale(c, RealDft(x, big, k))
    ensures k == 0 ==>
      RealDft(x, big, k) == Complex(RealDft(x, big, k).re, 0.0) && F[0] == Signals.Product(c, RealDft(x, big, k).re)
    ensures k == st.sub.nfft ==>
      && RealDft(x, big, k) == Complex(RealDft(x, big, k).re, 0.0)
      && F[2 * k - 1] == Signals.Product(c, RealDft(x, big, k).re)
  {
    hide Mul, Root, RootTable, HalfSpectrum, RealDft, Scale, SplitBin, Signals.Product;
    EndsAreRealDft(st, big, x);
    if 0 < k < st.sub.nfft {
      BinIsRealDft(st, big, x, k);
    }
  }

  /** A state for the given direction whose radices all have butterflies. */
  ghost predicate Usable(st: RealState, inverse: bool)
    requires ValidState(st.sub)
  {
    st.sub.inverse == inverse && RadicesFit(st.sub.nfft, st.sub.factors)
  }

  /** spx_fft, then spx_ifft: the samples come back. */
  method SpxRoundTrip(fwd: RealState, back: RealState, ghost big: seq<Complex>, ghost bigBack: seq<Complex>,
                      input: array<real>, spectrum: array<real>, output: array<real>, tmpbuf: array<Complex>)
    returns (ok: bool)
    requires ValidReal(fwd, big) && ValidReal(back, bigBack) && Opposite(fwd, back)
    requires input.Length == spectrum.Length == output.Length == 2 * fwd.sub.nfft && fwd.sub.nfft <= tmpbuf.Length
    requires input != spectrum && input != output
    modifies spectrum, output, tmpbuf
    ensures ok <==> Usable(fwd, false) && Usable(back, true)
    ensures ok ==> output[..] == input[..]
  {
    hide ValidReal, RealSpectrum, RealSignal, RadicesFit, ConjugateTables;
    ok := SpxFft(fwd, big, input, spectrum, tmpbuf);
    if ok {
      ghost var F := spectrum[..];
      ok := KissFftri2(back, bigBack, spectrum, output, tmpbuf);
      if ok {
        SpxInverse(fwd, back, big, input[..], F, output[..], 1.0 / (2 * fwd.sub.nfft) as real);
      }
    }
  }

  /** The two states of one length mirror each other. */
  lemma StatesOpposite(fwd: RealState, back: RealState, big: seq<Complex>, bigBack: seq<Complex>)
    requires ValidReal(fwd, big) && ValidReal(back, bigBack) && fwd.sub.nfft == back.sub.nfft
    requires ConjugateTables(big, bigBack) && !fwd.sub.inverse && back.sub.inverse
    ensures Opposite(fwd, back)
  {
    assert Quarter(true) == Quarter(false).Conj();
    hide Mul, RootTable, ValidState, Quarter;
    forall k | 0 <= k < fwd.sub.nfft
      ensures back.super[k] == fwd.super[k].Conj()
    {
      ConjMul(Quarter(false), big[k]);
    }
  }

  /** From the size alone: spx_fft_init, spx_fft and spx_ifft give the samples back exactly for the even sizes whose
      half has no prime factor over 17. */
  method SpxRoundTripOfSize(size: int, big: seq<Complex>, bigBack: seq<Complex>, input: array<real>,
                            spectrum: array<real>, output: array<real>)
    returns (ok: bool)
    requires 1 <= size < 0x8000_0000 && |big| == |bigBack| == size
    requires RootTable(big, false) && RootTable(bigBack, true) && ConjugateTables(big, bigBack)
    requires input.Length == spectrum.Length == output.Length == size && input != spectrum && input != output
    modifies spectrum, output
    ensures ok <==> size % 2 == 0 && NoPrimeOver(size / 2, MAX_RADIX)
    ensures ok ==> output[..] == input[..]
  {
    hide ValidReal, RootTable, RadicesFit, NoPrimeOver, Opposite;
    var forward := KissFftrAlloc(size, false, big);
    var backward := KissFftrAlloc(size, true, bigBack);
    if forward.None? || backward.None? {
      return false;
    }
    StatesOpposite(forward.value, backward.value, big, bigBack);
    var tmpbuf := new Complex[size / 2](_ => ZERO);
    ok := SpxRoundTrip(forward.value, backward.value, big, bigBack, input, spectrum, output, tmpbuf);
  }
}
