/** The in-place transform of kiss_fft.c (float build): kf_factor, kf_shuffle, the butterflies, kf_work
    and kiss_fft_stride, each against the meaning given in FftSpec. */
module KissFft {
  import opened ComplexNumbers
  import opened ComplexSums
  import opened Remainders
  import opened RootsOfUnity
  import opened FftSpec
  import opened PrimeFactors
  import opened Butterflies
  import opened Columns
  import opened FftPasses

  const MAX_FACTORS := 32
  const MAX_RADIX := 17

  datatype FftState = FftState(nfft: int, inverse: bool, factors: seq<int>, twiddles: seq<Complex>)

  ghost predicate ValidState(st: FftState) {
    RootTable(st.twiddles, st.inverse) && |st.twiddles| == st.nfft && Chain(st.nfft, st.factors)
  }

  // ----- kf_factor -----

  /** No length below 2^31 can still be at least 1 after 31 halvings. */
  function Cap(c: nat): nat {
    if c == 0 then 0x7fff_ffff else Cap(c - 1) / 2
  }

  lemma {:induction false} CapEnds(c: nat)
    ensures c >= 31 ==> Cap(c) == 0
  {
    if c > 31 {
      CapEnds(c - 1);
    } else {
      assert Cap(8) == 0x7f_ffff;
      assert Cap(16) == 0x7fff;
      assert Cap(24) == 0x7f;
    }
  }

  /** The first c pairs of a factor list for n, none of which ends the list too early. */
  ghost predicate ChainPrefix(n: int, f: seq<int>, c: nat) {
    && 2 * c <= |f|
    && forall i :: 0 <= i < c ==> ChainLink(n, f, i) && (i < c - 1 ==> f[2 * i + 1] != 1)
  }

  ghost predicate ChainLink(n: int, f: seq<int>, i: nat)
    requires 2 * i + 1 < |f|
  {
    f[2 * i] > 0 && f[2 * i + 1] > 0 && f[2 * i] * f[2 * i + 1] == Remaining(n, f, i)
  }

  function Remaining(n: int, f: seq<int>, c: nat): int
    requires 2 * c <= |f|
  {
    if c == 0 then n else f[2 * c - 1]
  }

  lemma ExtendPrefix(n: int, f: seq<int>, c: nat, p: int, m: int)
    requires ChainPrefix(n, f, c) && 2 * c + 1 < |f|
    requires p > 0 && m > 0 && p * m == Remaining(n, f, c)
    requires c > 0 ==> Remaining(n, f, c) != 1
    ensures ChainPrefix(n, f[2 * c := p][2 * c + 1 := m], c + 1)
  {
    var g := f[2 * c := p][2 * c + 1 := m];
    forall i | 0 <= i < c + 1
      ensures ChainLink(n, g, i) && (i < c ==> g[2 * i + 1] != 1)
    {
      assert i < c ==> ChainLink(n, f, i);
    }
  }

  lemma {:induction false} PrefixIsChain(n: int, f: seq<int>, c: nat, i: nat)
    requires i < c && ChainPrefix(n, f, c) && f[2 * c - 1] == 1
    ensures Chain(Remaining(n, f, i), f[2 * i..])
    decreases c - i
  {
    assert ChainLink(n, f, i);
    if i < c - 1 {
      PrefixIsChain(n, f, c, i + 1);
      assert f[2 * i..][2..] == f[2 * (i + 1)..];
    }
  }

  /** What is known of n once the trials have come to p. */
  ghost predicate Tried(n: int, p: int) {
    if p == 4 then true else if p == 2 then n % 4 != 0 else p >= 3 && p % 2 == 1 && NoneBelow(n, p)
  }

  /** No divisor has a butterfly. */
  ghost predicate Rough(n: int) { n > MAX_RADIX && NoneBelow(n, MAX_RADIX + 1) }

  ghost predicate GaveUp(n: int, p: int) { p == n && (n <= MAX_RADIX || Rough(n)) }

  /** One trial on: four, then two, then odd numbers, and n itself once there is nothing left to find. */
  function NextTrial(n: int, p: int): (q: int) {
    var t := if p == 4 then 2 else if p == 2 then 3 else p + 2;
    if t > 32000 || t * t > n then n else t
  }

  lemma TrialFails(n: int, p: int)
    requires n >= 1 && p >= 2 && Tried(n, p) && n % p != 0
    ensures Tried(n, NextTrial(n, p)) || GaveUp(n, NextTrial(n, p))
    ensures Tried(n, NextTrial(n, p)) ==> NextTrial(n, p) >= 2
  {
    var t := if p == 4 then 2 else if p == 2 then 3 else p + 2;
    if p >= 3 && p % 2 == 1 {
      assert !Divides(p, n);
      NextOdd(n, p);
    }
    assert Tried(n, t);
    if t * t > n && t >= 3 {
      BeyondSquareRoot(n, t);
    }
  }

  lemma RadixFound(n: int, p: int)
    requires n >= 1 && p >= 1 && n % p == 0 && ((p >= 2 && Tried(n, p)) || GaveUp(n, p))
    ensures p > MAX_RADIX ==> Rough(n)
    ensures p < n ==> p >= 2 && Tried(n / p, p)
  {
    ExactDivision(n, p);
    if p < n && p == 2 {
      assert n / 2 % 4 != 0;
    } else if p < n && p != 4 {
      QuotientNoneBelow(n, n / p, p, p);
    }
  }

  /** The next divisor of n to split off: four, then two, then odd numbers, then n itself. */
  method NextRadix(n: int, p0: int) returns (p: int)
    requires n >= 1 && p0 >= 2 && Tried(n, p0)
    ensures p >= 1 && n % p == 0
    ensures n >= 2 ==> p >= 2
    ensures p > MAX_RADIX ==> Rough(n)
    ensures p < n ==> Tried(n / p, p)
  {
    hide Tried, Rough, GaveUp, TrialsLeft, NextTrial;
    p := p0;
    while n % p != 0
      invariant 1 <= p && (n >= 2 ==> p >= 2)
      invariant (p >= 2 && Tried(n, p)) || GaveUp(n, p)
      decreases TrialsLeft(n, p)
    {
      TrialsEnd(n, p);
      TrialFails(n, p);
      p := NextTrial(n, p);
    }
    RadixFound(n, p);
  }

  ghost function TrialsLeft(n: int, p: int): nat
    requires n >= 1 && p >= 1
  {
    if n % p == 0 then 0 else if p == 4 then n + 12 else if p == 2 then n + 11 else if p <= n then n + 10 - p else 1
  }

  lemma TrialsEnd(n: int, p: int)
    requires n >= 1 && p >= 1 && n % p != 0
    ensures var q := NextTrial(n, p); q >= 1 && (n >= 2 ==> q >= 2) && TrialsLeft(n, q) < TrialsLeft(n, p)
    ensures !GaveUp(n, p) && p >= 2
  {
    var t := if p == 4 then 2 else if p == 2 then 3 else p + 2;
    if t > 32000 || t * t > n {
      assert n % n == 0;
    } else {
      assert t <= t * t;
    }
  }

  /** Radices over the limit are only split off numbers that have no divisor within it. */
  ghost predicate LargeIsRough(n0: int, f: seq<int>, c: nat)
    requires 2 * c <= |f|
  {
    forall i :: 0 <= i < c && f[2 * i] > MAX_RADIX ==> Rough(Remaining(n0, f, i))
  }

  lemma ExtendRough(n0: int, f: seq<int>, c: nat, p: int, m: int)
    requires 2 * c + 1 < |f| && LargeIsRough(n0, f, c) && (p > MAX_RADIX ==> Rough(Remaining(n0, f, c)))
    ensures LargeIsRough(n0, f[2 * c := p][2 * c + 1 := m], c + 1)
  {
    var g := f[2 * c := p][2 * c + 1 := m];
    forall i | 0 <= i < c + 1 && g[2 * i] > MAX_RADIX
      ensures Rough(Remaining(n0, g, i))
    {
      assert Remaining(n0, g, i) == Remaining(n0, f, i);
    }
  }

  /** Every radix has a butterfly. */
  ghost predicate RadicesFit(n: int, factors: seq<int>)
    requires Chain(n, factors)
    decreases |factors|
  {
    factors[0] <= MAX_RADIX && (factors[1] == 1 || RadicesFit(factors[1], factors[2..]))
  }

  /** All radices fit exactly when the length has no prime factor over the limit. */
  lemma {:induction false} FitIsSmooth(n0: int, f: seq<int>, c: nat, i: nat)
    requires i < c && ChainPrefix(n0, f, c) && f[2 * c - 1] == 1 && LargeIsRough(n0, f, c)
    ensures Chain(Remaining(n0, f, i), f[2 * i..])
    ensures RadicesFit(Remaining(n0, f, i), f[2 * i..]) <==> NoPrimeOver(Remaining(n0, f, i), MAX_RADIX)
    decreases c - i
  {
    PrefixIsChain(n0, f, c, i);
    assert ChainLink(n0, f, i);
    var n, r, m := Remaining(n0, f, i), f[2 * i], f[2 * i + 1];
    if i < c - 1 {
      FitIsSmooth(n0, f, c, i + 1);
      assert f[2 * i..][2..] == f[2 * (i + 1)..];
    } else {
      OneHasNone(MAX_RADIX);
    }
    hide NoPrimeOver, ChainPrefix, LargeIsRough;
    if r > MAX_RADIX {
      RoughHasLargePrime(n, MAX_RADIX);
    } else {
      SmallFactor(n, r, m, MAX_RADIX);
    }
  }

  /** Splits n into radices; the whole list fits in the 2*MAXFACTORS entries of the state.  All of them have butterflies
      exactly when no prime factor of n is over 17. */
  method KfFactor(n0: int, facbuf: array<int>)
    requires 1 <= n0 < 0x8000_0000
    requires facbuf.Length == 2 * MAX_FACTORS
    modifies facbuf
    ensures Chain(n0, facbuf[..])
    ensures RadicesFit(n0, facbuf[..]) <==> NoPrimeOver(n0, MAX_RADIX)
  {
    hide *;
    var p, n := 4, n0;
    var c := 0;
    Untried(n0, facbuf[..]);
    while c == 0 || n > 1
      invariant 0 <= c < MAX_FACTORS && Splitting(n0, facbuf[..], c, n, p)
      decreases n, if c == 0 then 1 else 0
    {
      SplittingFacts(n0, facbuf[..], c, n, p);
      ghost var f, p0 := facbuf[..], p;
      p := NextRadix(n, p);
      SplitOff(n0, f, c, n, p0, p);
      n := n / p;
      facbuf[2 * c] := p;
      facbuf[2 * c + 1] := n;
      assert facbuf[..] == f[2 * c := p][2 * c + 1 := n];
      c := c + 1;
    }
    SplittingDone(n0, facbuf[..], c, n, p);
  }

  /** The factor loop: c pairs stored, n left, trials at p. */
  ghost predicate Splitting(n0: int, f: seq<int>, c: nat, n: int, p: int) {
    && |f| == 2 * MAX_FACTORS && c < MAX_FACTORS && 1 <= n <= Cap(c) && n == Remaining(n0, f, c)
    && (n >= 2 || c == 0 ==> p >= 2 && Tried(n, p))
    && ChainPrefix(n0, f, c) && LargeIsRough(n0, f, c)
  }

  lemma Untried(n: int, f: seq<int>)
    requires 1 <= n < 0x8000_0000 && |f| == 2 * MAX_FACTORS
    ensures Splitting(n, f, 0, n, 4)
  {}

  lemma SplittingFacts(n0: int, f: seq<int>, c: nat, n: int, p: int)
    requires Splitting(n0, f, c, n, p) && (c == 0 || n > 1)
    ensures 1 <= n && p >= 2 && Tried(n, p) && 2 * c + 1 < |f|
  {}

  lemma SplitOff(n0: int, f: seq<int>, c: nat, n: int, p0: int, p: int)
    requires Splitting(n0, f, c, n, p0)
    requires (c == 0 || n > 1) && p >= 1 && n % p == 0 && (n >= 2 ==> p >= 2)
    requires (p > MAX_RADIX ==> Rough(n)) && (p < n ==> Tried(n / p, p))
    ensures 2 * c + 1 < |f| && 1 <= n / p && (n / p < n || (c == 0 && n / p == n))
    ensures c + 1 < MAX_FACTORS && Splitting(n0, f[2 * c := p][2 * c + 1 := n / p], c + 1, n / p, p)
  {
    hide ChainPrefix, LargeIsRough, Tried, Rough, Cap;
    ExactDivision(n, p);
    StoreFactor(n0, f, c, n, p0, p, n / p);
  }

  lemma StoreFactor(n0: int, f: seq<int>, c: nat, n: int, p0: int, p: int, m: int)
    requires Splitting(n0, f, c, n, p0) && (c == 0 || n > 1)
    requires p >= 1 && m >= 1 && p * m == n && (p >= 2 ==> m <= n / 2) && (p < 2 ==> n == 1)
    requires (p > MAX_RADIX ==> Rough(n)) && (m >= 2 ==> p >= 2 && Tried(m, p))
    ensures c + 1 < MAX_FACTORS && Splitting(n0, f[2 * c := p][2 * c + 1 := m], c + 1, m, p)
  {
    hide ChainPrefix, LargeIsRough, Tried, Rough;
    assert m <= Cap(c + 1);
    hide Cap;
    CapEnds(c + 1);
    ExtendPrefix(n0, f, c, p, m);
    ExtendRough(n0, f, c, p, m);
  }

  lemma SplittingDone(n0: int, f: seq<int>, c: nat, n: int, p: int)
    requires Splitting(n0, f, c, n, p) && c > 0 && n <= 1
    ensures Chain(n0, f) && (RadicesFit(n0, f) <==> NoPrimeOver(n0, MAX_RADIX))
  {
    FitIsSmooth(n0, f, c, 0);
    assert f[0..] == f;
    hide Chain, RadicesFit, NoPrimeOver;
  }

  lemma ExactDivision(n: int, p: int)
    requires n >= 1 && p >= 1 && n % p == 0
    ensures p * (n / p) == n && 1 <= n / p <= n
    ensures p >= 2 ==> n / p <= n / 2
  {
    var m := n / p;
    assert p * m == n;
    assert p >= 2 && m >= 0 ==> p * m >= 2 * m;
  }

  // ----- kf_shuffle -----

  /** Stores the block's samples in digit-reversed order. */
  method KfShuffle(Fout: array<Complex>, off: int, fin: array<Complex>, f: int, fstride: int, in_stride: int,
                   factors: seq<int>)
    requires Fout != fin
    requires |factors| >= 2 && Chain(BlockLength(factors), factors)
    requires 0 <= off && off + BlockLength(factors) <= Fout.Length
    requires 0 <= f && fstride >= 1 && in_stride >= 1
    requires f + (BlockLength(factors) - 1) * fstride * in_stride < fin.Length
    modifies Fout
    ensures Shuffled(Fout[..], off, BlockLength(factors), fin[..], f, fstride, in_stride, factors)
    ensures forall i :: 0 <= i < Fout.Length && !(off <= i < off + BlockLength(factors)) ==> Fout[i] == old(Fout[i])
    decreases |factors|
  {
    var p, m := factors[0], factors[1];
    var j := 0;
    if m == 1 {
      while j < p
        invariant 0 <= j <= p
        invariant forall t :: 0 <= t < j ==> Fout[off + t] == At(fin[..], f + Source(t, fstride, factors) * in_stride)
        invariant forall i :: 0 <= i < Fout.Length && !(off <= i < off + p) ==> Fout[i] == old(Fout[i])
      {
        SampleInRange(f, j, p, fstride, in_stride);
        assert Source(j, fstride, factors) == j * fstride;
        Fout[off + j] := fin[f + j * fstride * in_stride];
        j := j + 1;
      }
    } else {
      while j < p
        invariant 0 <= j <= p
        invariant forall t :: 0 <= t < j * m ==>
          At(Fout[..], off + t) == At(fin[..], f + Source(t, fstride, factors) * in_stride)
        invariant forall i :: 0 <= i < Fout.Length && !(off <= i < off + p * m) ==> Fout[i] == old(Fout[i])
      {
        ghost var before := Fout[..];
        SubBlockBounds(p, m, j);
        StrandInRange(f, j, p, m, fstride, in_stride);
        KfShuffle(Fout, off + j * m, fin, f + j * fstride * in_stride, fstride * p, in_stride, factors[2..]);
        forall t | 0 <= t < (j + 1) * m
          ensures At(Fout[..], off + t) == At(fin[..], f + Source(t, fstride, factors) * in_stride)
        {
          if t >= j * m {
            SubBlockReversal(t - j * m, j, fstride, in_stride, f, factors);
          } else {
            assert Fout[off + t] == before[off + t];
          }
        }
        j := j + 1;
      }
    }
  }

  lemma SubBlockBounds(p: int, m: int, j: int)
    requires m >= 1 && 0 <= j < p
    ensures 0 <= j * m && j * m + m == (j + 1) * m && (j + 1) * m <= p * m
  {}

  lemma StrandInRange(f: int, j: int, p: int, m: int, fstride: int, in_stride: int)
    requires 0 <= f && fstride >= 1 && in_stride >= 1 && 0 <= j < p && m >= 1
    ensures 0 <= f + j * fstride * in_stride
    ensures fstride * p >= 1
    ensures (f + j * fstride * in_stride) + (m - 1) * (fstride * p) * in_stride <= f + (p * m - 1) * fstride * in_stride
  {
    var k := j + (m - 1) * p;
    assert k < p * m;
    SampleInRange(f, j, p, fstride, in_stride);
    SampleInRange(f, k, p * m, fstride, in_stride);
    assert k * fstride * in_stride == j * fstride * in_stride + (m - 1) * (fstride * p) * in_stride;
  }

  lemma SubBlockReversal(t: int, j: int, fstride: int, in_stride: int, f: int, factors: seq<int>)
    requires |factors| >= 2 && Chain(BlockLength(factors), factors) && factors[1] != 1
    requires 0 <= t < factors[1]
    ensures f + Source(j * factors[1] + t, fstride, factors) * in_stride
         == (f + j * fstride * in_stride) + Source(t, fstride * factors[0], factors[2..]) * in_stride
  {
    QuotientUnique(j * factors[1] + t, j, t, factors[1]);
    SubBlockIndex(f, j, fstride, Source(t, fstride * factors[0], factors[2..]), in_stride);
  }

  function BlockLength(factors: seq<int>): int
    requires |factors| >= 2
  {
    factors[0] * factors[1]
  }

  lemma SampleInRange(f: int, j: int, n: int, fstride: int, in_stride: int)
    requires 0 <= f && fstride >= 1 && in_stride >= 1 && 0 <= j < n
    ensures 0 <= f + j * fstride * in_stride <= f + (n - 1) * fstride * in_stride
  {
    assert 0 <= j * fstride <= (n - 1) * fstride;
    assert 0 <= (j * fstride) * in_stride <= ((n - 1) * fstride) * in_stride;
  }

  // ----- the butterflies: one column each, in place -----

  /** C_MUL of row q of a column with its twiddle factor. */
  method TwiddledInput(Fout: array<Complex>, base: int, p: int, m: int, fstride: int, st: FftState, u: int, q: int)
      returns (x: Complex)
    requires Geometry(st.twiddles, st.inverse, Fout.Length, base, p, m, fstride, u)
    requires 0 < q < p
    ensures |st.twiddles| > 0
    ensures x == Twiddled(Fout[..], base, p, m, fstride, st.twiddles, u)[q]
  {
    hide *;
    TwiddledAt(Fout[..], base, p, m, fstride, st.twiddles, st.inverse, u, q);
    TableIndex(st.twiddles, st.inverse, Fout.Length, base, p, m, fstride, u, q);
    SlotIs(base, q, m);
    x := Mul(Fout[base + q * m], st.twiddles[q * u * fstride]);
  }

  method KfBfly2(Fout: array<Complex>, base: int, fstride: int, st: FftState, m: int, u: int)
    requires Geometry(st.twiddles, st.inverse, Fout.Length, base, 2, m, fstride, u)
    modifies Fout
    ensures ColumnTransformed(old(Fout[..]), Fout[..], base, 2, m, fstride, st.twiddles, u)
  {
    hide *;
    ghost var z := Fout[..];
    ColumnBounds(st.twiddles, st.inverse, Fout.Length, base, 2, m, fstride, u);
    FirstTwiddled(z, base, 2, m, fstride, st.twiddles, st.inverse, u);
    var t := TwiddledInput(Fout, base, 2, m, fstride, st, u, 1);
    Fout[base + m] := Sub(Fout[base], t);
    Fout[base] := Add(Fout[base], t);
    assert Fout[..] == z[base := Add(z[base], t)][base + m := Sub(z[base], t)];
    Column2(z, Fout[..], base, m, fstride, st.twiddles, st.inverse, u,
        Twiddled(z, base, 2, m, fstride, st.twiddles, u));
  }

  method KfBfly3(Fout: array<Complex>, base: int, fstride: int, st: FftState, m: int, u: int)
    requires Geometry(st.twiddles, st.inverse, Fout.Length, base, 3, m, fstride, u)
    modifies Fout
    ensures ColumnTransformed(old(Fout[..]), Fout[..], base, 3, m, fstride, st.twiddles, u)
  {
    hide ColumnTransformed, Geometry, Mul, RootTable, Twiddled, RadixRoots, CubeRoots;
    ghost var z := Fout[..];
    ColumnBounds(st.twiddles, st.inverse, Fout.Length, base, 3, m, fstride, u);
    FirstTwiddled(z, base, 3, m, fstride, st.twiddles, st.inverse, u);
    CubeRootInTable(st.twiddles, st.inverse, Fout.Length, base, m, fstride, u);
    var epi3 := st.twiddles[fstride * m];
    var s1 := TwiddledInput(Fout, base, 3, m, fstride, st, u, 1);
    var s2 := TwiddledInput(Fout, base, 3, m, fstride, st, u, 2);
    var s3 := Add(s1, s2);
    var s0 := Sub(s1, s2);
    Fout[base + m] := Sub(Fout[base], Scale(0.5, s3));
    s0 := Scale(epi3.im, s0);
    Fout[base] := Add(Fout[base], s3);
    Fout[base + 2 * m] := Complex(Fout[base + m].re + s0.im, Fout[base + m].im - s0.re);
    Fout[base + m] := Complex(Fout[base + m].re - s0.im, Fout[base + m].im + s0.re);
    hide Scale, Add, Sub;
    assert Fout[..] == z[base := Add(z[base], s3)][base + m := Radix3Output(z[base], s1, s2, epi3.im, 1.0)]
                        [base + 2 * m := Radix3Output(z[base], s1, s2, epi3.im, -1.0)];
    hide Radix3Output;
    Column3(z, Fout[..], base, m, fstride, st.twiddles, st.inverse, u,
            Twiddled(z, base, 3, m, fstride, st.twiddles, u), epi3.im);
  }

  method KfBfly4(Fout: array<Complex>, base: int, fstride: int, st: FftState, m: int, u: int)
    requires Geometry(st.twiddles, st.inverse, Fout.Length, base, 4, m, fstride, u)
    modifies Fout
    ensures ColumnTransformed(old(Fout[..]), Fout[..], base, 4, m, fstride, st.twiddles, u)
  {
    hide ColumnTransformed, Geometry, Mul, RootTable, Add, Twiddled;
    ghost var z := Fout[..];
    ColumnBounds(st.twiddles, st.inverse, Fout.Length, base, 4, m, fstride, u);
    FirstTwiddled(z, base, 4, m, fstride, st.twiddles, st.inverse, u);
    var s0 := TwiddledInput(Fout, base, 4, m, fstride, st, u, 1);
    var s1 := TwiddledInput(Fout, base, 4, m, fstride, st, u, 2);
    var s2 := TwiddledInput(Fout, base, 4, m, fstride, st, u, 3);
    var s5 := Sub(Fout[base], s1);
    Fout[base] := Add(Fout[base], s1);
    var s3 := Add(s0, s2);
    var s4 := Sub(s0, s2);
    Fout[base + 2 * m] := Sub(Fout[base], s3);
    Fout[base] := Add(Fout[base], s3);
    if st.inverse {
      Fout[base + m] := Complex(s5.re - s4.im, s5.im + s4.re);
      Fout[base + 3 * m] := Complex(s5.re + s4.im, s5.im - s4.re);
    } else {
      Fout[base + m] := Complex(s5.re + s4.im, s5.im - s4.re);
      Fout[base + 3 * m] := Complex(s5.re - s4.im, s5.im + s4.re);
    }
    hide Sub;
    assert Fout[..] == z[base := Add(Add(z[base], s1), Add(s0, s2))]
                        [base + m := Radix4Output(z[base], s0, s1, s2, if st.inverse then 1.0 else -1.0)]
                        [base + 2 * m := Sub(Add(z[base], s1), Add(s0, s2))]
                        [base + 3 * m := Radix4Output(z[base], s0, s1, s2, if st.inverse then -1.0 else 1.0)];
    hide Radix4Output;
    Column4(z, Fout[..], base, m, fstride, st.twiddles, st.inverse, u,
        Twiddled(z, base, 4, m, fstride, st.twiddles, u));
  }

  method KfBfly5(Fout: array<Complex>, base: int, fstride: int, st: FftState, m: int, u: int)
    requires Geometry(st.twiddles, st.inverse, Fout.Length, base, 5, m, fstride, u)
    modifies Fout
    ensures ColumnTransformed(old(Fout[..]), Fout[..], base, 5, m, fstride, st.twiddles, u)
  {
    hide ColumnTransformed, Geometry, Mul, RootTable, Add, Sub, EvenPart, OddPart, OtherOddPart, Twiddled, RadixRoots,
      FifthRootsFrom;
    ghost var z := Fout[..];
    ColumnBounds(st.twiddles, st.inverse, Fout.Length, base, 5, m, fstride, u);
    FirstTwiddled(z, base, 5, m, fstride, st.twiddles, st.inverse, u);
    FifthRootsInTable(st.twiddles, st.inverse, Fout.Length, base, m, fstride, u);
    var ya := st.twiddles[fstride * m];
    var yb := st.twiddles[fstride * 2 * m];
    var s0 := Fout[base];
    var s1 := TwiddledInput(Fout, base, 5, m, fstride, st, u, 1);
    var s2 := TwiddledInput(Fout, base, 5, m, fstride, st, u, 2);
    var s3 := TwiddledInput(Fout, base, 5, m, fstride, st, u, 3);
    var s4 := TwiddledInput(Fout, base, 5, m, fstride, st, u, 4);
    var s7, s10 := Add(s1, s4), Sub(s1, s4);
    var s8, s9 := Add(s2, s3), Sub(s2, s3);
    Fout[base] := Add(Fout[base], Add(s7, s8));
    var s5, s6 := EvenPart(s0, s7, s8, ya.re, yb.re), OddPart(s10, s9, ya.im, yb.im);
    Fout[base + m] := Sub(s5, s6);
    Fout[base + 4 * m] := Add(s5, s6);
    var s11, s12 := EvenPart(s0, s7, s8, yb.re, ya.re), OtherOddPart(s10, s9, ya.im, yb.im);
    Fout[base + 2 * m] := Add(s11, s12);
    Fout[base + 3 * m] := Sub(s11, s12);
    assert Fout[..] == z[base := Add(z[base], Add(s7, s8))]
                        [base + m := Sub(s5, s6)][base + 2 * m := Add(s11, s12)]
                        [base + 3 * m := Sub(s11, s12)][base + 4 * m := Add(s5, s6)];
    OtherOddPartNegates(s10, s9, ya.im, yb.im);
    SubtractNegated(s11, OddPart(s10, s9, yb.im, -ya.im));
    Column5(z, Fout[..], base, m, fstride, st.twiddles, st.inverse, u,
            Twiddled(z, base, 5, m, fstride, st.twiddles, u), ya, yb, s5, s6, s11, OddPart(s10, s9, yb.im, -ya.im));
  }

  lemma SubtractNegated(a: Complex, b: Complex)
    ensures Add(a, Sub(ZERO, b)) == Sub(a, b) && Sub(a, Sub(ZERO, b)) == Add(a, b)
  {}

  lemma CubeRootInTable(tw: seq<Complex>, inverse: bool, length: int, base: int, m: int, stride: int, u: int)
    requires Geometry(tw, inverse, length, base, 3, m, stride, u)
    ensures 0 <= stride * m < |tw|
    ensures RadixRoots(tw, 3, m * stride) == CubeRoots(tw[stride * m].im)
  {
    hide RootTable, RadixRoots;
    NonEmpty(tw, inverse);
    assert stride * m == m * stride;
    Radix3Roots(tw, inverse, m * stride);
  }

  lemma FifthRootsInTable(tw: seq<Complex>, inverse: bool, length: int, base: int, m: int, stride: int, u: int)
    requires Geometry(tw, inverse, length, base, 5, m, stride, u)
    ensures 0 <= stride * m < |tw| && 0 <= stride * 2 * m < |tw|
    ensures RadixRoots(tw, 5, m * stride) == FifthRootsFrom(tw[stride * m], tw[stride * 2 * m])
  {
    hide RootTable, RadixRoots;
    NonEmpty(tw, inverse);
    assert stride * m == m * stride && stride * 2 * m == 2 * (m * stride);
    Radix5Roots(tw, inverse, m * stride);
  }

  /** The twiddle index of the generic butterfly stays reduced with one conditional subtraction. */
  lemma NextTwiddleIndex(twidx: int, k: int, fstride: int, q: int, n: int)
    requires 0 <= fstride * k < n && twidx == ((q - 1) * k * fstride) % n
    ensures var t := twidx + fstride * k;
      (if t >= n then t - n else t) == (q * k * fstride) % n
  {
    var d := fstride * k;
    QuotientUnique(d, 0, d, n);
    SumWraps((q - 1) * k * fstride, d, n);
    assert (q - 1) * k * fstride + d == q * k * fstride;
  }

  /** Output k of a column of any radix, accumulated in place. */
  method GenericOutput(Fout: array<Complex>, pos: int, scratchbuf: array<Complex>, fstride: int, st: FftState, k: int,
                       p: int, ghost z: seq<Complex>, ghost base: int, ghost m: int)
    requires Fout != scratchbuf && 0 <= pos < Fout.Length && 1 <= p <= scratchbuf.Length
    requires forall q :: 0 <= q < p ==> scratchbuf[q] == At(z, Slot(base, q, m))
    requires RootTable(st.twiddles, st.inverse) && |st.twiddles| == st.nfft && 0 <= fstride * k < st.nfft
    modifies Fout
    ensures |st.twiddles| > 0
    ensures Fout[..] == old(Fout[..])[pos := Butterfly(z, base, p, m, fstride, st.twiddles, k)]
  {
    hide Mul, Add, RootTable, At;
    NonEmpty(st.twiddles, st.inverse);
    ghost var terms := ButterflyTerm(z, base, m, fstride, st.twiddles, k);
    var twidx := 0;
    Fout[pos] := scratchbuf[0];
    FirstButterflyTerm(z, base, m, fstride, st.twiddles, st.inverse, k);
    var q := 1;
    while q < p
      invariant 1 <= q <= p
      invariant twidx == ((q - 1) * k * fstride) % st.nfft
      invariant Fout[..] == old(Fout[..])[pos := Sum(terms, q)]
      invariant forall i :: 0 <= i < p ==> scratchbuf[i] == At(z, Slot(base, i, m))
    {
      NextTwiddleIndex(twidx, k, fstride, q, st.nfft);
      twidx := twidx + fstride * k;
      if twidx >= st.nfft {
        twidx := twidx - st.nfft;
      }
      var t := Mul(scratchbuf[q], st.twiddles[twidx]);
      assert terms(q) == t by { SlotIs(base, q, m); }
      Fout[pos] := Add(Fout[pos], t);
      q := q + 1;
    }
  }

  lemma FirstButterflyTerm(z: seq<Complex>, base: int, m: int, stride: int, tw: seq<Complex>, inverse: bool, k: int)
    requires RootTable(tw, inverse) && |tw| > 0
    ensures Sum(ButterflyTerm(z, base, m, stride, tw, k), 1) == At(z, Slot(base, 0, m))
    ensures (0 * k * stride) % |tw| == 0
  {
    hide Mul, RootTable, Root, At;
    RootAtMultiple(tw, inverse, 0);
    assert 0 * k * stride == 0 && 0 * m == 0;
    MulByOne(At(z, base));
    SumOfOneTerm(ButterflyTerm(z, base, m, stride, tw, k));
  }

  method CopyColumn(Fout: array<Complex>, base: int, fstride: int, st: FftState, m: int, p: int, u: int)
      returns (scratchbuf: array<Complex>)
    requires Geometry(st.twiddles, st.inverse, Fout.Length, base, p, m, fstride, u) && p <= MAX_RADIX
    ensures fresh(scratchbuf) && scratchbuf.Length == MAX_RADIX
    ensures forall q :: 0 <= q < p ==> scratchbuf[q] == At(Fout[..], Slot(base, q, m))
  {
    hide Mul, RootTable;
    scratchbuf := new Complex[MAX_RADIX];
    var q1 := 0;
    while q1 < p
      invariant 0 <= q1 <= p
      invariant forall q :: 0 <= q < q1 ==> scratchbuf[q] == At(Fout[..], Slot(base, q, m))
    {
      SlotInColumn(base, q1, p, m);
      scratchbuf[q1] := Fout[base + q1 * m];
      q1 := q1 + 1;
    }
  }

  method KfBflyGeneric(Fout: array<Complex>, base: int, fstride: int, st: FftState, m: int, p: int, u: int)
    returns (ok: bool)
    requires Geometry(st.twiddles, st.inverse, Fout.Length, base, p, m, fstride, u) && |st.twiddles| == st.nfft
    modifies Fout
    ensures ok <==> p <= MAX_RADIX
    ensures ok ==> |st.twiddles| > 0 && m > 0 && p > 0
    ensures ok ==> ColumnTransformed(old(Fout[..]), Fout[..], base, p, m, fstride, st.twiddles, u)
  {
    if p > MAX_RADIX {
      return false;
    }
    hide *;
    ghost var z := Fout[..];
    ColumnBounds(st.twiddles, st.inverse, Fout.Length, base, p, m, fstride, u);
    var scratchbuf := CopyColumn(Fout, base, fstride, st, m, p, u);
    var pos, k := base, u;
    var q1 := 0;
    NextSlot(base, 0, m);
    NextSlot(u, 0, m);
    assert RowsDone(z, Fout[..], base, p, m, fstride, st.twiddles, u, q1) by {
      NoRows(z, base, p, m, fstride, st.twiddles, u);
    }
    while q1 < p
      invariant 0 <= q1 <= p && pos == Slot(base, q1, m) && k == Slot(u, q1, m)
      invariant forall q :: 0 <= q < p ==> scratchbuf[q] == At(z, Slot(base, q, m))
      invariant RowsDone(z, Fout[..], base, p, m, fstride, st.twiddles, u, q1)
    {
      ghost var f := Fout[..];
      RowBounds(z, f, base, p, m, fstride, st.twiddles, st.inverse, u, q1);
      TableOf(st, Fout.Length, base, p, m, fstride, u);
      GenericOutput(Fout, pos, scratchbuf, fstride, st, k, p, z, base, m);
      NextRow(z, f, Fout[..], base, p, m, fstride, st.twiddles, u, q1);
      NextSlot(base, q1, m);
      NextSlot(u, q1, m);
      q1 := q1 + 1;
      pos, k := pos + m, k + m;
    }
    AllRows(z, Fout[..], base, p, m, fstride, st.twiddles, u);
    return true;
  }

  lemma TableOf(st: FftState, length: int, base: int, p: int, m: int, fstride: int, u: int)
    requires Geometry(st.twiddles, st.inverse, length, base, p, m, fstride, u)
    ensures RootTable(st.twiddles, st.inverse) && p > 0
  {}

  lemma NoRows(z: seq<Complex>, base: int, p: nat, m: int, stride: int, tw: seq<Complex>, u: int)
    requires |tw| > 0 && m > 0
    ensures RowsDone(z, z, base, p, m, stride, tw, u, 0)
  {}

  lemma AllRows(z: seq<Complex>, f: seq<Complex>, base: int, p: nat, m: int, stride: int, tw: seq<Complex>, u: int)
    requires |tw| > 0 && m > 0 && RowsDone(z, f, base, p, m, stride, tw, u, p)
    ensures ColumnTransformed(z, f, base, p, m, stride, tw, u)
  {}

  lemma RowBounds(z: seq<Complex>, f: seq<Complex>, base: int, p: nat, m: int, stride: int, tw: seq<Complex>,
                  inverse: bool, u: int, q1: int)
    requires |tw| > 0 && Geometry(tw, inverse, |z|, base, p, m, stride, u) && 0 <= q1 < p
    requires RowsDone(z, f, base, p, m, stride, tw, u, q1)
    ensures |f| == |z| && 0 <= Slot(base, q1, m) < |z|
    ensures 0 <= stride * Slot(u, q1, m) < |tw|
  {
    hide RootTable, Butterfly;
    SlotInColumn(base, q1, p, m);
    RowTwiddle(p, m, stride, u, q1, |tw|);
  }

  /** f is z with the first q1 rows of a column replaced. */
  ghost predicate RowsDone(z: seq<Complex>, f: seq<Complex>, base: int, p: nat, m: int, stride: int,
                           tw: seq<Complex>, u: int, q1: int)
    requires |tw| > 0 && m > 0
  {
    && |f| == |z|
    && (forall q :: 0 <= q < q1 ==> At(f, Slot(base, q, m)) == Butterfly(z, base, p, m, stride, tw, Slot(u, q, m)))
    && (forall i :: 0 <= i < |z| && !InColumn(i, base, p, m) ==> f[i] == z[i])
  }

  lemma NextRow(z: seq<Complex>, f: seq<Complex>, g: seq<Complex>, base: int, p: nat, m: int, stride: int,
                tw: seq<Complex>, u: int, q1: int)
    requires |tw| > 0 && m > 0 && 0 <= q1 < p && 0 <= Slot(base, q1, m) < |z| == |f|
    requires RowsDone(z, f, base, p, m, stride, tw, u, q1)
    requires g == f[Slot(base, q1, m) := Butterfly(z, base, p, m, stride, tw, Slot(u, q1, m))]
    ensures RowsDone(z, g, base, p, m, stride, tw, u, q1 + 1)
  {
    hide Butterfly;
    SlotInColumn(base, q1, p, m);
    forall q | 0 <= q < q1 + 1
      ensures At(g, Slot(base, q, m)) == Butterfly(z, base, p, m, stride, tw, Slot(u, q, m))
    {
      assert q < q1 ==> q * m < q1 * m;
    }
  }

  lemma RowTwiddle(p: int, m: int, stride: int, u: int, q1: int, n: int)
    requires p * m * stride == n && stride >= 1 && 0 <= u < m && 0 <= q1 < p
    ensures 0 <= stride * (u + q1 * m) < n
  {
    assert q1 * m <= (p - 1) * m;
    ScaledBelow(u + q1 * m, p * m, stride);
  }

  // ----- one pass over a block, and all passes -----

  lemma NoColumns(z: seq<Complex>, off: int, p: nat, m: int, stride: int, tw: seq<Complex>)
    requires |tw| > 0 && m > 0
    ensures ColumnsDone(z, z, off, p, m, stride, tw, 0)
  {
    hide Butterfly;
  }

  lemma ColumnGeometry(st: FftState, length: int, off: int, p: int, m: int, fstride: int, j: int)
    requires ValidState(st) && p >= 1 && fstride >= 1 && 0 <= j < m && p * m * fstride == st.nfft
    requires 0 <= off && off + p * m <= length
    ensures Geometry(st.twiddles, st.inverse, length, off + j, p, m, fstride, j)
    ensures |st.twiddles| == st.nfft
  {
    hide RootTable, Chain;
    assert p * m == (p - 1) * m + m;
  }

  lemma SmallRadix(p: int)
    ensures p <= 5 ==> p <= MAX_RADIX
  {}

  /** Every column of one block, with the butterfly of its radix. */
  method KfBlock(Fout: array<Complex>, off: int, fstride: int, st: FftState, m: int, p: int) returns (ok: bool)
    requires ValidState(st) && p >= 1 && m >= 1 && fstride >= 1 && p * m * fstride == st.nfft
    requires 0 <= off && off + p * m <= Fout.Length
    modifies Fout
    ensures |st.twiddles| > 0
    ensures ok <==> p <= MAX_RADIX
    ensures ok ==> ColumnsDone(old(Fout[..]), Fout[..], off, p, m, fstride, st.twiddles, m)
  {
    hide *;
    StateChain(st);
    ghost var z := Fout[..];
    var j := 0;
    NoColumns(z, off, p, m, fstride, st.twiddles);
    while j < m
      invariant 0 <= j <= m
      invariant j > 0 ==> p <= MAX_RADIX
      invariant ColumnsDone(z, Fout[..], off, p, m, fstride, st.twiddles, j)
    {
      ghost var f := Fout[..];
      ColumnGeometry(st, Fout.Length, off, p, m, fstride, j);
      SmallRadix(p);
      if p == 2 {
        KfBfly2(Fout, off + j, fstride, st, m, j);
      } else if p == 3 {
        KfBfly3(Fout, off + j, fstride, st, m, j);
      } else if p == 4 {
        KfBfly4(Fout, off + j, fstride, st, m, j);
      } else if p == 5 {
        KfBfly5(Fout, off + j, fstride, st, m, j);
      } else {
        ok := KfBflyGeneric(Fout, off + j, fstride, st, m, p, j);
        if !ok {
          return;
        }
      }
      NextColumn(z, f, Fout[..], off, p, m, fstride, st.twiddles, j);
      j := j + 1;
    }
    return true;
  }

  /** All passes, innermost first, over count blocks that lie spacing apart. */
  method KfWork(Fout: array<Complex>, fstride: int, factors: seq<int>, st: FftState, count: int, spacing: int,
                ghost n: int)
      returns (ok: bool)
    requires ValidState(st) && |st.twiddles| > 0 && n > 0 && Chain(n, factors) && fstride >= 1 && n * fstride == st.nfft
    requires 1 <= count && count * n <= Fout.Length
    requires count == 1 || spacing == n
    modifies Fout
    ensures ok <==> RadicesFit(n, factors)
    ensures ok ==> BlocksDone(old(Fout[..]), Fout[..], count, n, fstride, factors, st.twiddles)
    decreases |factors|
  {
    hide ValidState, BlocksDone, PassDone, Work, Butterfly, ColumnsDone;
    ghost var z := Fout[..];
    var p, m := factors[0], factors[1];
    StrideProduct(p, m, n, fstride);
    ProductRegroups(count, p, m);
    if m != 1 {
      StrideGrows(fstride, p, count);
      ok := KfWork(Fout, fstride * p, factors[2..], st, count * p, m, m);
      if !ok {
        return;
      }
    }
    ghost var y := Fout[..];
    assert SubBlocksDone(z, y, count, n, fstride, factors, st.twiddles);
    hide SubBlocksDone, Chain;
    NoBlocks(y, p, m, fstride, st.twiddles);
    var i := 0;
    while i < count
      invariant 0 <= i <= count
      invariant i > 0 ==> p <= MAX_RADIX
      invariant PassDone(y, Fout[..], i, p, m, fstride, st.twiddles)
    {
      ghost var f := Fout[..];
      BlockFits(i, count, n, spacing);
      ok := KfBlock(Fout, i * spacing, fstride, st, m, p);
      if !ok {
        return;
      }
      NextBlock(y, f, Fout[..], i, p, m, fstride, st.twiddles);
      i := i + 1;
    }
    PassLength(y, Fout[..], count, p, m, fstride, st.twiddles);
    PassCompletes(z, y, Fout[..], count, n, fstride, factors, st.twiddles);
    return true;
  }

  lemma StrideGrows(fstride: int, p: int, count: int)
    requires fstride >= 1 && p >= 1 && count >= 1
    ensures fstride * p >= 1 && count * p >= 1
  {}

  lemma BlockFits(i: int, count: int, n: int, spacing: int)
    requires 0 <= i < count && n > 0 && (count == 1 || spacing == n)
    ensures i * spacing == i * n && 0 <= i * n && i * n + n == (i + 1) * n <= count * n
  {}

  lemma NoBlocks(y: seq<Complex>, p: nat, m: int, stride: int, tw: seq<Complex>)
    requires |tw| > 0 && m > 0 && p > 0
    ensures PassDone(y, y, 0, p, m, stride, tw)
  {
    hide Butterfly, BlockStart;
  }

  lemma PassLength(y: seq<Complex>, f: seq<Complex>, count: int, p: nat, m: int, stride: int, tw: seq<Complex>)
    requires |tw| > 0 && m > 0 && p > 0 && PassDone(y, f, count, p, m, stride, tw)
    ensures |f| == |y|
  {}

  /** The transform out of place.  It fails, as the source aborts, when input and output are the same
      buffer or a radix is over 17. */
  method KissFftStride(st: FftState, fin: array<Complex>, fout: array<Complex>, in_stride: int) returns (ok: bool)
    requires ValidState(st) && |st.twiddles| > 0 && in_stride >= 1
    requires (st.nfft - 1) * in_stride < fin.Length && st.nfft <= fout.Length
    modifies fout
    ensures ok <==> fin != fout && RadicesFit(st.nfft, st.factors)
    ensures ok ==> forall k :: 0 <= k < st.nfft ==>
      fout[k] == Dft(fin[..], 0, 1, in_stride, st.twiddles, st.nfft, k)
    ensures ok ==> forall k :: st.nfft <= k < fout.Length ==> fout[k] == old(fout[k])
  {
    if fin == fout {
      return false;
    }
    hide *;
    StateChain(st);
    KfShuffle(fout, 0, fin, 0, 1, in_stride, st.factors);
    ghost var z := fout[..];
    ok := KfWork(fout, 1, st.factors, st, 1, 1, st.nfft);
    if ok {
      ShuffledAndWorked(st, z, fout[..], fin[..], in_stride);
      assert forall k :: 0 <= k < st.nfft ==> fout[k] == fout[..][k];
      assert forall k :: st.nfft <= k < fout.Length ==> fout[k] == fout[..][k] == z[k];
    }
  }

  lemma StateChain(st: FftState)
    requires ValidState(st)
    ensures |st.twiddles| == st.nfft > 0 && |st.factors| >= 2 && BlockLength(st.factors) == st.nfft
    ensures Chain(st.nfft, st.factors) && RootTable(st.twiddles, st.inverse)
  {
    hide RootTable;
    NonEmpty(st.twiddles, st.inverse);
  }

  lemma ShuffledAndWorked(st: FftState, z: seq<Complex>, f: seq<Complex>, input: seq<Complex>, in_stride: int)
    requires ValidState(st) && |st.twiddles| == st.nfft > 0 && st.nfft <= |z| && Chain(st.nfft, st.factors)
    requires Shuffled(z, 0, st.nfft, input, 0, 1, in_stride, st.factors)
    requires BlocksDone(z, f, 1, st.nfft, 1, st.factors, st.twiddles)
    ensures |f| == |z|
    ensures forall k :: 0 <= k < st.nfft ==> f[k] == Dft(input, 0, 1, in_stride, st.twiddles, st.nfft, k)
    ensures forall k :: st.nfft <= k < |z| ==> f[k] == z[k]
  {
    hide RootTable, Work, Dft, Shuffled, BlockStart;
    forall k | 0 <= k < st.nfft
      ensures f[k] == Dft(input, 0, 1, in_stride, st.twiddles, st.nfft, k)
    {
      InBlock(k, 0, st.nfft);
      assert f[k] == Work(z, BlockStart(k, st.nfft), 1, st.factors, st.twiddles, k % st.nfft);
      WorkIsDft(z, 0, st.nfft, input, 0, 1, in_stride, st.factors, st.twiddles, st.inverse, k);
    }
  }

  /** The transform itself is the sum X[k] = sum over j of x[j] * w^(j*k). */
  lemma DftIsSum(x: seq<Complex>, tw: seq<Complex>, k: int)
    requires |tw| > 0
    ensures Dft(x, 0, 1, 1, tw, |tw|, k) == Sum(j => Mul(At(x, j), Root(tw, j * k)), |tw|)
  {
    hide Mul, Root, At;
    SumCongruent(DftTerm(x, 0, 1, 1, tw, k), j => Mul(At(x, j), Root(tw, j * k)), |tw|);
  }

  /** kiss_fft_alloc, the twiddle table being given: every radix of the state has a butterfly exactly when no prime
      factor of the length is over 17. */
  method KissFftAlloc(nfft: int, inverse: bool, twiddles: seq<Complex>) returns (st: FftState)
    requires 1 <= nfft < 0x8000_0000 && RootTable(twiddles, inverse) && |twiddles| == nfft
    ensures ValidState(st) && st.nfft == nfft && st.inverse == inverse && st.twiddles == twiddles
    ensures RadicesFit(nfft, st.factors) <==> NoPrimeOver(nfft, MAX_RADIX)
  {
    hide RootTable, Chain, RadicesFit, NoPrimeOver;
    var facbuf := new int[2 * MAX_FACTORS];
    KfFactor(nfft, facbuf);
    st := FftState(nfft, inverse, facbuf[..], twiddles);
  }

  /** Which lengths can be transformed: the length alone decides, and where it can the output is the plain sum. */
  method Transform(nfft: int, inverse: bool, twiddles: seq<Complex>, fin: array<Complex>, fout: array<Complex>)
    returns (ok: bool)
    requires 1 <= nfft < 0x8000_0000 && RootTable(twiddles, inverse) && |twiddles| == nfft
    requires fin != fout && fin.Length == fout.Length == nfft
    modifies fout
    ensures |twiddles| > 0 && (ok <==> NoPrimeOver(nfft, MAX_RADIX))
    ensures ok ==> forall k :: 0 <= k < nfft ==> fout[k] == Dft(fin[..], 0, 1, 1, twiddles, nfft, k)
  {
    hide RootTable, Chain, RadicesFit, NoPrimeOver, Dft;
    var st := KissFftAlloc(nfft, inverse, twiddles);
    ok := KissFftStride(st, fin, fout, 1);
  }
}
