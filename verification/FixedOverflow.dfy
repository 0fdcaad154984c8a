/** When the 32-bit accumulators of the fixed-point filters of filters.c do no harm. */
module FixedOverflow {
  import opened FixedFilters
  import opened MachineWords
  import opened Remainders

  const HALF_STEP := LPC_SHIFT_FACTOR / 2

  // ----- registers hold the exact memory modulo 2^32 -----

  lemma WrapAdd(a: int, b: int)
    ensures Wrap32(Wrap32(a) + b) == Wrap32(a + b)
  {
    var k := (a + HALF_RANGE) / TURN;
    assert Wrap32(a) + b + HALF_RANGE == (a + b + HALF_RANGE) + (-k) * TURN;
    AddMultiple(a + b + HALF_RANGE, -k, TURN);
  }

  function Wrapped(mem: seq<int>): (w: seq<int>)
    ensures |w| == |mem|
  {
    seq(|mem|, j requires 0 <= j < |mem| => Wrap32(mem[j]))
  }

  lemma WrappedFits(mem: seq<int>)
    requires All32(mem)
    ensures Wrapped(mem) == mem
  {}

  lemma CellWraps(m: int, n: int, d: int, x: int, y: int)
    ensures Cell32(Wrap32(m), n, d, x, y) == Wrap32(Cell(m, n, d, x, y))
  {
    hide Wrap32;
    TimesNegated(d, y);
    WrapAdd(m, Times(n, x));
    WrapAdd(m + Times(n, x), Times(d, -y));
  }

  lemma TimesNegated(d: int, y: int)
    ensures Times(d, -y) == -Times(d, y)
  {}

  /** The wrapping memory stays congruent to the exact one. */
  lemma MemoryWraps(mem: seq<int>, num: seq<int>, den: seq<int>, x: int, y: int)
    requires |mem| == |num| == |den|
    ensures NextMem32(Wrapped(mem), num, den, x, y) == Wrapped(NextMem(mem, num, den, x, y))
  {
    forall j | 0 <= j < |mem|
      ensures NextMem32(Wrapped(mem), num, den, x, y)[j] == Wrap32(NextMem(mem, num, den, x, y)[j])
    {
      assert Entry(Wrapped(mem), j + 1) == Wrap32(Entry(mem, j + 1));
      CellWraps(Entry(mem, j + 1), num[j], den[j], x, y);
      hide Cell, Cell32, Wrap32;
    }
    hide NextMem, NextMem32, Wrap32;
  }

  // ----- one output -----

  /** The accumulator, with the rounding added, fits 32 bits. */
  predicate Fits(m0: int) { In32(m0 + HALF_STEP) }

  /** It is less than a whole turn out of range; the lower end leaves room for the samples that saturate at -32767. */
  predicate WithinTurn(m0: int) { -TURN + 2 * LPC_SHIFT_FACTOR <= m0 + HALF_STEP < TURN }

  lemma OutputWraps(x: int, m0: int)
    requires In16(x)
    ensures Output32(x, Wrap32(m0)) == Saturate(x + Wrap32(m0 + HALF_STEP) / LPC_SHIFT_FACTOR)
  {
    WrapAdd(m0, HALF_STEP);
  }

  /** Only a sum that does not fit spoils the output, and up to a whole turn it always does: the output goes to the
      wrong side. */
  lemma OutputAgrees(x: int, m0: int)
    requires In16(x)
    ensures Fits(m0) ==> Output32(x, Wrap32(m0)) == Output(x, m0)
    ensures WithinTurn(m0) && !Fits(m0) ==> Output32(x, Wrap32(m0)) != Output(x, m0)
  {
    OutputWraps(x, m0);
    var s := m0 + HALF_STEP;
    if HALF_RANGE <= s < TURN {
      QuotientUnique(s + HALF_RANGE, 1, s - HALF_RANGE, TURN);
    } else if -TURN <= s < -HALF_RANGE {
      QuotientUnique(s + HALF_RANGE, -1, s + HALF_RANGE + TURN, TURN);
    }
  }

  // ----- runs -----

  /** What the exact accumulator holds when sample i comes. */
  function Accumulator(x: seq<int>, num: seq<int>, den: seq<int>, mem: seq<int>, i: nat): int
    requires |mem| == |num| == |den| > 0 && i <= |x|
  {
    Run(x[..i], num, den, mem).mem[0]
  }

  ghost predicate FitsThroughout(x: seq<int>, num: seq<int>, den: seq<int>, mem: seq<int>)
    requires |mem| == |num| == |den| > 0
  {
    forall i :: 0 <= i < |x| ==> Fits(Accumulator(x, num, den, mem, i))
  }

  ghost predicate TurnsThroughout(x: seq<int>, num: seq<int>, den: seq<int>, mem: seq<int>)
    requires |mem| == |num| == |den| > 0
  {
    forall i :: 0 <= i < |x| ==> WithinTurn(Accumulator(x, num, den, mem, i))
  }

  lemma AccumulatorOfPrefix(x: seq<int>, num: seq<int>, den: seq<int>, mem: seq<int>)
    requires |mem| == |num| == |den| > 0 && x != []
    ensures var a := x[..|x| - 1];
      && (FitsThroughout(x, num, den, mem) <==>
           FitsThroughout(a, num, den, mem) && Fits(Accumulator(x, num, den, mem, |x| - 1)))
      && (TurnsThroughout(x, num, den, mem) ==> TurnsThroughout(a, num, den, mem))
  {
    hide Fits, WithinTurn, Run;
    var a := x[..|x| - 1];
    forall i | 0 <= i <= |a|
      ensures Accumulator(a, num, den, mem, i) == Accumulator(x, num, den, mem, i)
    {
      assert a[..i] == x[..i];
    }
  }

  /** Intermediate wraps cancel: while the rounded accumulator fits at every sample the code computes the exact filter,
      and its memory is the exact one modulo 2^32. */
  lemma {:induction false} FitsIsExact(x: seq<int>, num: seq<int>, den: seq<int>, mem: seq<int>)
    requires |mem| == |num| == |den| > 0 && All32(mem) && All16(x) && FitsThroughout(x, num, den, mem)
    ensures Run32(x, num, den, mem).out == Run(x, num, den, mem).out
    ensures Run32(x, num, den, mem).mem == Wrapped(Run(x, num, den, mem).mem)
  {
    if x == [] {
      WrappedFits(mem);
    } else {
      var a, s := x[..|x| - 1], x[|x| - 1];
      AccumulatorOfPrefix(x, num, den, mem);
      FitsIsExact(a, num, den, mem);
      var f := Run(a, num, den, mem);
      OutputAgrees(s, f.mem[0]);
      MemoryWraps(f.mem, num, den, s, Output(s, f.mem[0]));
      hide FitsThroughout, Fits, Output, Output32, NextMem, NextMem32;
    }
  }

  /** And only then, as long as the accumulator is less than a turn out of range. */
  lemma {:induction false} AgreesIffFits(x: seq<int>, num: seq<int>, den: seq<int>, mem: seq<int>)
    requires |mem| == |num| == |den| > 0 && All32(mem) && All16(x) && TurnsThroughout(x, num, den, mem)
    ensures Run32(x, num, den, mem).out == Run(x, num, den, mem).out <==> FitsThroughout(x, num, den, mem)
  {
    if FitsThroughout(x, num, den, mem) {
      FitsIsExact(x, num, den, mem);
    } else if x != [] {
      var a, n := x[..|x| - 1], |x| - 1;
      AccumulatorOfPrefix(x, num, den, mem);
      AgreesIffFits(a, num, den, mem);
      var f, f32 := Run(a, num, den, mem), Run32(a, num, den, mem);
      var g, g32 := Run(x, num, den, mem), Run32(x, num, den, mem);
      assert g.out[..n] == f.out && g32.out[..n] == f32.out;
      if FitsThroughout(a, num, den, mem) {
        FitsIsExact(a, num, den, mem);
        OutputAgrees(x[n], f.mem[0]);
        assert g.out[n] == Output(x[n], f.mem[0]) && g32.out[n] == Output32(x[n], Wrap32(f.mem[0]));
      }
    }
  }

  // ----- what a caller can check -----

  /** In exact arithmetic the memory stays within what the coefficients allow, however large they are. */
  lemma {:induction false} ExactlyBounded(x: seq<int>, num: seq<int>, den: seq<int>, mem: seq<int>)
    requires |mem| == |num| == |den| > 0 && Bounded(mem, num, den) && All16(x)
    ensures Bounded(Run(x, num, den, mem).mem, num, den)
  {
    if x != [] {
      ExactlyBounded(x[..|x| - 1], num, den, mem);
      var f := Run(x[..|x| - 1], num, den, mem);
      StepBounded(f.mem, num, den, x[|x| - 1], Output(x[|x| - 1], f.mem[0]));
      hide Bounded, NextMem, Output;
    }
  }

  lemma StepBounded(mem: seq<int>, num: seq<int>, den: seq<int>, x: int, y: int)
    requires |mem| == |num| == |den| && Bounded(mem, num, den) && In16(x) && -32767 <= y <= 32767
    ensures Bounded(NextMem(mem, num, den, x, y), num, den)
  {
    forall j | 0 <= j < |mem|
      ensures Abs(NextMem(mem, num, den, x, y)[j]) <= 32768 * Weight(num, den, j)
    {
      assert Abs(Entry(mem, j + 1)) <= 32768 * Weight(num, den, j + 1);
      CellBound(Entry(mem, j + 1), num[j], den[j], x, y, Weight(num, den, j + 1));
      hide Cell, Entry, Abs;
    }
    hide Abs, Weight, NextMem;
  }

  lemma CellBound(m: int, n: int, d: int, x: int, y: int, w: nat)
    requires Abs(m) <= 32768 * w && In16(x) && -32767 <= y <= 32767
    ensures Abs(Cell(m, n, d, x, y)) <= 32768 * (w + Abs(n) + Abs(d))
  {
    TimesBound(n, x);
    TimesBound(d, y);
    hide Times;
  }

  /** For every filter whose absolute coefficients add up to less than 16.0 (Q13) the output is the exact one if and
      only if the accumulator fits at every sample; below 8.0 it always fits. */
  lemma OutputExactIff(x: seq<int>, num: seq<int>, den: seq<int>, mem: seq<int>)
    requires |mem| == |num| == |den| > 0 && All32(mem) && Bounded(mem, num, den) && All16(x)
    requires Weight(num, den, 0) <= 131070
    ensures Run32(x, num, den, mem).out == Run(x, num, den, mem).out <==> FitsThroughout(x, num, den, mem)
    ensures Weight(num, den, 0) <= 65535 ==> FitsThroughout(x, num, den, mem)
  {
    forall i | 0 <= i < |x|
      ensures Abs(Accumulator(x, num, den, mem, i)) <= 32768 * Weight(num, den, 0)
    {
      ExactlyBounded(x[..i], num, den, mem);
      hide Run, Weight;
    }
    hide Accumulator, Run, Run32, Weight, Bounded;
    AgreesIffFits(x, num, den, mem);
  }

  /** The fixed-point code meets the difference equation on every 16-bit signal that keeps the accumulator in range. */
  lemma CodeIsDifferenceEquation(x: seq<int>, num: seq<int>, den: seq<int>, mem: seq<int>, i: nat)
    requires |mem| == |num| == |den| > 0 && All32(mem) && All16(x) && i < |x| && FitsThroughout(x, num, den, mem)
    ensures var y := Run32(x, num, den, mem).out;
      y[i] == Saturate(x[i] + Rounded(Entry(mem, i) + Convolution(num, x, i - 1, i) - Convolution(den, y, i - 1, i)))
  {
    hide FitsThroughout, Run, Run32, Convolution, Saturate, Rounded, Entry, All16, All32;
    FitsIsExact(x, num, den, mem);
    DirectForm(x, num, den, mem, i);
  }

  // ----- the all-zero filter -----

  /** The positive coefficients among the first k, added up. */
  function Positives(c: seq<int>, k: nat): nat
    requires k <= |c|
  {
    if k == 0 then 0 else Positives(c, k - 1) + if c[k - 1] > 0 then c[k - 1] else 0
  }

  /** And the negative ones, by size. */
  function Negatives(c: seq<int>, k: nat): nat
    requires k <= |c|
  {
    if k == 0 then 0 else Negatives(c, k - 1) + if c[k - 1] > 0 then 0 else -c[k - 1]
  }

  /** The greatest and the least sum the first k taps can make of 16-bit samples. */
  function Most(c: seq<int>, k: nat): int
    requires k <= |c|
  {
    32767 * Positives(c, k) + 32768 * Negatives(c, k)
  }

  function Least(c: seq<int>, k: nat): int
    requires k <= |c|
  {
    -32768 * Positives(c, k) - 32767 * Negatives(c, k)
  }

  /** No sum of full-scale samples is out of range: a condition on the coefficients alone. */
  predicate SumsFit(c: seq<int>) { Fits(Most(c, |c|)) && Fits(Least(c, |c|)) }

  function Clamped(c: seq<int>, k: int): (j: nat)
    ensures j <= |c|
  {
    if k < 0 then 0 else if k > |c| then |c| else k
  }

  lemma OneTap(c: int, x: int)
    requires In16(x)
    ensures c > 0 ==> -32768 * c <= Times(c, x) <= 32767 * c
    ensures c <= 0 ==> 32767 * c <= Times(c, x) <= -32768 * c
  {
    if c > 0 {
      Between(c, x);
    } else {
      Between(-c, x);
      assert Times(c, x) == -((-c) * x);
    }
  }

  lemma Between(c: nat, x: int)
    requires In16(x)
    ensures -32768 * c <= c * x <= 32767 * c
  {
    assert c * (x + 32768) >= 0;
    assert c * (32767 - x) >= 0;
  }

  /** The accumulator of any 16-bit signal lies between the two sums over the taps it uses. */
  lemma {:induction false} ConvolutionBounds(c: seq<int>, x: seq<int>, s: int, n: nat)
    requires All16(x) && n <= |x|
    ensures var from, to := Clamped(c, s - n + 1), Clamped(c, s + 1);
      Least(c, to) - Least(c, from) <= Convolution(c, x, s, n) <= Most(c, to) - Most(c, from)
  {
    if n > 0 {
      hide Most, Least, Times, Clamped, Entry;
      ConvolutionBounds(c, x, s, n - 1);
      OneTap(Entry(c, s - (n - 1)), x[n - 1]);
      TapSums(c, s - n + 1);
    }
  }

  /** One tap more. */
  lemma TapSums(c: seq<int>, k: int)
    ensures var from, to, tap := Clamped(c, k), Clamped(c, k + 1), Entry(c, k);
      && Most(c, to) - Most(c, from) == (if tap > 0 then 32767 * tap else -32768 * tap)
      && Least(c, to) - Least(c, from) == (if tap > 0 then -32768 * tap else 32767 * tap)
  {}

  lemma {:induction false} SumsGrow(c: seq<int>, k: nat, n: nat)
    requires k <= n <= |c|
    ensures Most(c, k) <= Most(c, n) && Least(c, n) <= Least(c, k) && Least(c, k) <= 0 <= Most(c, k)
    decreases n
  {
    if k < n {
      SumsGrow(c, k, n - 1);
      hide Positives, Negatives;
      TapSums(c, n - 1);
    }
  }

  /** The full-scale signal that makes the first t taps add up, or down. */
  function FullScale(c: seq<int>, t: nat, up: bool): (x: seq<int>)
    requires t <= |c|
    ensures |x| == t && All16(x)
  {
    seq(t, j requires 0 <= j < t => if (c[t - 1 - j] > 0) == up then 32767 else -32768)
  }

  lemma {:induction false} FullScaleSum(c: seq<int>, t: nat, up: bool, n: nat)
    requires n <= t <= |c|
    ensures Convolution(c, FullScale(c, t, up), t - 1, n) == if up then Most(c, t) - Most(c, t - n)
      else Least(c, t) - Least(c, t - n)
  {
    if n > 0 {
      FullScaleSum(c, t, up, n - 1);
      hide Positives, Negatives;
      TapSums(c, t - n);
    }
  }

  function Zeros(n: nat): (z: seq<int>)
    ensures |z| == n && All32(z)
  {
    seq(n, _ => 0)
  }

  lemma {:induction false} ZeroConvolution(m: nat, x: seq<int>, s: int, n: nat)
    requires n <= |x|
    ensures Convolution(Zeros(m), x, s, n) == 0
  {
    if n > 0 {
      ZeroConvolution(m, x, s, n - 1);
    }
  }

  /** From silence the accumulator is the sum of the taps over the last samples. */
  lemma FirAccumulator(x: seq<int>, num: seq<int>, i: nat)
    requires |num| > 0 && i <= |x|
    ensures var z := Zeros(|num|); Accumulator(x, num, z, z, i) == Convolution(num, x, i - 1, i)
  {
    hide Run, Convolution, Zeros;
    var z := Zeros(|num|);
    MemoryIsTail(x[..i], num, z, z, 0);
    ConvolutionPrefix(num, x, i, i - 1, i);
    ZeroConvolution(|num|, Run(x[..i], num, z, z).out, i - 1, i);
    ZeroBase(|num|, i);
  }

  lemma ZeroBase(m: nat, i: nat)
    ensures Entry(Zeros(m), i) == 0
  {}

  lemma {:induction false} FirMemory(x: seq<int>, num: seq<int>)
    requires |num| > 0
    ensures var z := Zeros(|num|); Run32(x, num, z, z).mem == Wrapped(Run(x, num, z, z).mem)
  {
    var z := Zeros(|num|);
    if x == [] {
      WrappedFits(z);
    } else {
      var a, s := x[..|x| - 1], x[|x| - 1];
      FirMemory(a, num);
      var f, f32 := Run(a, num, z, z), Run32(a, num, z, z);
      MemoryWraps(f.mem, num, z, s, Output(s, f.mem[0]));
      NoFeedback(f32.mem, num, s, Output32(s, f32.mem[0]), Output(s, f.mem[0]));
      hide NextMem, NextMem32, Output, Output32, Wrapped;
    }
  }

  lemma NoFeedback(mem: seq<int>, num: seq<int>, x: int, y: int, y': int)
    requires |mem| == |num|
    ensures NextMem32(mem, num, Zeros(|num|), x, y) == NextMem32(mem, num, Zeros(|num|), x, y')
  {}

  /** The all-zero filter computes this signal exactly. */
  predicate FirExact(x: seq<int>, num: seq<int>)
    requires |num| > 0
  {
    var z := Zeros(|num|); Run32(x, num, z, z).out == Run(x, num, z, z).out
  }

  /** Adding taps at full scale, the first sum out of range is not far out. */
  lemma {:induction false} FirstOut(c: seq<int>, n: nat, up: bool) returns (t: nat)
    requires All16(c) && n <= |c| && !Fits(if up then Most(c, n) else Least(c, n))
    ensures t <= n && !Fits(if up then Most(c, t) else Least(c, t))
    ensures WithinTurn(if up then Most(c, t) else Least(c, t))
  {
    SumsGrow(c, 0, n);
    if n > 0 && !Fits(if up then Most(c, n - 1) else Least(c, n - 1)) {
      t := FirstOut(c, n - 1, up);
    } else {
      t := n;
      if n > 0 {
        TapSums(c, n - 1);
        SumsGrow(c, 0, n - 1);
        hide Positives, Negatives;
      }
    }
  }

  /** A signal that goes wrong, for every filter whose sums do not fit. */
  lemma FirGoesWrong(num: seq<int>, up: bool) returns (x: seq<int>)
    requires |num| > 0 && All16(num) && !Fits(if up then Most(num, |num|) else Least(num, |num|))
    ensures All16(x) && !FirExact(x, num)
  {
    hide Most, Least, Run, Run32, Convolution, Fits, WithinTurn;
    var t: int := FirstOut(num, |num|, up);
    var z, a := Zeros(|num|), FullScale(num, t, up);
    x := a + [0];
    assert x[..t] == a && x[..t + 1] == x;
    FullScaleSum(num, t, up, t);
    NoTaps(num);
    ConvolutionPrefix(num, x, t, t - 1, t);
    FirAccumulator(x, num, t);
    FirMemory(a, num);
    OutputAgrees(0, Run(a, num, z, z).mem[0]);
    LastOutputs(x, num, t);
  }

  lemma NoTaps(c: seq<int>)
    ensures Most(c, 0) == 0 == Least(c, 0)
  {}

  lemma LastOutputs(x: seq<int>, num: seq<int>, t: nat)
    requires |num| > 0 && |x| == t + 1
    ensures var z := Zeros(|num|);
      && Run(x, num, z, z).out[t] == Output(x[t], Run(x[..t], num, z, z).mem[0])
      && Run32(x, num, z, z).out[t] == Output32(x[t], Run32(x[..t], num, z, z).mem[0])
  {
    hide Output, Output32, NextMem, NextMem32;
  }

  /** fir_mem16 from silence is exact on every 16-bit signal if and only if no full-scale sum of its coefficients is out
      of range. */
  lemma FirExactIff(num: seq<int>)
    requires |num| > 0 && All16(num)
    ensures SumsFit(num) <==> forall x | All16(x) :: FirExact(x, num)
  {
    hide Most, Least, FirExact;
    if SumsFit(num) {
      forall x | All16(x)
        ensures FirExact(x, num)
      {
        FirFits(x, num);
      }
    } else if !Fits(Most(num, |num|)) {
      var x := FirGoesWrong(num, true);
    } else {
      var x := FirGoesWrong(num, false);
    }
  }

  lemma FirFits(x: seq<int>, num: seq<int>)
    requires |num| > 0 && All16(x) && SumsFit(num)
    ensures FirExact(x, num)
  {
    hide Most, Least, Run, Run32, Convolution;
    var z := Zeros(|num|);
    forall i | 0 <= i < |x|
      ensures Fits(Accumulator(x, num, z, z, i))
    {
      FirAccumulator(x, num, i);
      ConvolutionBounds(num, x, i - 1, i);
      NoTaps(num);
      SumsGrow(num, Clamped(num, i), |num|);
    }
    FitsIsExact(x, num, z, z);
  }
}
