/** filter_mem16, iir_mem16 and fir_mem16 of filters.c, fixed-point build: 16-bit samples and coefficients, 32-bit
    accumulators that wrap, a rounding shift by LPC_SHIFT and saturation at 32767. */
module FixedFilters {
  import opened MachineWords
  import opened Remainders

  const LPC_SHIFT_FACTOR := 8192

  predicate All16(s: seq<int>) { forall i :: 0 <= i < |s| ==> In16(s[i]) }

  predicate All32(s: seq<int>) { forall i :: 0 <= i < |s| ==> In32(s[i]) }

  function Saturate(n: int): (s: int)
    ensures -32767 <= s <= 32767
  {
    if n > 32767 then 32767 else if n < -32767 then -32767 else n
  }

  /** Division by 2^13 rounding to nearest, halves upward. */
  function Rounded(n: int): int { (n + LPC_SHIFT_FACTOR / 2) / LPC_SHIFT_FACTOR }

  /** The output sample as the code computes it, each addition in 32 bits. */
  function Output32(x: int, m0: int): (y: int)
    ensures -32767 <= y <= 32767
  {
    Saturate(Wrap32(x + Wrap32(m0 + LPC_SHIFT_FACTOR / 2) / LPC_SHIFT_FACTOR))
  }

  /** The output sample in exact arithmetic. */
  function Output(x: int, m0: int): (y: int)
    ensures -32767 <= y <= 32767
  {
    Saturate(x + Rounded(m0))
  }

  /** Zero beyond the ends. */
  function Entry(s: seq<int>, k: int): int {
    if 0 <= k < |s| then s[k] else 0
  }

  datatype Filtered = Filtered(out: seq<int>, mem: seq<int>)

  function Cell32(m: int, n: int, d: int, x: int, y: int): (c: int)
    ensures In32(c)
  {
    Wrap32(Wrap32(m + Times(n, x)) + Times(d, -y))
  }

  function Cell(m: int, n: int, d: int, x: int, y: int): int {
    m + Times(n, x) - Times(d, y)
  }

  function NextMem32(mem: seq<int>, num: seq<int>, den: seq<int>, x: int, y: int): (m: seq<int>)
    requires |mem| == |num| == |den|
    ensures |m| == |mem|
  {
    seq(|mem|, j requires 0 <= j < |mem| => Cell32(Entry(mem, j + 1), num[j], den[j], x, y))
  }

  function NextMem(mem: seq<int>, num: seq<int>, den: seq<int>, x: int, y: int): (m: seq<int>)
    requires |mem| == |num| == |den|
    ensures |m| == |mem|
  {
    seq(|mem|, j requires 0 <= j < |mem| => Cell(Entry(mem, j + 1), num[j], den[j], x, y))
  }

  function Step32(f: Filtered, num: seq<int>, den: seq<int>, x: int): (g: Filtered)
    requires |f.mem| == |num| == |den| > 0
    ensures |g.out| == |f.out| + 1 && |g.mem| == |f.mem|
  {
    var y := Output32(x, f.mem[0]);
    Filtered(f.out + [y], NextMem32(f.mem, num, den, x, y))
  }

  function Step(f: Filtered, num: seq<int>, den: seq<int>, x: int): (g: Filtered)
    requires |f.mem| == |num| == |den| > 0
    ensures |g.out| == |f.out| + 1 && |g.mem| == |f.mem|
  {
    var y := Output(x, f.mem[0]);
    Filtered(f.out + [y], NextMem(f.mem, num, den, x, y))
  }

  function Run32(x: seq<int>, num: seq<int>, den: seq<int>, mem: seq<int>): (f: Filtered)
    requires |mem| == |num| == |den| > 0
    ensures |f.out| == |x| && |f.mem| == |mem|
  {
    if x == [] then Filtered([], mem) else Step32(Run32(x[..|x| - 1], num, den, mem), num, den, x[|x| - 1])
  }

  function Run(x: seq<int>, num: seq<int>, den: seq<int>, mem: seq<int>): (f: Filtered)
    requires |mem| == |num| == |den| > 0
    ensures |f.out| == |x| && |f.mem| == |mem|
  {
    if x == [] then Filtered([], mem) else Step(Run(x[..|x| - 1], num, den, mem), num, den, x[|x| - 1])
  }

  lemma RunOfNothing(num: seq<int>, den: seq<int>, mem: seq<int>)
    requires |mem| == |num| == |den| > 0
    ensures Run([], num, den, mem) == Filtered([], mem)
  {}

  lemma RunStep(x: seq<int>, num: seq<int>, den: seq<int>, mem: seq<int>, i: nat)
    requires |mem| == |num| == |den| > 0 && i < |x|
    ensures Run(x[..i + 1], num, den, mem) == Step(Run(x[..i], num, den, mem), num, den, x[i])
  {
    hide Step;
    assert x[..i + 1][..i] == x[..i];
  }

  lemma Run32Step(x: seq<int>, num: seq<int>, den: seq<int>, mem: seq<int>, i: nat)
    requires |mem| == |num| == |den| > 0 && i < |x|
    ensures Run32(x[..i + 1], num, den, mem) == Step32(Run32(x[..i], num, den, mem), num, den, x[i])
  {
    hide Step32;
    assert x[..i + 1][..i] == x[..i];
  }

  lemma Run32OfNothing(num: seq<int>, den: seq<int>, mem: seq<int>)
    requires |mem| == |num| == |den| > 0
    ensures Run32([], num, den, mem) == Filtered([], mem)
  {}

  // ----- the code -----

  method FilterMem16(x: array<int>, num: seq<int>, den: seq<int>, y: array<int>, N: int, mem: array<int>)
    requires 0 <= N <= x.Length && N <= y.Length
    requires mem.Length == |num| == |den| > 0 && mem != x && mem != y
    modifies y, mem
    ensures Run32(old(x[..N]), num, den, old(mem[..])) == Filtered(y[..N], mem[..])
    ensures forall i :: N <= i < y.Length ==> y[i] == old(y[i])
  {
    hide Run32, NextMem32, Output32;
    ghost var xs, m0 := x[..N], mem[..];
    Run32OfNothing(num, den, m0);
    var i := 0;
    while i < N
      invariant 0 <= i <= N
      invariant forall k :: i <= k < N ==> x[k] == xs[k]
      invariant Run32(xs[..i], num, den, m0) == Filtered(y[..i], mem[..])
      invariant forall k :: N <= k < y.Length ==> y[k] == old(y[k])
    {
      Run32Step(xs, num, den, m0, i);
      var xi := x[i];
      var yi := Output32(x[i], mem[0]);
      UpdateMem(num, den, mem, xi, yi);
      y[i] := yi;
      assert y[..i + 1] == y[..i] + [yi];
      i := i + 1;
    }
    assert xs[..N] == xs;
  }

  method UpdateMem(num: seq<int>, den: seq<int>, mem: array<int>, xi: int, yi: int)
    requires mem.Length == |num| == |den| > 0
    modifies mem
    ensures mem[..] == NextMem32(old(mem[..]), num, den, xi, yi)
  {
    hide Times, Wrap32;
    var nyi := -yi;
    var ord := mem.Length;
    ghost var m := mem[..];
    var j := 0;
    while j < ord - 1
      invariant 0 <= j <= ord - 1
      invariant forall k :: j <= k < ord ==> mem[k] == m[k]
      invariant forall k :: 0 <= k < j ==> mem[k] == NextMem32(m, num, den, xi, yi)[k]
    {
      mem[j] := Wrap32(Wrap32(mem[j + 1] + Times(num[j], xi)) + Times(den[j], nyi));
      j := j + 1;
    }
    mem[ord - 1] := Wrap32(Wrap32(Times(num[ord - 1], xi)) + Times(den[ord - 1], nyi));
  }

  // ----- no overflow -----

  function Abs(n: int): nat { if n < 0 then -n else n }

  /** The absolute coefficients from position j on, added up. */
  function Weight(num: seq<int>, den: seq<int>, j: nat): (w: nat)
    requires |num| == |den| && j <= |num|
    decreases |num| - j
  {
    if j == |num| then 0 else Abs(num[j]) + Abs(den[j]) + Weight(num, den, j + 1)
  }

  /** Every cell is small enough for the coefficients that still feed it. */
  predicate Bounded(mem: seq<int>, num: seq<int>, den: seq<int>)
    requires |mem| == |num| == |den|
  {
    forall j :: 0 <= j < |mem| ==> Abs(mem[j]) <= 32768 * Weight(num, den, j)
  }

  lemma WeightShrinks(num: seq<int>, den: seq<int>, j: nat)
    requires |num| == |den| && j <= |num|
    ensures Weight(num, den, j) <= Weight(num, den, 0)
    decreases j
  {
    if j > 0 {
      WeightShrinks(num, den, j - 1);
    }
  }

  lemma TimesBound(a: int, b: int)
    requires -32768 <= b <= 32768
    ensures Abs(Times(a, b)) <= 32768 * Abs(a)
    ensures Times(a, -b) == -Times(a, b)
  {
    if a < 0 {
      assert Times(a, b) == -((-a) * b);
      ScaledBound(-a, b);
    } else {
      ScaledBound(a, b);
    }
  }

  lemma ScaledBound(a: nat, b: int)
    requires -32768 <= b <= 32768
    ensures -(32768 * a) <= a * b <= 32768 * a
  {
    assert a * (b + 32768) >= 0 && a * (32768 - b) >= 0;
  }

  lemma CellFits(m: int, n: int, d: int, x: int, y: int, w: nat)
    requires Abs(m) <= 32768 * w && In16(x) && -32767 <= y <= 32767
    requires w + Abs(n) + Abs(d) <= 65535
    ensures Cell32(m, n, d, x, y) == Cell(m, n, d, x, y)
    ensures Abs(Cell(m, n, d, x, y)) <= 32768 * (w + Abs(n) + Abs(d))
  {
    hide Wrap32, Times;
    TimesBound(n, x);
    TimesBound(d, y);
  }

  lemma OutputFits(x: int, m0: int)
    requires In16(x) && Abs(m0) <= 32768 * 65535
    ensures Output32(x, m0) == Output(x, m0)
  {
    hide Wrap32;
  }

  lemma MemoryFits(mem: seq<int>, num: seq<int>, den: seq<int>, x: int, y: int, j: nat)
    requires |mem| == |num| == |den| && Bounded(mem, num, den) && Weight(num, den, 0) <= 65535
    requires In16(x) && -32767 <= y <= 32767 && j < |mem|
    ensures NextMem32(mem, num, den, x, y)[j] == NextMem(mem, num, den, x, y)[j]
    ensures Abs(NextMem(mem, num, den, x, y)[j]) <= 32768 * Weight(num, den, j)
  {
    hide Cell, Cell32;
    WeightShrinks(num, den, j);
    var w := Weight(num, den, j + 1);
    assert Weight(num, den, j) == Abs(num[j]) + Abs(den[j]) + w;
    assert Abs(Entry(mem, j + 1)) <= 32768 * w;
    hide Weight, Bounded, Abs, Entry;
    CellFits(Entry(mem, j + 1), num[j], den[j], x, y, Weight(num, den, j + 1));
  }

  /** While the absolute coefficients add up to less than 8.0 (Q13), one step neither wraps nor outgrows the bound. */
  lemma StepFits(f: Filtered, num: seq<int>, den: seq<int>, x: int)
    requires |f.mem| == |num| == |den| > 0 && Bounded(f.mem, num, den) && Weight(num, den, 0) <= 65535
    requires In16(x)
    ensures Step32(f, num, den, x) == Step(f, num, den, x)
    ensures Bounded(Step(f, num, den, x).mem, num, den)
  {
    OutputFits(x, f.mem[0]);
    var y := Output(x, f.mem[0]);
    hide Output, Output32, NextMem, NextMem32, Weight;
    forall j | 0 <= j < |f.mem|
      ensures NextMem32(f.mem, num, den, x, y)[j] == NextMem(f.mem, num, den, x, y)[j]
      ensures Abs(NextMem(f.mem, num, den, x, y)[j]) <= 32768 * Weight(num, den, j)
    {
      MemoryFits(f.mem, num, den, x, y, j);
    }
    assert NextMem32(f.mem, num, den, x, y) == NextMem(f.mem, num, den, x, y);
  }

  /** No 32-bit operation overflows on any run: the code computes the exact filter, and the memory it leaves behind
      is again good for the next run. */
  lemma {:induction false} NoOverflow(x: seq<int>, num: seq<int>, den: seq<int>, mem: seq<int>)
    requires |mem| == |num| == |den| > 0 && Bounded(mem, num, den) && Weight(num, den, 0) <= 65535
    requires All16(x)
    ensures Run32(x, num, den, mem) == Run(x, num, den, mem)
    ensures Bounded(Run(x, num, den, mem).mem, num, den)
  {
    hide Step, Step32, Bounded, Weight;
    if x != [] {
      NoOverflow(x[..|x| - 1], num, den, mem);
      StepFits(Run(x[..|x| - 1], num, den, mem), num, den, x[|x| - 1]);
    }
  }

  /** Past that bound the accumulator does wrap: three full-scale taps turn a negative sum positive. */
  lemma OverflowBeyondBound()
    ensures var num, den, x := [32767, 32767, 32767], [0, 0, 0], [-32768, -32768, -32768, 0];
      && Weight(num, den, 0) > 65535
      && Run(x, num, den, [0, 0, 0]).out[3] == -32767
      && Run32(x, num, den, [0, 0, 0]).out[3] == 32767
  {
    var num, den, x := [32767, 32767, 32767], [0, 0, 0], [-32768, -32768, -32768, 0];
    assert Weight(num, den, 0) == 98301 by {
      assert Weight(num, den, 3) == 0 && Weight(num, den, 2) == 32767 && Weight(num, den, 1) == 65534;
    }
    hide *;
    ThreeLoads(x, num, den);
    assert x[..4] == x;
    RunStep(x, num, den, [0, 0, 0], 3);
    Run32Step(x, num, den, [0, 0, 0], 3);
    LastOutput(Run(x[..3], num, den, [0, 0, 0]), Run32(x[..3], num, den, [0, 0, 0]), num, den);
  }

  lemma ThreeLoads(x: seq<int>, num: seq<int>, den: seq<int>)
    requires num == [32767, 32767, 32767] && den == [0, 0, 0] && |x| >= 3 && x[0] == x[1] == x[2] == -32768
    ensures Run(x[..3], num, den, [0, 0, 0]).mem[0] == 3 * (32767 * -32768)
    ensures Run32(x[..3], num, den, [0, 0, 0]).mem[0] == 3 * (32767 * -32768) + 0x1_0000_0000
  {
    hide Step, Step32, Run, Run32;
    RunOfNothing(num, den, [0, 0, 0]);
    Run32OfNothing(num, den, [0, 0, 0]);
    assert x[..0] == [];
    var t := 32767 * -32768;
    LoadedBy(x, num, den, 0, 0, 0, 0);
    LoadedBy(x, num, den, 1, t, t, t);
    LoadedBy(x, num, den, 2, 2 * t, 2 * t, t);
  }

  /** One more full-scale sample through three full-scale taps. */
  lemma LoadedBy(x: seq<int>, num: seq<int>, den: seq<int>, i: nat, a: int, b: int, c: int)
    requires num == [32767, 32767, 32767] && den == [0, 0, 0] && i < |x| && x[i] == -32768
    requires Run(x[..i], num, den, [0, 0, 0]).mem == Run32(x[..i], num, den, [0, 0, 0]).mem == [a, b, c]
    requires 2 * (32767 * -32768) <= b <= 0 && 2 * (32767 * -32768) <= c <= 0
    ensures var t := 32767 * -32768;
      && Run(x[..i + 1], num, den, [0, 0, 0]).mem == [b + t, c + t, t]
      && Run32(x[..i + 1], num, den, [0, 0, 0]).mem == [Wrap32(b + t), Wrap32(c + t), t]
  {
    hide Output, Output32, Run, Run32;
    RunStep(x, num, den, [0, 0, 0], i);
    Run32Step(x, num, den, [0, 0, 0], i);
  }

  lemma LastOutput(f: Filtered, g: Filtered, num: seq<int>, den: seq<int>)
    requires |f.mem| == |g.mem| == |num| == |den| == 3 && |f.out| == |g.out| == 3
    requires f.mem[0] == 3 * (32767 * -32768) && g.mem[0] == f.mem[0] + 0x1_0000_0000
    ensures Step(f, num, den, 0).out[3] == -32767
    ensures Step32(g, num, den, 0).out[3] == 32767
  {}

  // ----- streaming and the direct form -----

  lemma {:induction false} RunInPieces(a: seq<int>, b: seq<int>, num: seq<int>, den: seq<int>, mem: seq<int>)
    requires |mem| == |num| == |den| > 0
    ensures var f := Run32(a, num, den, mem);
      var g := Run32(b, num, den, f.mem);
      Run32(a + b, num, den, mem) == Filtered(f.out + g.out, g.mem)
  {
    hide NextMem32, Output32;
    if b == [] {
      assert a + b == a;
    } else {
      RunInPieces(a, b[..|b| - 1], num, den, mem);
      assert (a + b)[..|a + b| - 1] == a + b[..|b| - 1];
    }
  }

  /** The sum of c[s-t]*x[t] over t < n. */
  function Convolution(c: seq<int>, x: seq<int>, s: int, n: nat): int
    requires n <= |x|
  {
    if n == 0 then 0 else Convolution(c, x, s, n - 1) + Times(Entry(c, s - (n - 1)), x[n - 1])
  }

  lemma {:induction false} ConvolutionPrefix(c: seq<int>, x: seq<int>, k: nat, s: int, n: nat)
    requires n <= k <= |x|
    ensures Convolution(c, x[..k], s, n) == Convolution(c, x, s, n)
  {
    hide Times;
    if n > 0 {
      ConvolutionPrefix(c, x, k, s, n - 1);
    }
  }

  lemma {:induction false} BeyondOrder(c: seq<int>, x: seq<int>, s: int, n: nat)
    requires n <= |x| && s - (n - 1) >= |c|
    ensures Convolution(c, x, s, n) == 0
  {
    if n > 0 {
      BeyondOrder(c, x, s, n - 1);
    }
  }

  lemma StepCell(f: Filtered, num: seq<int>, den: seq<int>, x: int, j: nat)
    requires |f.mem| == |num| == |den| > 0 && j < |f.mem|
    ensures var g := Step(f, num, den, x);
      && g.out[..|f.out|] == f.out
      && g.out[|f.out|] == Output(x, f.mem[0])
      && g.mem[j] == Entry(f.mem, j + 1) + Times(num[j], x) - Times(den[j], g.out[|f.out|])
  {
    hide Times, Output;
  }

  lemma LastStep(x: seq<int>, num: seq<int>, den: seq<int>, mem: seq<int>, j: nat)
    requires |mem| == |num| == |den| > 0 && j < |mem| && x != []
    ensures var n := |x| - 1;
      var f, g := Run(x[..n], num, den, mem), Run(x, num, den, mem);
      && g.out[..n] == f.out
      && g.out[n] == Output(x[n], f.mem[0])
      && g.mem[j] == Entry(f.mem, j + 1) + Times(num[j], x[n]) - Times(den[j], g.out[n])
  {
    hide Times, Output, Step, Run;
    var n := |x| - 1;
    assert x[..n + 1] == x;
    RunStep(x, num, den, mem, n);
    StepCell(Run(x[..n], num, den, mem), num, den, x[n], j);
  }

  /** The memory cells are the tail sums of num*x - den*y, on top of what is left of the initial memory. */
  lemma {:induction false} MemoryIsTail(x: seq<int>, num: seq<int>, den: seq<int>, mem: seq<int>, j: nat)
    requires |mem| == |num| == |den| > 0 && j < |mem|
    ensures var f, n := Run(x, num, den, mem), |x|;
      f.mem[j] == Entry(mem, n + j) + Convolution(num, x, j + n - 1, n) - Convolution(den, f.out, j + n - 1, n)
    decreases |x|
  {
    hide Run, Times, Output;
    var n := |x|;
    if n == 0 {
      RunOfNothing(num, den, mem);
    } else {
      var a, s := x[..n - 1], j + n - 1;
      LastStep(x, num, den, mem, j);
      var f, g := Run(a, num, den, mem), Run(x, num, den, mem);
      if j + 1 < |mem| {
        MemoryIsTail(a, num, den, mem, j + 1);
      } else {
        BeyondOrder(num, a, s, n - 1);
        BeyondOrder(den, f.out, s, n - 1);
      }
      ConvolutionPrefix(num, x, n - 1, s, n - 1);
      ConvolutionPrefix(den, g.out, n - 1, s, n - 1);
    }
  }

  /** Each output is the saturated, rounded difference equation over the past inputs and outputs. */
  lemma {:induction false} DirectForm(x: seq<int>, num: seq<int>, den: seq<int>, mem: seq<int>, i: nat)
    requires |mem| == |num| == |den| > 0 && i < |x|
    ensures var y := Run(x, num, den, mem).out;
      y[i] == Saturate(x[i] + Rounded(Entry(mem, i) + Convolution(num, x, i - 1, i) - Convolution(den, y, i - 1, i)))
    decreases |x|
  {
    hide Run, Times, Saturate, Rounded;
    var n := |x| - 1;
    var a := x[..n];
    LastStep(x, num, den, mem, 0);
    var f, g := Run(a, num, den, mem), Run(x, num, den, mem);
    ConvolutionPrefix(num, x, n, i - 1, i);
    ConvolutionPrefix(den, g.out, n, i - 1, i);
    if i < n {
      DirectForm(a, num, den, mem, i);
      assert g.out[..n][i] == g.out[i];
    } else {
      MemoryIsTail(a, num, den, mem, 0);
    }
  }

  // ----- the all-pole and all-zero cases -----

  method IirMem16(x: array<int>, den: seq<int>, y: array<int>, N: int, mem: array<int>)
    requires 0 <= N <= x.Length && N <= y.Length
    requires mem.Length == |den| > 0 && mem != x && mem != y
    requires All32(mem[..])
    modifies y, mem
    ensures Run32(old(x[..N]), seq(|den|, _ => 0), den, old(mem[..])) == Filtered(y[..N], mem[..])
    ensures forall i :: N <= i < y.Length ==> y[i] == old(y[i])
  {
    hide Run32, NextMem32, Output32;
    ghost var xs, m0, num := x[..N], mem[..], seq(|den|, _ => 0);
    Run32OfNothing(num, den, m0);
    var i := 0;
    while i < N
      invariant 0 <= i <= N
      invariant forall k :: i <= k < N ==> x[k] == xs[k]
      invariant Run32(xs[..i], num, den, m0) == Filtered(y[..i], mem[..])
      invariant All32(mem[..])
      invariant forall k :: N <= k < y.Length ==> y[k] == old(y[k])
    {
      Run32Step(xs, num, den, m0, i);
      var yi := Output32(x[i], mem[0]);
      UpdatePoles(den, mem, x[i], yi);
      y[i] := yi;
      assert y[..i + 1] == y[..i] + [yi];
      i := i + 1;
    }
    assert xs[..N] == xs;
  }

  method UpdatePoles(den: seq<int>, mem: array<int>, ghost xi: int, yi: int)
    requires mem.Length == |den| > 0 && All32(mem[..])
    modifies mem
    ensures mem[..] == NextMem32(old(mem[..]), seq(|den|, _ => 0), den, xi, yi)
    ensures All32(mem[..])
  {
    hide Wrap32;
    ghost var m, num := mem[..], seq(|den|, _ => 0);
    assert Times(0, xi) == 0;
    hide Times;
    var nyi := -yi;
    var ord := mem.Length;
    var j := 0;
    while j < ord - 1
      invariant 0 <= j <= ord - 1
      invariant forall k :: j <= k < ord ==> mem[k] == m[k]
      invariant forall k :: 0 <= k < j ==> mem[k] == NextMem32(m, num, den, xi, yi)[k]
    {
      assert In32(m[j + 1]);
      mem[j] := Wrap32(mem[j + 1] + Times(den[j], nyi));
      j := j + 1;
    }
    mem[ord - 1] := Wrap32(Times(den[ord - 1], nyi));
  }

  method FirMem16(x: array<int>, num: seq<int>, y: array<int>, N: int, mem: array<int>)
    requires 0 <= N <= x.Length && N <= y.Length
    requires mem.Length == |num| > 0 && mem != x && mem != y
    modifies y, mem
    ensures Run32(old(x[..N]), num, seq(|num|, _ => 0), old(mem[..])) == Filtered(y[..N], mem[..])
    ensures forall i :: N <= i < y.Length ==> y[i] == old(y[i])
  {
    hide Run32, NextMem32, Output32;
    ghost var xs, m0, den := x[..N], mem[..], seq(|num|, _ => 0);
    Run32OfNothing(num, den, m0);
    var i := 0;
    while i < N
      invariant 0 <= i <= N
      invariant forall k :: i <= k < N ==> x[k] == xs[k]
      invariant Run32(xs[..i], num, den, m0) == Filtered(y[..i], mem[..])
      invariant forall k :: N <= k < y.Length ==> y[k] == old(y[k])
    {
      Run32Step(xs, num, den, m0, i);
      var xi := x[i];
      var yi := Output32(x[i], mem[0]);
      UpdateZeros(num, mem, xi, yi);
      y[i] := yi;
      assert y[..i + 1] == y[..i] + [yi];
      i := i + 1;
    }
    assert xs[..N] == xs;
  }

  method UpdateZeros(num: seq<int>, mem: array<int>, xi: int, ghost yi: int)
    requires mem.Length == |num| > 0
    modifies mem
    ensures mem[..] == NextMem32(old(mem[..]), num, seq(|num|, _ => 0), xi, yi)
  {
    hide Wrap32;
    ghost var m, den := mem[..], seq(|num|, _ => 0);
    assert Times(0, -yi) == 0;
    hide Times;
    var ord := mem.Length;
    var j := 0;
    while j < ord - 1
      invariant 0 <= j <= ord - 1
      invariant forall k :: j <= k < ord ==> mem[k] == m[k]
      invariant forall k :: 0 <= k < j ==> mem[k] == NextMem32(m, num, den, xi, yi)[k]
    {
      mem[j] := Wrap32(mem[j + 1] + Times(num[j], xi));
      j := j + 1;
    }
    mem[ord - 1] := Wrap32(Times(num[ord - 1], xi));
  }
}
