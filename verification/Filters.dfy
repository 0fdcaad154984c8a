/** filter_mem16, iir_mem16, fir_mem16 and the perceptual filters of filters.c, float build: the transposed
    form with its memory, the difference equation it solves, and the inverse laws. */
module Filters {
  import opened Signals

  datatype Filtered = Filtered(out: Signal, mem: seq<real>)

  /** The memory after one sample. */
  function NextMem(mem: seq<real>, num: seq<real>, den: seq<real>, x: real, y: real): (m: seq<real>)
    requires |mem| == |num| == |den|
    ensures |m| == |mem|
  {
    seq(|mem|, j requires 0 <= j < |mem| =>
      Entry(mem, j + 1) + Product(num[j], x) + Product(den[j], -y))
  }

  /** One sample: the output leaves, the memory moves on. */
  function Step(f: Filtered, num: seq<real>, den: seq<real>, x: real): (g: Filtered)
    requires |f.mem| == |num| == |den| > 0
    ensures |g.out| == |f.out| + 1 && |g.mem| == |f.mem|
  {
    var y := x + f.mem[0];
    Filtered(f.out + [y], NextMem(f.mem, num, den, x, y))
  }

  /** All samples in turn. */
  function Run(x: Signal, num: seq<real>, den: seq<real>, mem: seq<real>): (f: Filtered)
    requires |mem| == |num| == |den| > 0
    ensures |f.out| == |x| && |f.mem| == |mem|
  {
    if x == [] then Filtered([], mem) else Step(Run(x[..|x| - 1], num, den, mem), num, den, x[|x| - 1])
  }

  lemma RunOfNothing(num: seq<real>, den: seq<real>, mem: seq<real>)
    requires |mem| == |num| == |den| > 0
    ensures Run([], num, den, mem) == Filtered([], mem)
  {}

  lemma RunStep(x: Signal, num: seq<real>, den: seq<real>, mem: seq<real>, i: nat)
    requires |mem| == |num| == |den| > 0 && i < |x|
    ensures Run(x[..i + 1], num, den, mem) == Step(Run(x[..i], num, den, mem), num, den, x[i])
  {
    hide Step;
    assert x[..i + 1][..i] == x[..i];
  }

  /** The transposed filter, in place if x and y are the same buffer. */
  method FilterMem16(x: array<real>, num: seq<real>, den: seq<real>, y: array<real>, N: int, mem: array<real>)
    requires 0 <= N <= x.Length && N <= y.Length
    requires mem.Length == |num| == |den| > 0 && mem != x && mem != y
    modifies y, mem
    ensures var f := Run(old(x[..N]), num, den, old(mem[..]));
      y[..N] == f.out && mem[..] == f.mem
    ensures forall i :: N <= i < y.Length ==> y[i] == old(y[i])
  {
    hide Run, NextMem;
    ghost var xs, m0 := x[..N], mem[..];
    RunOfNothing(num, den, m0);
    var i := 0;
    while i < N
      invariant 0 <= i <= N
      invariant forall k :: i <= k < N ==> x[k] == xs[k]
      invariant Run(xs[..i], num, den, m0) == Filtered(y[..i], mem[..])
      invariant forall k :: N <= k < y.Length ==> y[k] == old(y[k])
    {
      RunStep(xs, num, den, m0, i);
      var xi := x[i];
      var yi := x[i] + mem[0];
      UpdateMem(num, den, mem, xi, yi);
      y[i] := yi;
      assert y[..i + 1] == y[..i] + [yi];
      i := i + 1;
    }
    assert xs[..N] == xs;
  }

  /** The inner loop: every memory cell takes over its neighbour plus the new sample's share. */
  method UpdateMem(num: seq<real>, den: seq<real>, mem: array<real>, xi: real, yi: real)
    requires mem.Length == |num| == |den| > 0
    modifies mem
    ensures mem[..] == NextMem(old(mem[..]), num, den, xi, yi)
  {
    hide Product;
    var nyi := -yi;
    var ord := mem.Length;
    ghost var m := mem[..];
    var j := 0;
    while j < ord - 1
      invariant 0 <= j <= ord - 1
      invariant forall k :: j <= k < ord ==> mem[k] == m[k]
      invariant forall k :: 0 <= k < j ==> mem[k] == NextMem(m, num, den, xi, yi)[k]
    {
      mem[j] := mem[j + 1] + Product(num[j], xi) + Product(den[j], nyi);
      j := j + 1;
    }
    mem[ord - 1] := Product(num[ord - 1], xi) + Product(den[ord - 1], nyi);
  }

  /** The all-pole filter is the general one with no numerator. */
  method IirMem16(x: array<real>, den: seq<real>, y: array<real>, N: int, mem: array<real>)
    requires 0 <= N <= x.Length && N <= y.Length
    requires mem.Length == |den| > 0 && mem != x && mem != y
    modifies y, mem
    ensures var f := Run(old(x[..N]), Silence(|den|), den, old(mem[..]));
      y[..N] == f.out && mem[..] == f.mem
    ensures forall i :: N <= i < y.Length ==> y[i] == old(y[i])
  {
    hide Run, NextMem;
    ghost var xs, m0, num := x[..N], mem[..], Silence(|den|);
    RunOfNothing(num, den, m0);
    var i := 0;
    while i < N
      invariant 0 <= i <= N
      invariant forall k :: i <= k < N ==> x[k] == xs[k]
      invariant Run(xs[..i], num, den, m0) == Filtered(y[..i], mem[..])
      invariant forall k :: N <= k < y.Length ==> y[k] == old(y[k])
    {
      RunStep(xs, num, den, m0, i);
      var yi := x[i] + mem[0];
      UpdatePoles(den, mem, x[i], yi);
      y[i] := yi;
      assert y[..i + 1] == y[..i] + [yi];
      i := i + 1;
    }
    assert xs[..N] == xs;
  }

  method UpdatePoles(den: seq<real>, mem: array<real>, ghost xi: real, yi: real)
    requires mem.Length == |den| > 0
    modifies mem
    ensures mem[..] == NextMem(old(mem[..]), Silence(|den|), den, xi, yi)
  {
    hide Product;
    ZeroProduct(xi);
    var nyi := -yi;
    var ord := mem.Length;
    ghost var m := mem[..];
    var j := 0;
    while j < ord - 1
      invariant 0 <= j <= ord - 1
      invariant forall k :: j <= k < ord ==> mem[k] == m[k]
      invariant forall k :: 0 <= k < j ==> mem[k] == NextMem(m, Silence(ord), den, xi, yi)[k]
    {
      mem[j] := mem[j + 1] + Product(den[j], nyi);
      j := j + 1;
    }
    mem[ord - 1] := Product(den[ord - 1], nyi);
  }

  /** The all-zero filter is the general one with no denominator. */
  method FirMem16(x: array<real>, num: seq<real>, y: array<real>, N: int, mem: array<real>)
    requires 0 <= N <= x.Length && N <= y.Length
    requires mem.Length == |num| > 0 && mem != x && mem != y
    modifies y, mem
    ensures var f := Run(old(x[..N]), num, Silence(|num|), old(mem[..]));
      y[..N] == f.out && mem[..] == f.mem
    ensures forall i :: N <= i < y.Length ==> y[i] == old(y[i])
  {
    hide Run, NextMem;
    ghost var xs, m0, den := x[..N], mem[..], Silence(|num|);
    RunOfNothing(num, den, m0);
    var i := 0;
    while i < N
      invariant 0 <= i <= N
      invariant forall k :: i <= k < N ==> x[k] == xs[k]
      invariant Run(xs[..i], num, den, m0) == Filtered(y[..i], mem[..])
      invariant forall k :: N <= k < y.Length ==> y[k] == old(y[k])
    {
      RunStep(xs, num, den, m0, i);
      var xi := x[i];
      var yi := x[i] + mem[0];
      UpdateZeros(num, mem, xi, yi);
      y[i] := yi;
      assert y[..i + 1] == y[..i] + [yi];
      i := i + 1;
    }
    assert xs[..N] == xs;
  }

  method UpdateZeros(num: seq<real>, mem: array<real>, xi: real, ghost yi: real)
    requires mem.Length == |num| > 0
    modifies mem
    ensures mem[..] == NextMem(old(mem[..]), num, Silence(|num|), xi, yi)
  {
    hide Product;
    ZeroProduct(-yi);
    var ord := mem.Length;
    ghost var m := mem[..];
    var j := 0;
    while j < ord - 1
      invariant 0 <= j <= ord - 1
      invariant forall k :: j <= k < ord ==> mem[k] == m[k]
      invariant forall k :: 0 <= k < j ==> mem[k] == NextMem(m, num, Silence(ord), xi, yi)[k]
    {
      mem[j] := mem[j + 1] + Product(num[j], xi);
      j := j + 1;
    }
    mem[ord - 1] := Product(num[ord - 1], xi);
  }

  // ----- streaming -----

  /** Filtering a long signal is filtering its pieces with the memory carried over. */
  lemma {:induction false} RunInPieces(a: Signal, b: Signal, num: seq<real>, den: seq<real>, mem: seq<real>)
    requires |mem| == |num| == |den| > 0
    ensures var f := Run(a, num, den, mem);
      var g := Run(b, num, den, f.mem);
      Run(a + b, num, den, mem) == Filtered(f.out + g.out, g.mem)
  {
    hide NextMem;
    if b == [] {
      assert a + b == a;
    } else {
      RunInPieces(a, b[..|b| - 1], num, den, mem);
      assert (a + b)[..|a + b| - 1] == a + b[..|b| - 1];
    }
  }

  // ----- the difference equation -----

  lemma {:induction false} ConvolutionPrefix(c: seq<real>, x: Signal, k: nat, s: int, n: nat)
    requires n <= k <= |x|
    ensures Convolution(c, x[..k], s, n) == Convolution(c, x, s, n)
  {
    hide Product;
    if n > 0 {
      ConvolutionPrefix(c, x, k, s, n - 1);
    }
  }

  /** What memory cell j holds after the whole signal: the part of the initial memory not yet shifted out,
      and the tail sums of num*x - den*y that future outputs will need. */
  lemma {:induction false} MemoryIsTail(x: Signal, num: seq<real>, den: seq<real>, mem: seq<real>, j: nat)
    requires |mem| == |num| == |den| > 0 && j < |mem|
    ensures var f, n := Run(x, num, den, mem), |x|;
      f.mem[j] == Entry(mem, n + j) + Convolution(num, x, j + n - 1, n) - Convolution(den, f.out, j + n - 1, n)
    decreases |x|
  {
    var n := |x|;
    if n == 0 {
      RunOfNothing(num, den, mem);
    } else {
      var a, s := x[..n - 1], j + n - 1;
      var f, g := Run(a, num, den, mem), Run(x, num, den, mem);
      LastStep(x, num, den, mem, j);
      hide Run, Product;
      if j + 1 < |mem| {
        MemoryIsTail(a, num, den, mem, j + 1);
      } else {
        BeyondOrder(num, a, s, n - 1);
        BeyondOrder(den, f.out, s, n - 1);
      }
      ConvolutionPrefix(num, x, n - 1, s, n - 1);
      ConvolutionPrefix(den, g.out, n - 1, s, n - 1);
    }
  }

  lemma StepCell(f: Filtered, num: seq<real>, den: seq<real>, x: real, j: nat)
    requires |f.mem| == |num| == |den| > 0 && j < |f.mem|
    ensures var g := Step(f, num, den, x);
      && g.out[..|f.out|] == f.out
      && g.mem[j] == Entry(f.mem, j + 1) + Product(num[j], x) - Product(den[j], g.out[|f.out|])
  {
    hide Product;
    NegatedProduct(den[j], x + f.mem[0]);
  }

  lemma LastStep(x: Signal, num: seq<real>, den: seq<real>, mem: seq<real>, j: nat)
    requires |mem| == |num| == |den| > 0 && j < |mem| && x != []
    ensures var n := |x| - 1;
      var f, g := Run(x[..n], num, den, mem), Run(x, num, den, mem);
      && g.out[..n] == f.out
      && g.mem[j] == Entry(f.mem, j + 1) + Product(num[j], x[n]) - Product(den[j], g.out[n])
  {
    hide Run, Product;
    var n := |x| - 1;
    assert x[..n + 1] == x;
    RunStep(x, num, den, mem, n);
    var f := Run(x[..n], num, den, mem);
    StepCell(f, num, den, x[n], j);
    hide Step;
  }

  lemma {:induction false} BeyondOrder(c: seq<real>, x: Signal, s: int, n: nat)
    requires n <= |x| && s - (n - 1) >= |c|
    ensures Convolution(c, x, s, n) == 0.0
  {
    hide Product;
    if n > 0 {
      BeyondOrder(c, x, s, n - 1);
      ZeroProduct(x[n - 1]);
    }
  }

  /** Each output is its input plus what is left of the initial memory plus the direct-form sums. */
  lemma {:induction false} DirectForm(x: Signal, num: seq<real>, den: seq<real>, mem: seq<real>, i: nat)
    requires |mem| == |num| == |den| > 0 && i < |x|
    ensures var y := Run(x, num, den, mem).out;
      y[i] == x[i] + Entry(mem, i) + Convolution(num, x, i - 1, i) - Convolution(den, y, i - 1, i)
    decreases |x|
  {
    var n := |x|;
    var a := x[..n - 1];
    var f, g := Run(a, num, den, mem), Run(x, num, den, mem);
    assert g.out[..n - 1] == f.out;
    hide Product, NextMem;
    if i < n - 1 {
      DirectForm(a, num, den, mem, i);
      ConvolutionPrefix(num, x, n - 1, i - 1, i);
      ConvolutionPrefix(den, g.out, n - 1, i - 1, i);
    } else {
      MemoryIsTail(a, num, den, mem, 0);
      ConvolutionPrefix(num, x, n - 1, i - 1, i);
      ConvolutionPrefix(den, g.out, n - 1, i - 1, i);
    }
  }

  /** From zero memory the filter solves (1 + den) y = (1 + num) x. */
  lemma FilterEquation(x: Signal, num: seq<real>, den: seq<real>, y: Signal)
    requires |num| == |den| > 0
    requires y == Run(x, num, den, Silence(|num|)).out
    ensures Shape(den, y) == Shape(num, x)
  {
    forall i | 0 <= i < |x|
      ensures Shape(den, y)[i] == Shape(num, x)[i]
    {
      hide Product, Shape, Run, Convolution;
      DirectForm(x, num, den, Silence(|num|), i);
      ShapeAt(den, y, i);
      ShapeAt(num, x, i);
    }
  }

  lemma {:induction false} PolyOfSilence(n: nat, x: Signal)
    ensures Poly(Silence(n), x) == Silence(|x|)
    decreases n
  {
    if n > 0 {
      PolyOfSilence(n - 1, x);
      assert Silence(n)[1..] == Silence(n - 1);
      hide Product;
      forall i | 0 <= i < |x|
        ensures Product(0.0, x[i]) == 0.0
      {
        ZeroProduct(x[i]);
      }
    }
  }

  lemma ShapeOfSilence(n: nat, x: Signal)
    ensures Shape(Silence(n), x) == x
  {
    PolyOfSilence(n, x);
    hide Poly;
  }

  // ----- inverse laws -----

  function Iir(x: Signal, den: seq<real>): (y: Signal)
    requires |den| > 0
    ensures |y| == |x|
  {
    Run(x, Silence(|den|), den, Silence(|den|)).out
  }

  function Fir(x: Signal, num: seq<real>): (y: Signal)
    requires |num| > 0
    ensures |y| == |x|
  {
    Run(x, num, Silence(|num|), Silence(|num|)).out
  }

  lemma IirEquation(x: Signal, den: seq<real>)
    requires |den| > 0
    ensures Shape(den, Iir(x, den)) == x
  {
    hide Shape, Run;
    FilterEquation(x, Silence(|den|), den, Iir(x, den));
    ShapeOfSilence(|den|, x);
  }

  lemma FirEquation(x: Signal, num: seq<real>)
    requires |num| > 0
    ensures Fir(x, num) == Shape(num, x)
  {
    hide Shape, Run;
    FilterEquation(x, num, Silence(|num|), Fir(x, num));
    ShapeOfSilence(|num|, Fir(x, num));
  }

  /** fir_mem16 and iir_mem16 with the same coefficients undo each other. */
  lemma FirUndoesIir(x: Signal, c: seq<real>)
    requires |c| > 0
    ensures Fir(Iir(x, c), c) == x
    ensures Iir(Fir(x, c), c) == x
  {
    hide Shape, Iir, Fir;
    IirEquation(x, c);
    FirEquation(Iir(x, c), c);
    FirEquation(x, c);
    IirEquation(Fir(x, c), c);
    ShapeInjective(c, Iir(Fir(x, c), c), x);
  }

  /** 1/A, then B/C. */
  function Synthesis(x: Signal, ak: seq<real>, awk1: seq<real>, awk2: seq<real>): (y: Signal)
    requires |ak| == |awk1| == |awk2| > 0
    ensures |y| == |x|
  {
    Run(Iir(x, ak), awk1, awk2, Silence(|ak|)).out
  }

  /** A/B, then C. */
  function Residue(x: Signal, ak: seq<real>, awk1: seq<real>, awk2: seq<real>): (y: Signal)
    requires |ak| == |awk1| == |awk2| > 0
    ensures |y| == |x|
  {
    Fir(Run(x, ak, awk1, Silence(|ak|)).out, awk2)
  }

  /** The synthesis y solves A C y = B x: ak and awk2 are its poles and awk1 its zeros. */
  lemma SynthesisEquation(x: Signal, ak: seq<real>, awk1: seq<real>, awk2: seq<real>)
    requires |ak| == |awk1| == |awk2| > 0
    ensures Shape(ak, Shape(awk2, Synthesis(x, ak, awk1, awk2))) == Shape(awk1, x)
  {
    hide Shape, Run, Iir;
    var u := Iir(x, ak);
    var y := Run(u, awk1, awk2, Silence(|ak|)).out;
    IirEquation(x, ak);
    FilterEquation(u, awk1, awk2, y);
    ShapeCommutes(ak, awk1, u);
  }

  /** The residue r solves B r = A C x. */
  lemma ResidueEquation(x: Signal, ak: seq<real>, awk1: seq<real>, awk2: seq<real>)
    requires |ak| == |awk1| == |awk2| > 0
    ensures Shape(awk1, Residue(x, ak, awk1, awk2)) == Shape(awk2, Shape(ak, x))
  {
    hide Shape, Run, Fir;
    var v := Run(x, ak, awk1, Silence(|ak|)).out;
    FilterEquation(x, ak, awk1, v);
    FirEquation(v, awk2);
    ShapeCommutes(awk1, awk2, v);
  }

  /** residue_percep_zero16 recovers every excitation from what syn_percep_zero16 made of it. */
  lemma ResidueUndoesSynthesis(x: Signal, ak: seq<real>, awk1: seq<real>, awk2: seq<real>)
    requires |ak| == |awk1| == |awk2| > 0
    ensures Residue(Synthesis(x, ak, awk1, awk2), ak, awk1, awk2) == x
  {
    hide Shape, Run, Iir, Fir;
    var u := Iir(x, ak);
    var y := Run(u, awk1, awk2, Silence(|ak|)).out;
    var v := Run(y, ak, awk1, Silence(|ak|)).out;
    var w := Fir(v, awk2);
    IirEquation(x, ak);
    FilterEquation(u, awk1, awk2, y);
    FilterEquation(y, ak, awk1, v);
    FirEquation(v, awk2);
    calc {
      Shape(awk1, w);
      { ShapeCommutes(awk1, awk2, v); }
      Shape(awk2, Shape(ak, y));
      { ShapeCommutes(awk2, ak, y); }
      Shape(ak, Shape(awk1, u));
      { ShapeCommutes(ak, awk1, u); }
      Shape(awk1, x);
    }
    ShapeInjective(awk1, w, x);
  }

  /** And conversely, the synthesis filter rebuilds every signal from its residue. */
  lemma SynthesisUndoesResidue(x: Signal, ak: seq<real>, awk1: seq<real>, awk2: seq<real>)
    requires |ak| == |awk1| == |awk2| > 0
    ensures Synthesis(Residue(x, ak, awk1, awk2), ak, awk1, awk2) == x
  {
    hide Shape, Run, Iir, Fir;
    var v := Run(x, ak, awk1, Silence(|ak|)).out;
    var w := Fir(v, awk2);
    var u := Iir(w, ak);
    var y := Run(u, awk1, awk2, Silence(|ak|)).out;
    FilterEquation(x, ak, awk1, v);
    FirEquation(v, awk2);
    IirEquation(w, ak);
    FilterEquation(u, awk1, awk2, y);
    calc {
      Shape(ak, Shape(awk2, y));
      Shape(ak, Shape(awk1, u));
      { ShapeCommutes(ak, awk1, u); }
      Shape(awk1, Shape(awk2, v));
      { ShapeCommutes(awk1, awk2, v); }
      Shape(awk2, Shape(ak, x));
      { ShapeCommutes(awk2, ak, x); }
      Shape(ak, Shape(awk2, x));
    }
    ShapeInjective(ak, Shape(awk2, y), Shape(awk2, x));
    ShapeInjective(awk2, y, x);
  }

  method SynPercepZero16(xx: array<real>, ak: seq<real>, awk1: seq<real>, awk2: seq<real>, y: array<real>, N: int)
    requires 0 <= N <= xx.Length && N <= y.Length && |ak| == |awk1| == |awk2| > 0
    modifies y
    ensures y[..N] == Synthesis(old(xx[..N]), ak, awk1, awk2)
    ensures Shape(ak, Shape(awk2, y[..N])) == Shape(awk1, old(xx[..N]))
    ensures forall i :: N <= i < y.Length ==> y[i] == old(y[i])
  {
    SynthesisEquation(xx[..N], ak, awk1, awk2);
    hide Shape;
    var mem := new real[|ak|](_ => 0.0);
    assert mem[..] == Silence(|ak|);
    IirMem16(xx, ak, y, N, mem);
    mem := new real[|ak|](_ => 0.0);
    assert mem[..] == Silence(|ak|);
    FilterMem16(y, awk1, awk2, y, N, mem);
  }

  method ResiduePercepZero16(xx: array<real>, ak: seq<real>, awk1: seq<real>, awk2: seq<real>, y: array<real>, N: int)
    requires 0 <= N <= xx.Length && N <= y.Length && |ak| == |awk1| == |awk2| > 0
    modifies y
    ensures y[..N] == Residue(old(xx[..N]), ak, awk1, awk2)
    ensures Shape(awk1, y[..N]) == Shape(awk2, Shape(ak, old(xx[..N])))
    ensures forall i :: N <= i < y.Length ==> y[i] == old(y[i])
  {
    ResidueEquation(xx[..N], ak, awk1, awk2);
    hide Shape;
    var mem := new real[|ak|](_ => 0.0);
    assert mem[..] == Silence(|ak|);
    FilterMem16(xx, ak, awk1, y, N, mem);
    mem := new real[|ak|](_ => 0.0);
    assert mem[..] == Silence(|ak|);
    FirMem16(y, awk2, y, N, mem);
  }
}
