/** Finite real signals and the linear operators the float-build filters apply to them.  A coefficient list
    c stands for the polynomial 1 + c[0]*D + c[1]*D^2 + ..., where D delays a signal by one sample. */
module Signals {

  type Signal = seq<real>

  function Plus(x: Signal, y: Signal): (z: Signal)
    requires |x| == |y|
    ensures |z| == |x|
  {
    seq(|x|, i requires 0 <= i < |x| => x[i] + y[i])
  }

  function Product(a: real, b: real): real { a * b }

  lemma NegatedProduct(a: real, b: real)
    ensures Product(a, -b) == -Product(a, b)
  {}

  function Gain(c: real, x: Signal): (z: Signal)
    ensures |z| == |x|
  {
    seq(|x|, i requires 0 <= i < |x| => Product(c, x[i]))
  }

  function Delay(x: Signal): (z: Signal)
    ensures |z| == |x|
  {
    if x == [] then [] else [0.0] + x[..|x| - 1]
  }

  function Silence(n: nat): (z: Signal)
    ensures |z| == n
  {
    seq(n, i => 0.0)
  }

  /** c[0] + c[1]*D + ... applied to x. */
  function Poly(c: seq<real>, x: Signal): (z: Signal)
    ensures |z| == |x|
    decreases |c|
  {
    if c == [] then Silence(|x|) else Plus(Gain(c[0], x), Delay(Poly(c[1..], x)))
  }

  /** 1 + c[0]*D + c[1]*D^2 + ... applied to x. */
  function Shape(c: seq<real>, x: Signal): (z: Signal)
    ensures |z| == |x|
  {
    Plus(x, Delay(Poly(c, x)))
  }

  // ----- linearity -----

  lemma ProductDistributes(c: real, a: real, b: real)
    ensures Product(c, a + b) == Product(c, a) + Product(c, b)
  {}

  lemma ProductExchanges(c: real, d: real, a: real)
    ensures Product(c, Product(d, a)) == Product(d, Product(c, a))
  {}

  lemma GainPlus(c: real, x: Signal, y: Signal)
    requires |x| == |y|
    ensures Gain(c, Plus(x, y)) == Plus(Gain(c, x), Gain(c, y))
  {
    hide Product;
    forall i | 0 <= i < |x|
      ensures Gain(c, Plus(x, y))[i] == Plus(Gain(c, x), Gain(c, y))[i]
    {
      ProductDistributes(c, x[i], y[i]);
    }
  }

  lemma GainGain(c: real, d: real, x: Signal)
    ensures Gain(c, Gain(d, x)) == Gain(d, Gain(c, x))
  {
    hide Product;
    forall i | 0 <= i < |x|
      ensures Gain(c, Gain(d, x))[i] == Gain(d, Gain(c, x))[i]
    {
      ProductExchanges(c, d, x[i]);
    }
  }

  lemma ProductZero(c: real)
    ensures Product(c, 0.0) == 0.0
  {}

  lemma DelayGain(c: real, x: Signal)
    ensures Delay(Gain(c, x)) == Gain(c, Delay(x))
  {
    if x != [] {
      hide Product;
      ProductZero(c);
      assert forall i :: 0 < i < |x| ==> Delay(Gain(c, x))[i] == Gain(c, x)[i - 1];
    }
  }

  lemma DelayPlus(x: Signal, y: Signal)
    requires |x| == |y|
    ensures Delay(Plus(x, y)) == Plus(Delay(x), Delay(y))
  {}

  lemma PlusShuffle(a: Signal, b: Signal, c: Signal, d: Signal)
    requires |a| == |b| == |c| == |d|
    ensures Plus(Plus(a, b), Plus(c, d)) == Plus(Plus(a, c), Plus(b, d))
  {}

  lemma {:induction false} PolyPlus(c: seq<real>, x: Signal, y: Signal)
    requires |x| == |y|
    ensures Poly(c, Plus(x, y)) == Plus(Poly(c, x), Poly(c, y))
    decreases |c|
  {
    if c != [] {
      PolyPlus(c[1..], x, y);
      hide Plus, Gain, Delay;
      GainPlus(c[0], x, y);
      DelayPlus(Poly(c[1..], x), Poly(c[1..], y));
      PlusShuffle(Gain(c[0], x), Gain(c[0], y), Delay(Poly(c[1..], x)), Delay(Poly(c[1..], y)));
    }
  }

  lemma {:induction false} PolyGain(c: seq<real>, d: real, x: Signal)
    ensures Poly(c, Gain(d, x)) == Gain(d, Poly(c, x))
    decreases |c|
  {
    if c == [] {
      hide Product;
      ProductZero(d);
    } else {
      PolyGain(c[1..], d, x);
      hide Plus, Gain, Delay;
      GainGain(c[0], d, x);
      DelayGain(d, Poly(c[1..], x));
      GainPlus(d, Gain(c[0], x), Delay(Poly(c[1..], x)));
    }
  }

  lemma {:induction false} PolyDelay(c: seq<real>, x: Signal)
    ensures Poly(c, Delay(x)) == Delay(Poly(c, x))
    decreases |c|
  {
    if c == [] {
    } else {
      PolyDelay(c[1..], x);
      hide Plus, Gain, Delay;
      DelayGain(c[0], x);
      DelayPlus(Gain(c[0], x), Delay(Poly(c[1..], x)));
    }
  }

  /** Any two polynomials in the delay commute. */
  lemma {:induction false} PolyCommutes(c: seq<real>, d: seq<real>, x: Signal)
    ensures Poly(c, Poly(d, x)) == Poly(d, Poly(c, x))
    decreases |c|
  {
    if c == [] {
      SilenceThrough(d, |x|);
    } else {
      var y := Poly(d, x);
      var z := Poly(c[1..], x);
      PolyCommutes(c[1..], d, x);
      hide Plus, Gain, Delay;
      PolyGain(d, c[0], x);
      PolyDelay(d, z);
      PolyPlus(d, Gain(c[0], x), Delay(z));
    }
  }

  lemma {:induction false} SilenceThrough(d: seq<real>, n: nat)
    ensures Poly(d, Silence(n)) == Silence(n)
    decreases |d|
  {
    if d != [] {
      SilenceThrough(d[1..], n);
      hide Product;
      ProductZero(d[0]);
    }
  }

  lemma ShapeCommutes(c: seq<real>, d: seq<real>, x: Signal)
    ensures Shape(c, Shape(d, x)) == Shape(d, Shape(c, x))
  {
    hide Plus, Delay, Poly;
    var p, q := Poly(c, x), Poly(d, x);
    PolyPlus(c, x, Delay(q));
    PolyPlus(d, x, Delay(p));
    PolyDelay(c, q);
    PolyDelay(d, p);
    PolyCommutes(c, d, x);
    DelayPlus(p, Delay(Poly(c, q)));
    DelayPlus(q, Delay(Poly(d, p)));
    PlusShuffle(x, Delay(q), Delay(p), Delay(Delay(Poly(c, q))));
  }

  /** A shaping filter is undone by solving for its input: it starts with coefficient one. */
  lemma ShapeInjective(c: seq<real>, x: Signal, y: Signal)
    requires |x| == |y| && Shape(c, x) == Shape(c, y)
    ensures x == y
  {
    AgreeUpTo(c, x, y, |x|);
    assert x[..|x|] == x && y[..|y|] == y;
  }

  lemma {:induction false} AgreeUpTo(c: seq<real>, x: Signal, y: Signal, i: nat)
    requires i <= |x| == |y| && Shape(c, x) == Shape(c, y)
    ensures x[..i] == y[..i]
  {
    if i > 0 {
      AgreeUpTo(c, x, y, i - 1);
      PolyCausal(c, x, y, i - 1);
      hide *;
      SameDelayed(Poly(c, x), Poly(c, y), i - 1);
      ShapeSample(c, x, i - 1);
      ShapeSample(c, y, i - 1);
      ExtendAgreement(x, y, i);
    }
  }

  lemma ShapeSample(c: seq<real>, x: Signal, i: nat)
    requires i < |x|
    ensures Shape(c, x)[i] == x[i] + Delay(Poly(c, x))[i]
  {
    hide Poly, Delay;
  }

  lemma ExtendAgreement(x: Signal, y: Signal, i: nat)
    requires 0 < i <= |x| == |y| && x[..i - 1] == y[..i - 1] && x[i - 1] == y[i - 1]
    ensures x[..i] == y[..i]
  {
    assert x[..i] == x[..i - 1] + [x[i - 1]] && y[..i] == y[..i - 1] + [y[i - 1]];
  }

  lemma SameDelayed(p: Signal, q: Signal, i: nat)
    requires i < |p| == |q| && p[..i] == q[..i]
    ensures Delay(p)[i] == Delay(q)[i]
  {
    assert i > 0 ==> p[..i][i - 1] == p[i - 1] && q[..i][i - 1] == q[i - 1];
  }

  /** The first i outputs depend on the first i inputs only. */
  lemma {:induction false} PolyCausal(c: seq<real>, x: Signal, y: Signal, i: nat)
    requires i <= |x| == |y| && x[..i] == y[..i]
    ensures Poly(c, x)[..i] == Poly(c, y)[..i]
    decreases |c|
  {
    if c != [] {
      PolyCausal(c[1..], x, y, i);
      var p, q := Poly(c[1..], x), Poly(c[1..], y);
      forall j | 0 <= j < i
        ensures Poly(c, x)[j] == Poly(c, y)[j]
      {
        assert x[..i][j] == y[..i][j];
        assert j > 0 ==> p[..i][j - 1] == q[..i][j - 1];
      }
    }
  }

  // ----- the direct form -----

  /** Zero beyond the ends. */
  function Entry(s: seq<real>, k: int): real {
    if 0 <= k < |s| then s[k] else 0.0
  }

  /** The sum of c[s-t]*x[t] over t < n. */
  function Convolution(c: seq<real>, x: Signal, s: int, n: nat): real
    requires n <= |x|
  {
    if n == 0 then 0.0 else Convolution(c, x, s, n - 1) + Product(Entry(c, s - (n - 1)), x[n - 1])
  }

  /** The operator form and the convolution sum are the same filter. */
  lemma {:induction false} PolyIsConvolution(c: seq<real>, x: Signal, i: nat)
    requires i < |x|
    ensures Poly(c, x)[i] == Convolution(c, x, i, i + 1)
    decreases |c|, i
  {
    hide Product;
    if c == [] {
      ConvolutionOfNothing(c, x, i, i + 1);
    } else {
      TailConvolution(c, x, i, i);
      if i > 0 {
        PolyIsConvolution(c[1..], x, i - 1);
      }
    }
  }

  lemma {:induction false} ConvolutionOfNothing(c: seq<real>, x: Signal, s: int, n: nat)
    requires c == [] && n <= |x|
    ensures Convolution(c, x, s, n) == 0.0
  {
    if n > 0 {
      ConvolutionOfNothing(c, x, s, n - 1);
      ZeroProduct(x[n - 1]);
    }
  }

  lemma ZeroProduct(a: real)
    ensures Product(0.0, a) == 0.0
  {}

  lemma {:induction false} TailConvolution(c: seq<real>, x: Signal, s: int, n: nat)
    requires c != [] && n <= |x| && n <= s
    ensures Convolution(c, x, s, n) == Convolution(c[1..], x, s - 1, n)
  {
    hide Product;
    if n > 0 {
      TailConvolution(c, x, s, n - 1);
      assert Entry(c, s - (n - 1)) == Entry(c[1..], s - 1 - (n - 1));
    }
  }

  /** A shaping filter, sample by sample. */
  lemma ShapeAt(c: seq<real>, x: Signal, i: nat)
    requires i < |x|
    ensures Shape(c, x)[i] == x[i] + Convolution(c, x, i - 1, i)
  {
    hide Product;
    if i > 0 {
      PolyIsConvolution(c, x, i - 1);
    }
  }

  /** The sum of x[j] * c[base + j] over j < n. */
  function Dot(x: seq<real>, c: seq<real>, base: nat, n: nat): real
    requires n <= |x| && base + n <= |c|
  {
    if n == 0 then 0.0 else Dot(x, c, base, n - 1) + Product(x[n - 1], c[base + n - 1])
  }
}
