/** What one pass of the mixed-radix transform means, independently of the order in which the code
    visits blocks and columns, and why shuffle followed by all passes is the plain transform sum. */
module FftSpec {
  import opened ComplexNumbers
  import opened ComplexSums
  import opened Remainders
  import opened RootsOfUnity

  /** A flat factor list p1, m1, p2, m2, ... for length n, as kf_factor writes it: each p*m is the
      previous m, and the list ends at m == 1.  Entries after that are not read. */
  ghost predicate Chain(n: int, factors: seq<int>) {
    && |factors| >= 2
    && factors[0] > 0 && factors[1] > 0
    && factors[0] * factors[1] == n
    && (factors[1] == 1 || Chain(factors[1], factors[2..]))
  }

  function At(z: seq<Complex>, i: int): Complex {
    if 0 <= i < |z| then z[i] else ZERO
  }

  /** The terms of output k of a length-M transform of the samples input[o + j*stride*step]. */
  function DftTerm(input: seq<Complex>, o: int, stride: int, step: int, tw: seq<Complex>, k: int): int -> Complex
    requires |tw| > 0
  {
    j => Mul(At(input, o + j * stride * step), Root(tw, j * k * stride))
  }

  function Dft(input: seq<Complex>, o: int, stride: int, step: int, tw: seq<Complex>, length: nat, k: int): Complex
    requires |tw| > 0
  {
    Sum(DftTerm(input, o, stride, step, tw, k), length)
  }

  /** Where kf_shuffle reads the element it stores at position t of a block: the mixed-radix digit
      reversal of t, in units of in_stride. */
  function Source(t: int, stride: int, factors: seq<int>): int
    requires |factors| >= 2 && factors[1] > 0
    requires factors[1] != 1 ==> Chain(factors[1], factors[2..])
    decreases |factors|
  {
    var p, m := factors[0], factors[1];
    (t / m) * stride + (if m == 1 then 0 else Source(t % m, stride * p, factors[2..]))
  }

  /** One radix-p butterfly: output k of a block from the p inputs base, base+m, ... of its column. */
  function ButterflyTerm(z: seq<Complex>, base: int, m: int, stride: int, tw: seq<Complex>, k: int): int -> Complex
    requires |tw| > 0
  {
    q => Mul(At(z, base + q * m), Root(tw, q * k * stride))
  }

  function Butterfly(z: seq<Complex>, base: int, p: nat, m: int, stride: int, tw: seq<Complex>, k: int): Complex
    requires |tw| > 0
  {
    Sum(ButterflyTerm(z, base, m, stride, tw, k), p)
  }

  /** All passes over one block that starts at off: first the passes of its p sub-blocks, then one
      radix-p butterfly per column. */
  function WorkTerm(z: seq<Complex>, off: int, stride: int, factors: seq<int>, tw: seq<Complex>, k: int): int -> Complex
    requires |tw| > 0
    requires |factors| >= 2 && factors[0] >= 0 && factors[1] > 0
    requires factors[1] != 1 ==> Chain(factors[1], factors[2..])
    decreases |factors|, 0
  {
    var p, m := factors[0], factors[1];
    q => Mul(if m == 1 then At(z, off + q) else Work(z, off + q * m, stride * p, factors[2..], tw, k % m),
             Root(tw, q * k * stride))
  }

  function Work(z: seq<Complex>, off: int, stride: int, factors: seq<int>, tw: seq<Complex>, k: int): Complex
    requires |tw| > 0
    requires |factors| >= 2 && factors[0] >= 0 && factors[1] > 0
    requires factors[1] != 1 ==> Chain(factors[1], factors[2..])
    decreases |factors|, 1
  {
    Sum(WorkTerm(z, off, stride, factors, tw, k), factors[0])
  }

  /** The block of z at off holds the shuffled samples input[o + j*stride*step]. */
  ghost predicate Shuffled(z: seq<Complex>, off: int, n: int, input: seq<Complex>, o: int, stride: int, step: int,
                           factors: seq<int>)
    requires Chain(n, factors)
  {
    forall t :: 0 <= t < n ==> At(z, off + t) == At(input, o + Source(t, stride, factors) * step)
  }

  lemma SubBlockShuffled(z: seq<Complex>, off: int, n: int, input: seq<Complex>, o: int, stride: int, step: int,
                         factors: seq<int>, q: int)
    requires Chain(n, factors) && factors[1] != 1 && 0 <= q < factors[0]
    requires Shuffled(z, off, n, input, o, stride, step, factors)
    ensures var m := factors[1];
      Shuffled(z, off + q * m, m, input, o + q * stride * step, stride * factors[0], step, factors[2..])
  {
    var p, m := factors[0], factors[1];
    forall t | 0 <= t < m
      ensures At(z, off + q * m + t)
           == At(input, o + q * stride * step + Source(t, stride * p, factors[2..]) * step)
    {
      var inner := Source(t, stride * p, factors[2..]);
      SubBlockPosition(p, m, q, t, n);
      assert Source(q * m + t, stride, factors) == q * stride + inner;
      SubBlockIndex(o, q, stride, inner, step);
      assert At(z, off + (q * m + t)) == At(input, o + Source(q * m + t, stride, factors) * step);
    }
  }

  lemma SubBlockPosition(p: int, m: int, q: int, t: int, n: int)
    requires p * m == n && 0 <= q < p && 0 <= t < m
    ensures 0 <= q * m + t < n
    ensures (q * m + t) / m == q && (q * m + t) % m == t
  {
    QuotientUnique(q * m + t, q, t, m);
    assert q * m <= (p - 1) * m;
  }

  lemma SubBlockIndex(o: int, q: int, stride: int, inner: int, step: int)
    ensures o + (q * stride + inner) * step == o + q * stride * step + inner * step
  {}

  lemma StrandTerm(input: seq<Complex>, o: int, stride: int, step: int, tw: seq<Complex>, inverse: bool,
                   p: int, m: int, k: int, q: int, r: int)
    requires RootTable(tw, inverse)
    requires p > 0 && m > 0 && p * m * stride == |tw|
    ensures DftTerm(input, o, stride, step, tw, k)(q + r * p)
         == Mul(DftTerm(input, o + q * stride * step, stride * p, step, tw, k % m)(r), Root(tw, q * k * stride))
  {
    hide Mul, RootTable, Root, At;
    NonEmpty(tw, inverse);
    var e, d := r * (k % m) * (stride * p), q * k * stride;
    StrandIndex(o, stride, step, p, q, r);
    StrandExponent(stride, p, m, k, q, r, |tw|);
    RootPeriodic(tw, e + d, r * (k / m));
    RootSum(tw, inverse, e, d);
    MulAssociates(At(input, o + (q + r * p) * stride * step), Root(tw, e), Root(tw, d));
  }

  lemma StrandIndex(o: int, stride: int, step: int, p: int, q: int, r: int)
    ensures o + (q + r * p) * stride * step == (o + q * stride * step) + r * (stride * p) * step
  {}

  lemma StrandExponent(stride: int, p: int, m: int, k: int, q: int, r: int, n: int)
    requires m > 0 && p * m * stride == n
    ensures (q + r * p) * k * stride == r * (k % m) * (stride * p) + q * k * stride + (r * (k / m)) * n
  {
    var c, u := k / m, k % m;
    assert k == c * m + u;
    assert (q + r * p) * k * stride == q * k * stride + r * p * (c * m + u) * stride;
    assert r * p * (c * m + u) * stride == (r * c) * (p * m * stride) + r * u * (stride * p);
  }

  /** Decimation in time: the transform of a block is one radix-p butterfly over the transforms of its
      p interleaved strands. */
  lemma TransformByStrands(input: seq<Complex>, o: int, stride: int, step: int, tw: seq<Complex>, inverse: bool,
                           p: nat, m: nat, k: int, terms: int -> Complex)
    requires RootTable(tw, inverse)
    requires p > 0 && m > 0 && p * m * stride == |tw|
    requires forall q :: 0 <= q < p ==>
      terms(q) == Mul(Dft(input, o + q * stride * step, stride * p, step, tw, m, k % m), Root(tw, q * k * stride))
    ensures Sum(terms, p) == Dft(input, o, stride, step, tw, p * m, k)
  {
    hide Mul, Add, RootTable, Root;
    NonEmpty(tw, inverse);
    var f := DftTerm(input, o, stride, step, tw, k);
    SumByStrands(f, p, m);
    forall q | 0 <= q < p
      ensures terms(q) == Strands(f, p, m)(q)
    {
      var g := DftTerm(input, o + q * stride * step, stride * p, step, tw, k % m);
      var w := Root(tw, q * k * stride);
      forall r | 0 <= r < m
        ensures Strand(f, q, p)(r) == Mul(w, g(r))
      {
        StrandTerm(input, o, stride, step, tw, inverse, p, m, k, q, r);
        MulCommutes(w, g(r));
      }
      SumOfProducts(w, g, Strand(f, q, p), m);
      MulCommutes(w, Sum(g, m));
    }
    SumCongruent(terms, Strands(f, p, m), p);
  }

  /** kf_shuffle followed by all the passes of kf_work computes the plain transform sum. */
  lemma {:induction false} WorkIsDft(z: seq<Complex>, off: int, n: nat, input: seq<Complex>, o: int, stride: int,
                                     step: int, factors: seq<int>, tw: seq<Complex>, inverse: bool, k: int)
    requires RootTable(tw, inverse)
    requires Chain(n, factors) && n * stride == |tw|
    requires Shuffled(z, off, n, input, o, stride, step, factors)
    requires 0 <= k < n
    ensures Work(z, off, stride, factors, tw, k) == Dft(input, o, stride, step, tw, n, k)
    decreases |factors|
  {
    var p, m := factors[0], factors[1];
    StrideProduct(p, m, n, stride);
    hide Mul, Add, RootTable, Root, At, Sum, Source, Shuffled, DftTerm;
    NonEmpty(tw, inverse);
    var terms := WorkTerm(z, off, stride, factors, tw, k);
    forall q | 0 <= q < p
      ensures terms(q)
        == Mul(Dft(input, o + q * stride * step, stride * p, step, tw, m, k % m), Root(tw, q * k * stride))
    {
      if m == 1 {
        LastStageTerm(z, off, n, input, o, stride, step, factors, tw, inverse, k, q);
      } else {
        SubBlockShuffled(z, off, n, input, o, stride, step, factors, q);
        assert 0 <= k % m < m;
        WorkIsDft(z, off + q * m, m, input, o + q * stride * step, stride * p, step, factors[2..], tw, inverse, k % m);
      }
    }
    TransformByStrands(input, o, stride, step, tw, inverse, p, m, k, terms);
  }

  lemma LastStageTerm(z: seq<Complex>, off: int, n: nat, input: seq<Complex>, o: int, stride: int, step: int,
                      factors: seq<int>, tw: seq<Complex>, inverse: bool, k: int, q: int)
    requires RootTable(tw, inverse) && |tw| > 0
    requires Chain(n, factors) && factors[1] == 1 && 0 <= q < factors[0]
    requires Shuffled(z, off, n, input, o, stride, step, factors)
    ensures WorkTerm(z, off, stride, factors, tw, k)(q)
         == Mul(Dft(input, o + q * stride * step, stride * factors[0], step, tw, 1, k % 1), Root(tw, q * k * stride))
  {
    hide Mul, Add, RootTable, Root, At, Sum, Dft;
    SingleSample(input, o + q * stride * step, stride * factors[0], step, tw, inverse, k % 1);
    assert Source(q, stride, factors) == q * stride;
  }

  lemma StrideProduct(p: int, m: int, n: int, stride: int)
    requires p * m == n
    ensures p * m * stride == n * stride && m * (stride * p) == n * stride
  {}

  /** A transform of one sample is the sample. */
  lemma SingleSample(input: seq<Complex>, o: int, stride: int, step: int, tw: seq<Complex>, inverse: bool, k: int)
    requires RootTable(tw, inverse)
    ensures Dft(input, o, stride, step, tw, 1, k) == At(input, o)
  {
    hide Mul, Add, RootTable, Root, At;
    NonEmpty(tw, inverse);
    FirstTerm(input, o, stride, step, tw, k);
    RootAtMultiple(tw, inverse, 0);
    MulByOne(At(input, o));
    hide DftTerm;
    SumOfOneTerm(DftTerm(input, o, stride, step, tw, k));
  }

  lemma FirstTerm(input: seq<Complex>, o: int, stride: int, step: int, tw: seq<Complex>, k: int)
    requires |tw| > 0
    ensures DftTerm(input, o, stride, step, tw, k)(0) == Mul(At(input, o), Root(tw, 0))
  {
    hide Mul, Root, At;
    assert 0 * stride * step == 0 && 0 * k * stride == 0;
  }
}
