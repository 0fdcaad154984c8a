/** The special butterflies of radix 2, 3, 4 and 5 against the radix-p sum they stand for. */
module Butterflies {
  import opened ComplexNumbers
  import opened ComplexSums
  import opened RootsOfUnity
  import opened FftSpec

  /** Output j of a transform of the |a| inputs a with roots w. */
  function SmallDftTerm(a: seq<Complex>, w: seq<Complex>, j: int): int -> Complex
    requires |w| > 0
  {
    q => Mul(At(a, q), At(w, (q * j) % |w|))
  }

  function SmallDft(a: seq<Complex>, w: seq<Complex>, j: int): Complex
    requires |w| > 0
  {
    Sum(SmallDftTerm(a, w, j), |a|)
  }

  /** The inputs of a column, already multiplied by their twiddle factors. */
  function Twiddled(z: seq<Complex>, base: int, p: nat, m: int, stride: int, tw: seq<Complex>,
                    u: int): (a: seq<Complex>)
    requires |tw| > 0
    ensures |a| == p
  {
    seq(p, q => Mul(At(z, base + q * m), Root(tw, q * u * stride)))
  }

  /** The p-th roots of unity inside the table, h = n/p apart. */
  function RadixRoots(tw: seq<Complex>, p: nat, h: int): (w: seq<Complex>)
    requires |tw| > 0
    ensures |w| == p
  {
    seq(p, q => Root(tw, q * h))
  }

  lemma ColumnExponent(p: int, m: int, stride: int, u: int, j: int, q: int, n: int)
    requires p > 0 && p * m * stride == n
    ensures q * (u + j * m) * stride
         == (q * u * stride + ((q * j) % p) * (m * stride)) + ((q * j) / p) * n
  {
    var c, r := (q * j) / p, (q * j) % p;
    assert q * j == c * p + r;
    assert q * (u + j * m) * stride == q * u * stride + (q * j) * (m * stride);
    assert (c * p + r) * (m * stride) == c * (p * m * stride) + r * (m * stride);
  }

  /** Every output of a column is a small transform of its twiddled inputs. */
  lemma ColumnIsSmallDft(z: seq<Complex>, base: int, p: nat, m: int, stride: int, tw: seq<Complex>, inverse: bool,
                         u: int, j: int)
    requires RootTable(tw, inverse)
    requires p > 0 && p * m * stride == |tw|
    ensures Butterfly(z, base, p, m, stride, tw, u + j * m)
         == SmallDft(Twiddled(z, base, p, m, stride, tw, u), RadixRoots(tw, p, m * stride), j)
  {
    hide Mul, Add, Root, RootTable, At, Sum;
    NonEmpty(tw, inverse);
    var k := u + j * m;
    var f := ButterflyTerm(z, base, m, stride, tw, k);
    var g := SmallDftTerm(Twiddled(z, base, p, m, stride, tw, u), RadixRoots(tw, p, m * stride), j);
    forall q | 0 <= q < p
      ensures f(q) == g(q)
    {
      ColumnTerm(z, base, p, m, stride, tw, inverse, u, j, q);
    }
    SumCongruent(f, g, p);
  }

  lemma ColumnTerm(z: seq<Complex>, base: int, p: nat, m: int, stride: int, tw: seq<Complex>, inverse: bool,
                   u: int, j: int, q: int)
    requires RootTable(tw, inverse)
    requires p * m * stride == |tw| && 0 <= q < p
    ensures ButterflyTerm(z, base, m, stride, tw, u + j * m)(q)
         == SmallDftTerm(Twiddled(z, base, p, m, stride, tw, u), RadixRoots(tw, p, m * stride), j)(q)
  {
    hide Mul, Root, RootTable;
    NonEmpty(tw, inverse);
    var d, e := q * u * stride, ((q * j) % p) * (m * stride);
    ColumnExponent(p, m, stride, u, j, q, |tw|);
    RootPeriodic(tw, d + e, (q * j) / p);
    RootSum(tw, inverse, d, e);
    assert 0 <= (q * j) % p < p;
    MulAssociates(At(z, base + q * m), Root(tw, d), Root(tw, e));
  }

  // ----- radix 2 -----

  lemma Output2(a: Complex, b: Complex, w: seq<Complex>, j: nat)
    requires |w| == 2 && w[0] == ONE && j < 2
    ensures SmallDft([a, b], w, j) == Add(a, Mul(b, w[j]))
  {
    hide Mul, Add;
    SumOfTwo(SmallDftTerm([a, b], w, j));
    MulByOne(a);
  }

  lemma Radix2(a: Complex, b: Complex)
    ensures SmallDft([a, b], [ONE, MINUS_ONE], 0) == Add(a, b)
    ensures SmallDft([a, b], [ONE, MINUS_ONE], 1) == Sub(a, b)
  {
    hide Mul, SmallDft;
    Output2(a, b, [ONE, MINUS_ONE], 0);
    Output2(a, b, [ONE, MINUS_ONE], 1);
    MulByOne(b);
    MulByMinusOne(b);
  }

  lemma MulByMinusOne(a: Complex)
    ensures Mul(a, MINUS_ONE) == Sub(ZERO, a)
  {}

  // ----- radix 3 -----

  function CubeRoots(y: real): seq<Complex> { [ONE, Complex(-0.5, y), Complex(-0.5, -y)] }

  /** Output 1 (sign = 1) or 2 (sign = -1) as kf_bfly3 forms it from the sum and the scaled difference of
      the last two inputs. */
  function Radix3Output(a: Complex, b: Complex, c: Complex, y: real, sign: real): Complex {
    var mid := Sub(a, Scale(0.5, Add(b, c)));
    var turn := Scale(y, Sub(b, c));
    Complex(mid.re - sign * turn.im, mid.im + sign * turn.re)
  }

  lemma Output3(a: Complex, b: Complex, c: Complex, w: seq<Complex>, j: nat)
    requires |w| == 3 && w[0] == ONE && j < 3
    ensures SmallDft([a, b, c], w, j) == Add(Add(a, Mul(b, w[j])), Mul(c, w[(2 * j) % 3]))
  {
    hide Mul, Add;
    SumOfThree(SmallDftTerm([a, b, c], w, j));
    MulByOne(a);
  }

  lemma Radix3(a: Complex, b: Complex, c: Complex, y: real)
    ensures SmallDft([a, b, c], CubeRoots(y), 0) == Add(a, Add(b, c))
    ensures SmallDft([a, b, c], CubeRoots(y), 1) == Radix3Output(a, b, c, y, 1.0)
    ensures SmallDft([a, b, c], CubeRoots(y), 2) == Radix3Output(a, b, c, y, -1.0)
  {
    hide Mul, SmallDft, Radix3Output;
    Output3(a, b, c, CubeRoots(y), 0);
    Output3(a, b, c, CubeRoots(y), 1);
    Output3(a, b, c, CubeRoots(y), 2);
    MulByOne(b);
    MulByOne(c);
    Radix3Forward(a, b, c, y);
    Radix3Backward(a, b, c, y);
  }

  lemma Radix3Forward(a: Complex, b: Complex, c: Complex, y: real)
    ensures Add(Add(a, Mul(b, Complex(-0.5, y))), Mul(c, Complex(-0.5, -y))) == Radix3Output(a, b, c, y, 1.0)
  {}

  lemma Radix3Backward(a: Complex, b: Complex, c: Complex, y: real)
    ensures Add(Add(a, Mul(b, Complex(-0.5, -y))), Mul(c, Complex(-0.5, y))) == Radix3Output(a, b, c, y, -1.0)
  {}

  // ----- radix 4 -----

  function FourthRoots(inverse: bool): seq<Complex> { [ONE, Quarter(inverse), MINUS_ONE, Quarter(inverse).Conj()] }

  /** Output 1 or 3 as kf_bfly4 forms it: the difference of the even inputs plus (sign = 1) or minus a
      quarter turn of the difference of the odd ones. */
  function Radix4Output(a: Complex, b: Complex, c: Complex, d: Complex, sign: real): Complex {
    var even, odd := Sub(a, c), Sub(b, d);
    Complex(even.re - sign * odd.im, even.im + sign * odd.re)
  }

  lemma Output4(a: Complex, b: Complex, c: Complex, d: Complex, w: seq<Complex>, j: nat)
    requires |w| == 4 && w[0] == ONE && j < 4
    ensures SmallDft([a, b, c, d], w, j)
         == Add(Add(Add(a, Mul(b, w[j])), Mul(c, w[(2 * j) % 4])), Mul(d, w[(3 * j) % 4]))
  {
    hide Mul, Add;
    SumOfFour(SmallDftTerm([a, b, c, d], w, j));
    MulByOne(a);
  }

  lemma Radix4(a: Complex, b: Complex, c: Complex, d: Complex, inverse: bool)
    ensures SmallDft([a, b, c, d], FourthRoots(inverse), 0) == Add(Add(a, c), Add(b, d))
    ensures SmallDft([a, b, c, d], FourthRoots(inverse), 1) == Radix4Output(a, b, c, d, if inverse then 1.0 else -1.0)
    ensures SmallDft([a, b, c, d], FourthRoots(inverse), 2) == Sub(Add(a, c), Add(b, d))
    ensures SmallDft([a, b, c, d], FourthRoots(inverse), 3) == Radix4Output(a, b, c, d, if inverse then -1.0 else 1.0)
  {
    hide Mul, SmallDft;
    Output4(a, b, c, d, FourthRoots(inverse), 0);
    Output4(a, b, c, d, FourthRoots(inverse), 1);
    Output4(a, b, c, d, FourthRoots(inverse), 2);
    Output4(a, b, c, d, FourthRoots(inverse), 3);
    MulByOne(b);
    MulByOne(c);
    MulByOne(d);
    MulByMinusOne(b);
    MulByMinusOne(c);
    MulByMinusOne(d);
    QuarterTurn(b, inverse);
    QuarterTurn(d, inverse);
  }

  lemma QuarterTurn(b: Complex, inverse: bool)
    ensures Mul(b, Quarter(inverse)) == if inverse then Complex(-b.im, b.re) else Complex(b.im, -b.re)
    ensures Mul(b, Quarter(inverse).Conj()) == if inverse then Complex(b.im, -b.re) else Complex(-b.im, b.re)
  {}

  // ----- radix 5 -----

  function FifthRootsFrom(ya: Complex, yb: Complex): seq<Complex> { [ONE, ya, yb, yb.Conj(), ya.Conj()] }

  /** kf_bfly5 forms outputs j and 5-j from sums (s7, s8) and differences (s10, s9) of opposite inputs: an
      even part, and an odd part that is added or subtracted. */
  function EvenPart(a: Complex, s7: Complex, s8: Complex, y1: real, y2: real): Complex {
    Complex(a.re + s7.re * y1 + s8.re * y2, a.im + s7.im * y1 + s8.im * y2)
  }

  function OddPart(s10: Complex, s9: Complex, y1: real, y2: real): Complex {
    Complex(s10.im * y1 + s9.im * y2, -(s10.re * y1) - s9.re * y2)
  }

  /** The odd part of outputs 2 and 3, which the code forms with the opposite sign. */
  function OtherOddPart(s10: Complex, s9: Complex, y1: real, y2: real): Complex {
    Complex(-(s10.im * y2) + s9.im * y1, s10.re * y2 - s9.re * y1)
  }

  function Radix5Even(a: Complex, b: Complex, c: Complex, d: Complex, e: Complex, y1: real, y2: real): Complex {
    EvenPart(a, Add(b, e), Add(c, d), y1, y2)
  }

  function Radix5Odd(b: Complex, c: Complex, d: Complex, e: Complex, y1: real, y2: real): Complex {
    OddPart(Sub(b, e), Sub(c, d), y1, y2)
  }

  lemma OtherOddPartNegates(s10: Complex, s9: Complex, y1: real, y2: real)
    ensures OtherOddPart(s10, s9, y1, y2) == Sub(ZERO, OddPart(s10, s9, y2, -y1))
  {}

  lemma Output5(a: Complex, b: Complex, c: Complex, d: Complex, e: Complex, w: seq<Complex>, j: nat)
    requires |w| == 5 && w[0] == ONE && j < 5
    ensures SmallDft([a, b, c, d, e], w, j)
         == Add(Add(Add(Add(a, Mul(b, w[j])), Mul(c, w[(2 * j) % 5])), Mul(d, w[(3 * j) % 5])), Mul(e, w[(4 * j) % 5]))
  {
    hide Mul, Add;
    SumOfFive(SmallDftTerm([a, b, c, d, e], w, j));
    MulByOne(a);
  }

  lemma Radix5(a: Complex, b: Complex, c: Complex, d: Complex, e: Complex, ya: Complex, yb: Complex)
    ensures var w := FifthRootsFrom(ya, yb);
      && SmallDft([a, b, c, d, e], w, 0) == Add(a, Add(Add(b, e), Add(c, d)))
      && SmallDft([a, b, c, d, e], w, 1)
        == Sub(Radix5Even(a, b, c, d, e, ya.re, yb.re), Radix5Odd(b, c, d, e, ya.im, yb.im))
      && SmallDft([a, b, c, d, e], w, 4)
        == Add(Radix5Even(a, b, c, d, e, ya.re, yb.re), Radix5Odd(b, c, d, e, ya.im, yb.im))
      && SmallDft([a, b, c, d, e], w, 2)
        == Sub(Radix5Even(a, b, c, d, e, yb.re, ya.re), Radix5Odd(b, c, d, e, yb.im, -ya.im))
      && SmallDft([a, b, c, d, e], w, 3)
        == Add(Radix5Even(a, b, c, d, e, yb.re, ya.re), Radix5Odd(b, c, d, e, yb.im, -ya.im))
  {
    hide Radix5Even, Radix5Odd, Mul, SmallDft;
    var w := FifthRootsFrom(ya, yb);
    Output5(a, b, c, d, e, w, 0);
    Output5(a, b, c, d, e, w, 1);
    Output5(a, b, c, d, e, w, 2);
    Output5(a, b, c, d, e, w, 3);
    Output5(a, b, c, d, e, w, 4);
    MulByOne(b);
    MulByOne(c);
    MulByOne(d);
    MulByOne(e);
    Radix5Pair(a, b, c, d, e, ya, yb);
    Radix5Pair(a, b, c, d, e, yb, ya.Conj());
  }

  function FiveSum(a: Complex, b: Complex, c: Complex, d: Complex, e: Complex, y: Complex, z: Complex): Complex {
    Add(Add(Add(Add(a, Mul(b, y)), Mul(c, z)), Mul(d, z.Conj())), Mul(e, y.Conj()))
  }

  lemma Radix5Pair(a: Complex, b: Complex, c: Complex, d: Complex, e: Complex, y: Complex, z: Complex)
    ensures FiveSum(a, b, c, d, e, y, z)
         == Sub(Radix5Even(a, b, c, d, e, y.re, z.re), Radix5Odd(b, c, d, e, y.im, z.im))
    ensures FiveSum(a, b, c, d, e, y.Conj(), z.Conj())
         == Add(Radix5Even(a, b, c, d, e, y.re, z.re), Radix5Odd(b, c, d, e, y.im, z.im))
  {
    hide FiveSum, Radix5Even, Radix5Odd;
    Radix5RealPart(a, b, c, d, e, y, z);
    Radix5ImaginaryPart(a, b, c, d, e, y, z);
    Radix5RealPart(a, b, c, d, e, y.Conj(), z.Conj());
    Radix5ImaginaryPart(a, b, c, d, e, y.Conj(), z.Conj());
    OddNegates(b, c, d, e, y.im, z.im);
  }

  lemma OddNegates(b: Complex, c: Complex, d: Complex, e: Complex, y1: real, y2: real)
    ensures Radix5Odd(b, c, d, e, -y1, -y2) == Sub(ZERO, Radix5Odd(b, c, d, e, y1, y2))
  {}

  lemma Radix5RealPart(a: Complex, b: Complex, c: Complex, d: Complex, e: Complex, y: Complex, z: Complex)
    ensures FiveSum(a, b, c, d, e, y, z).re
         == Radix5Even(a, b, c, d, e, y.re, z.re).re - Radix5Odd(b, c, d, e, y.im, z.im).re
  {}

  lemma Radix5ImaginaryPart(a: Complex, b: Complex, c: Complex, d: Complex, e: Complex, y: Complex, z: Complex)
    ensures FiveSum(a, b, c, d, e, y, z).im
         == Radix5Even(a, b, c, d, e, y.re, z.re).im - Radix5Odd(b, c, d, e, y.im, z.im).im
  {}
}
