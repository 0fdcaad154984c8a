/** Complex numbers over exact reals, as the float build of the FFT uses them (the C_* macros of
    _kiss_fft_guts.h), and the field laws the transforms rest on. */
module ComplexNumbers {

  datatype Complex = Complex(re: real, im: real) {
    function Conj(): Complex { Complex(re, -im) }
  }

  const ZERO := Complex(0.0, 0.0)
  const ONE := Complex(1.0, 0.0)

  function Add(a: Complex, b: Complex): Complex { Complex(a.re + b.re, a.im + b.im) }

  function Sub(a: Complex, b: Complex): Complex { Complex(a.re - b.re, a.im - b.im) }

  function Mul(a: Complex, b: Complex): Complex {
    Complex(a.re * b.re - a.im * b.im, a.re * b.im + a.im * b.re)
  }

  function Scale(r: real, a: Complex): Complex { Complex(r * a.re, r * a.im) }

  lemma MulCommutes(a: Complex, b: Complex)
    ensures Mul(a, b) == Mul(b, a)
  {}

  lemma MulAssociates(a: Complex, b: Complex, c: Complex)
    ensures Mul(Mul(a, b), c) == Mul(a, Mul(b, c))
  {
    assert (a.re * b.re - a.im * b.im) * c.re - (a.re * b.im + a.im * b.re) * c.im
        == a.re * (b.re * c.re - b.im * c.im) - a.im * (b.re * c.im + b.im * c.re);
    assert (a.re * b.re - a.im * b.im) * c.im + (a.re * b.im + a.im * b.re) * c.re
        == a.re * (b.re * c.im + b.im * c.re) + a.im * (b.re * c.re - b.im * c.im);
  }

  lemma MulDistributes(a: Complex, b: Complex, c: Complex)
    ensures Mul(a, Add(b, c)) == Add(Mul(a, b), Mul(a, c))
    ensures Mul(Add(b, c), a) == Add(Mul(b, a), Mul(c, a))
  {}

  lemma ConjMul(a: Complex, b: Complex)
    ensures Mul(a, b).Conj() == Mul(a.Conj(), b.Conj())
  {}

  /** The complex numbers have no zero divisors. */
  lemma NoZeroDivisors(a: Complex, b: Complex)
    requires Mul(a, b) == ZERO
    ensures a == ZERO || b == ZERO
  {
    if b != ZERO {
      var norm := SquaresPositive(b.re, b.im);
      var e1, e2 := a.re * b.re - a.im * b.im, a.re * b.im + a.im * b.re;
      assert e1 == 0.0 && e2 == 0.0;
      NormIdentity(a, b, e1, e2);
      SignOfMultiple(a.re, norm);
      SignOfMultiple(a.im, norm);
    }
  }

  lemma NormIdentity(a: Complex, b: Complex, e1: real, e2: real)
    requires e1 == a.re * b.re - a.im * b.im && e2 == a.re * b.im + a.im * b.re
    ensures a.re * (b.re * b.re + b.im * b.im) == e1 * b.re + e2 * b.im
    ensures a.im * (b.re * b.re + b.im * b.im) == e2 * b.re - e1 * b.im
  {
    assert (a.re * b.re - a.im * b.im) * b.re + (a.re * b.im + a.im * b.re) * b.im
        == a.re * (b.re * b.re + b.im * b.im);
    assert (a.re * b.im + a.im * b.re) * b.re - (a.re * b.re - a.im * b.im) * b.im
        == a.im * (b.re * b.re + b.im * b.im);
  }

  function Squared(x: real): (y: real)
    ensures y >= 0.0
  {
    x * x
  }

  lemma SquarePositive(x: real)
    requires x != 0.0
    ensures Squared(x) > 0.0
  {
    var inverse := 1.0 / x;
    assert inverse * x == 1.0;
    assert inverse * Squared(x) == (inverse * x) * x;
  }

  lemma SquaresPositive(x: real, y: real) returns (norm: real)
    requires x != 0.0 || y != 0.0
    ensures norm == x * x + y * y && norm > 0.0
  {
    norm := Squared(x) + Squared(y);
    if x != 0.0 {
      SquarePositive(x);
    } else {
      SquarePositive(y);
    }
  }

  lemma SignOfMultiple(x: real, norm: real)
    requires norm > 0.0
    ensures x > 0.0 ==> x * norm > 0.0
    ensures x < 0.0 ==> x * norm < 0.0
  {
    if x < 0.0 {
      assert (-x) * norm > 0.0;
    }
  }
}

/** Finite sums of complex terms, and the reorderings the transform proofs need. */
module ComplexSums {
  import opened ComplexNumbers

  function Sum(f: int -> Complex, n: nat): Complex {
    if n == 0 then ZERO else Add(Sum(f, n - 1), f(n - 1))
  }

  lemma SumCongruent(f: int -> Complex, g: int -> Complex, n: nat)
    requires forall i :: 0 <= i < n ==> f(i) == g(i)
    ensures Sum(f, n) == Sum(g, n)
  {}

  lemma {:induction false} SumOfProducts(c: Complex, f: int -> Complex, g: int -> Complex, n: nat)
    requires forall i :: 0 <= i < n ==> g(i) == Mul(c, f(i))
    ensures Sum(g, n) == Mul(c, Sum(f, n))
  {
    if n > 0 {
      SumOfProducts(c, f, g, n - 1);
      MulDistributes(c, Sum(f, n - 1), f(n - 1));
    }
  }

  lemma {:induction false} SumOfSums(f: int -> Complex, g: int -> Complex, h: int -> Complex, n: nat)
    requires forall i :: 0 <= i < n ==> h(i) == Add(f(i), g(i))
    ensures Sum(h, n) == Add(Sum(f, n), Sum(g, n))
  {
    if n > 0 {
      SumOfSums(f, g, h, n - 1);
    }
  }

  lemma {:induction false} SumConj(f: int -> Complex, g: int -> Complex, n: nat)
    requires forall i :: 0 <= i < n ==> g(i) == f(i).Conj()
    ensures Sum(g, n) == Sum(f, n).Conj()
  {
    if n > 0 {
      SumConj(f, g, n - 1);
    }
  }

  function Shifted(f: int -> Complex, a: int): int -> Complex { i => f(a + i) }

  lemma {:induction false} SumSplit(f: int -> Complex, a: nat, b: nat)
    ensures Sum(f, a + b) == Add(Sum(f, a), Sum(Shifted(f, a), b))
  {
    if b > 0 {
      SumSplit(f, a, b - 1);
    }
  }

  /** Every p-th term of f, starting from term q. */
  function Strand(f: int -> Complex, q: int, p: int): int -> Complex { r => f(q + r * p) }

  function Strands(f: int -> Complex, p: int, m: nat): int -> Complex { q => Sum(Strand(f, q, p), m) }

  /** A sum of p*m terms is the sum of its p interleaved strands: the decimation in time identity. */
  lemma {:induction false} SumByStrands(f: int -> Complex, p: nat, m: nat)
    ensures Sum(f, p * m) == Sum(Strands(f, p, m), p)
  {
    hide Add;
    if m == 0 {
      SumOfZeros(Strands(f, p, m), p);
    } else {
      SumByStrands(f, p, m - 1);
      assert p * m == p * (m - 1) + p;
      SumSplit(f, p * (m - 1), p);
      var last := Shifted(f, p * (m - 1));
      forall q | 0 <= q < p
        ensures Strands(f, p, m)(q) == Add(Strands(f, p, m - 1)(q), last(q))
      {
        assert Strand(f, q, p)(m - 1) == f(q + (m - 1) * p);
        assert p * (m - 1) + q == q + (m - 1) * p;
      }
      SumOfSums(Strands(f, p, m - 1), last, Strands(f, p, m), p);
    }
  }

  lemma {:induction false} SumOfZeros(f: int -> Complex, n: nat)
    requires forall i :: 0 <= i < n ==> f(i) == ZERO
    ensures Sum(f, n) == ZERO
  {
    if n > 0 {
      SumOfZeros(f, n - 1);
    }
  }

  /** Only one term is non-zero. */
  lemma {:induction false} SumOfOne(f: int -> Complex, n: nat, k: nat)
    requires k < n && forall i :: 0 <= i < n && i != k ==> f(i) == ZERO
    ensures Sum(f, n) == f(k)
  {
    if k == n - 1 {
      SumOfZeros(f, n - 1);
    } else {
      SumOfOne(f, n - 1, k);
    }
  }

  function RowSums(f: (int, int) -> Complex, n: nat): int -> Complex { i => Sum(Row(f, i), n) }

  function Row(f: (int, int) -> Complex, i: int): int -> Complex { j => f(i, j) }

  function ColumnSums(f: (int, int) -> Complex, m: nat): int -> Complex { j => Sum(Column(f, j), m) }

  function Column(f: (int, int) -> Complex, j: int): int -> Complex { i => f(i, j) }

  /** The order of a double sum can be exchanged. */
  lemma {:induction false} SumExchange(f: (int, int) -> Complex, m: nat, n: nat)
    ensures Sum(RowSums(f, n), m) == Sum(ColumnSums(f, m), n)
  {
    if m == 0 {
      SumOfZeros(ColumnSums(f, m), n);
    } else {
      SumExchange(f, m - 1, n);
      forall j | 0 <= j < n
        ensures ColumnSums(f, m)(j) == Add(ColumnSums(f, m - 1)(j), Row(f, m - 1)(j))
      {
        assert Column(f, j)(m - 1) == f(m - 1, j);
      }
      SumOfSums(ColumnSums(f, m - 1), Row(f, m - 1), ColumnSums(f, m), n);
    }
  }

  lemma SumOfOneTerm(f: int -> Complex)
    ensures Sum(f, 1) == f(0)
  {
    assert Sum(f, 1) == Add(Sum(f, 0), f(0));
  }

  lemma SumOfTwo(f: int -> Complex)
    ensures Sum(f, 2) == Add(f(0), f(1))
  {
    assert Sum(f, 1) == Add(ZERO, f(0));
  }

  lemma SumOfThree(f: int -> Complex)
    ensures Sum(f, 3) == Add(Add(f(0), f(1)), f(2))
  {
    SumOfTwo(f);
  }

  lemma SumOfFour(f: int -> Complex)
    ensures Sum(f, 4) == Add(Add(Add(f(0), f(1)), f(2)), f(3))
  {
    SumOfThree(f);
  }

  lemma SumOfFive(f: int -> Complex)
    ensures Sum(f, 5) == Add(Add(Add(Add(f(0), f(1)), f(2)), f(3)), f(4))
  {
    SumOfFour(f);
  }
}
