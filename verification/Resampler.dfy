/** resample.c, the direct form (resampler_basic_direct_single), float build, one channel with unit strides. */
module Resampling {
  import opened Remainders
  import opened Signals

  // ----- the ratio -----

  predicate Coprime(a: nat, b: nat) {
    forall d :: 2 <= d <= a && d <= b ==> !(Divides(d, a) && Divides(d, b))
  }

  lemma ExactQuotient(a: nat, f: nat)
    requires f > 0 && Divides(f, a)
    ensures a == (a / f) * f
    ensures a > 0 && f > 1 ==> 0 < a / f < a
  {
    var q := a / f;
    Exact(a, f, q);
    if a > 0 && f > 1 {
      SmallerQuotient(a, f, q);
    }
  }

  lemma Exact(a: nat, f: nat, q: int)
    requires f > 0 && a % f == 0 && q == a / f
    ensures a == q * f
  {}

  lemma SmallerQuotient(a: nat, f: nat, q: int)
    requires a > 0 && f > 1 && a == q * f
    ensures 0 < q < a
  {
    assert q <= 0 ==> q * f <= 0;
    assert q >= 0 ==> q * (f - 2) >= 0;
  }

  lemma DivisorOfQuotient(a: nat, f: nat, d: nat)
    requires f > 0 && d > 0 && Divides(f, a) && Divides(d, a / f)
    ensures Divides(d, a)
  {
    var q := a / f;
    ExactQuotient(a, f);
    ExactQuotient(q, d);
    assert a == ((q / d) * f) * d by {
      Regroup(q / d, d, f);
    }
    QuotientUnique(a, (q / d) * f, 0, d);
  }

  lemma Regroup(a: int, b: int, c: int)
    ensures (a * b) * c == (a * c) * b
  {}

  /** No common divisor below fact. */
  predicate CoprimeBelow(a: nat, b: nat, fact: nat) {
    forall d :: 2 <= d < fact && d <= a && d <= b ==> !(Divides(d, a) && Divides(d, b))
  }

  /** The loop of set_rate_frac: the ratio in lowest terms. */
  method Reduce(ratioNum: nat, ratioDen: nat) returns (num: nat, den: nat, ghost common: nat)
    requires ratioNum > 0 && ratioDen > 0
    ensures num > 0 && den > 0 && common > 0 && num * common == ratioNum && den * common == ratioDen
    ensures Coprime(num, den)
  {
    num, den, common := ratioNum, ratioDen, 1;
    var fact := 2;
    while fact <= (if num < den then num else den)
      invariant num > 0 && den > 0 && common > 0 && num * common == ratioNum && den * common == ratioDen
      invariant fact >= 2 && CoprimeBelow(num, den, fact)
      decreases num + den - fact
    {
      num, den, common := DivideOut(num, den, common, fact, ratioNum, ratioDen);
      fact := fact + 1;
    }
  }

  method DivideOut(num0: nat, den0: nat, ghost common0: nat, fact: nat, ghost ratioNum: nat, ghost ratioDen: nat)
    returns (num: nat, den: nat, ghost common: nat)
    requires num0 > 0 && den0 > 0 && common0 > 0 && num0 * common0 == ratioNum && den0 * common0 == ratioDen
    requires fact >= 2 && CoprimeBelow(num0, den0, fact)
    ensures 0 < num <= num0 && 0 < den <= den0 && common > 0 && num * common == ratioNum && den * common == ratioDen
    ensures CoprimeBelow(num, den, fact + 1)
  {
    num, den, common := num0, den0, common0;
    while num % fact == 0 && den % fact == 0
      invariant 0 < num <= num0 && 0 < den <= den0 && common > 0 && num * common == ratioNum && den * common == ratioDen
      invariant CoprimeBelow(num, den, fact)
      decreases num
    {
      ExactQuotient(num, fact);
      ExactQuotient(den, fact);
      StillCoprime(num, den, fact);
      Regroup(num / fact, fact, common);
      Regroup(den / fact, fact, common);
      Reassociate(num / fact, common, fact);
      Reassociate(den / fact, common, fact);
      num, den, common := num / fact, den / fact, common * fact;
    }
  }

  lemma Reassociate(a: int, b: int, c: int)
    ensures a * (b * c) == (a * b) * c
  {}

  lemma StillCoprime(num: nat, den: nat, fact: nat)
    requires fact >= 2 && num > 0 && den > 0 && Divides(fact, num) && Divides(fact, den) && CoprimeBelow(num, den, fact)
    ensures CoprimeBelow(num / fact, den / fact, fact)
  {
    ExactQuotient(num, fact);
    ExactQuotient(den, fact);
    forall d | 2 <= d < fact && d <= num / fact && d <= den / fact && Divides(d, num / fact) && Divides(d, den / fact)
      ensures false
    {
      DivisorOfQuotient(num, fact, d);
      DivisorOfQuotient(den, fact, d);
    }
  }

  // ----- update_filter -----

  /** The length update_filter chooses: when down-sampling, the largest multiple of four within the stretched length. */
  function FilterLength(baseLength: nat, num: nat, den: nat): (n: nat)
    requires baseLength % 4 == 0 && baseLength > 0 && num > 0 && den > 0
    ensures n % 4 == 0 && n >= baseLength
  {
    if num > den then
      StretchBounds(baseLength, num, den);
      baseLength * num / den / 4 * 4
    else baseLength
  }

  lemma FilterLengthIs(baseLength: nat, num: nat, den: nat, n: nat)
    requires baseLength % 4 == 0 && baseLength > 0 && num > 0 && den > 0 && n == FilterLength(baseLength, num, den)
    ensures num <= den ==> n == baseLength
    ensures num > den ==> n * den <= baseLength * num < (n + 4) * den
  {
    if num > den {
      StretchBounds(baseLength, num, den);
    }
  }

  lemma StretchBounds(base: nat, num: nat, den: nat)
    requires base % 4 == 0 && den > 0 && num > den
    ensures base * num / den >= base
    ensures base * num / den / 4 * 4 >= base
    ensures base * num / den / 4 * 4 * den <= base * num < (base * num / den / 4 * 4 + 4) * den
  {
    Monotone(den, num, base);
    QuotientAtLeast(base * num, den, base);
    var q := base * num / den;
    RoundDown(q, base);
    Monotone(q / 4 * 4, q, den);
    Remainder(base * num, den, q);
    Distributes(q, den);
    Monotone(q + 1, q / 4 * 4 + 4, den);
  }

  lemma Monotone(a: nat, b: nat, c: nat)
    requires a <= b
    ensures a * c <= b * c && c * a <= c * b
  {}

  lemma RoundDown(q: nat, base: nat)
    requires base % 4 == 0 && q >= base
    ensures base <= q / 4 * 4 <= q < q / 4 * 4 + 4
  {}

  lemma QuotientAtLeast(x: nat, den: nat, base: nat)
    requires den > 0 && x >= base * den
    ensures x / den >= base && x / den * den <= x
  {
    var q := x / den;
    Remainder(x, den, q);
    assert q < base ==> (base - 1 - q) * den >= 0;
  }

  lemma Remainder(x: nat, den: nat, q: int)
    requires den > 0 && q == x / den
    ensures q * den <= x < q * den + den
  {}

  // ----- what output k is -----

  /** Where output k starts in the padded input, and its phase in the sinc table. */
  function Start(k: nat, num: nat, den: nat): (s: nat)
    requires den > 0
  {
    NonNegative(k, num);
    k * num / den
  }

  function Phase(k: nat, num: nat, den: nat): (f: nat)
    requires den > 0
    ensures f < den
  {
    NonNegative(k, num);
    k * num % den
  }

  lemma NonNegative(a: nat, b: nat)
    ensures 0 <= a * b
  {}

  /** The input as the filter sees it: n - 1 zeros of history first. */
  function Padded(x: Signal, n: nat): (h: Signal)
    requires n > 0
    ensures |h| == n - 1 + |x|
  {
    Silence(n - 1) + x
  }

  /** Output k of the stream x: an inner product at the start and phase of k. */
  function Output(x: Signal, k: nat, sinc: seq<real>, n: nat, num: nat, den: nat): real
    requires n > 0 && den > 0 && |sinc| >= den * n && Start(k, num, den) < |x|
  {
    var s, f := Start(k, num, den), Phase(k, num, den);
    BlockFits(f, n);
    BlockBound(f, den, n);
    Dot(Padded(x, n)[s..s + n], sinc, f * n, n)
  }

  /** The sum of c[base + j] * x[at + j] over j < n, both zero beyond their ends. */
  function Overlap(c: seq<real>, base: int, x: Signal, at: int, n: nat): real {
    if n == 0 then 0.0
    else Overlap(c, base, x, at, n - 1) + Product(Entry(x, at + n - 1), Entry(c, base + n - 1))
  }

  lemma {:induction false} DotIsOverlap(h: Signal, c: seq<real>, base: nat, x: Signal, at: int, n: nat)
    requires n <= |h| && base + n <= |c| && forall j :: 0 <= j < n ==> h[j] == Entry(x, at + j)
    ensures Dot(h, c, base, n) == Overlap(c, base, x, at, n)
  {
    hide Product;
    if n > 0 {
      DotIsOverlap(h, c, base, x, at, n - 1);
    }
  }

  /** Output k is the overlap of its row of the table with the n samples up to its own, and silence before the first. */
  lemma OutputIsOverlap(x: Signal, k: nat, sinc: seq<real>, n: nat, num: nat, den: nat)
    requires n > 0 && den > 0 && |sinc| >= den * n && Start(k, num, den) < |x|
    ensures Output(x, k, sinc, n, num, den) == Overlap(sinc, k * num % den * n, x, k * num / den - (n - 1), n)
  {
    var s, f := Start(k, num, den), Phase(k, num, den);
    BlockFits(f, n);
    BlockBound(f, den, n);
    var h := Padded(x, n)[s..s + n];
    hide Padded, Phase, Start, Overlap, Dot;
    WindowIs(x, n, s, h);
    DotIsOverlap(h, sinc, f * n, x, s - (n - 1), n);
    assert s == k * num / den && f == k * num % den by {
      PlaceIs(k, num, den);
    }
  }

  lemma PlaceIs(k: nat, num: nat, den: nat)
    requires den > 0
    ensures Start(k, num, den) == k * num / den && Phase(k, num, den) == k * num % den
  {}

  lemma WindowIs(x: Signal, n: nat, s: nat, h: Signal)
    requires n > 0 && s < |x| && h == Padded(x, n)[s..s + n]
    ensures forall j :: 0 <= j < n ==> h[j] == Entry(x, s - (n - 1) + j)
  {
    forall j | 0 <= j < n
      ensures h[j] == Entry(x, s - (n - 1) + j)
    {
      assert h[j] == Padded(x, n)[s + j];
    }
  }

  /** What a row of the table does: a single one in column c of row f lets the sample c - (n - 1) from its own through
      at the outputs of phase f, and makes all others zero. */
  lemma OneHotRow(x: Signal, k: nat, sinc: seq<real>, n: nat, num: nat, den: nat, f: nat, c: nat)
    requires den > 0 && f < den && c < n && |sinc| == den * n
    requires forall i :: 0 <= i < |sinc| ==> sinc[i] == if i == f * n + c then 1.0 else 0.0
    ensures Overlap(sinc, k * num % den * n, x, k * num / den - (n - 1), n)
      == if k * num % den == f then Entry(x, k * num / den - (n - 1) + c) else 0.0
  {
    PlaceIs(k, num, den);
    var at, g := Start(k, num, den) - (n - 1), Phase(k, num, den);
    BlockFits(g, n);
    BlockBound(g, den, n);
    RowsApart(f, c, g, n);
    hide Start, Phase;
    OneHot(sinc, g * n, x, at, n, f * n + c - g * n);
  }

  lemma RowsApart(f: nat, c: nat, g: nat, n: nat)
    requires c < n
    ensures 0 <= f * n + c - g * n < n <==> f == g
    ensures f == g ==> f * n + c - g * n == c
  {
    var d := f - g;
    assert f * n - g * n == d * n;
    assert d >= 1 ==> (d - 1) * n >= 0;
    assert d <= -1 ==> (-1 - d) * n >= 0;
  }

  lemma {:induction false} OneHot(sinc: seq<real>, base: nat, x: Signal, at: int, n: nat, c: int)
    requires base + n <= |sinc|
    requires forall i :: 0 <= i < |sinc| ==> sinc[i] == if i == base + c then 1.0 else 0.0
    ensures Overlap(sinc, base, x, at, n) == if 0 <= c < n then Entry(x, at + c) else 0.0
  {
    if n > 0 {
      OneHot(sinc, base, x, at, n - 1, c);
      assert Entry(sinc, base + n - 1) == if n - 1 == c then 1.0 else 0.0;
    }
  }

  /** Later input does not matter. */
  lemma OutputPrefix(x: Signal, y: Signal, k: nat, sinc: seq<real>, n: nat, num: nat, den: nat)
    requires n > 0 && den > 0 && |sinc| >= den * n && Start(k, num, den) < |x| && x <= y
    ensures Output(x, k, sinc, n, num, den) == Output(y, k, sinc, n, num, den)
  {
    var s := Start(k, num, den);
    var a, b := Padded(x, n), Padded(y, n);
    assert a[s..s + n] == b[s..s + n] by {
      assert forall i :: s <= i < s + n ==> a[i] == b[i];
    }
  }

  /** consumed + last whole input steps and frac parts of den place output k at k * num / den. */
  predicate Position(k: nat, at: int, frac: int, num: nat, den: nat) {
    0 <= frac < den && Times(at, den) + frac == Times(k, num)
  }

  lemma PositionIs(k: nat, at: int, frac: int, num: nat, den: nat)
    requires den > 0 && Position(k, at, frac, num, den)
    ensures at == Start(k, num, den) && frac == Phase(k, num, den)
  {
    QuotientUnique(k * num, at, frac, den);
  }

  /** One output on: whole and fractional advance, with a carry. */
  lemma Advance(k: nat, at: int, frac: int, num: nat, den: nat)
    requires den > 0 && Position(k, at, frac, num, den)
    ensures var f := frac + num % den;
      Position(k + 1, at + num / den + (if f >= den then 1 else 0), if f >= den then f - den else f, num, den)
  {
    var q, m := num / den, num % den;
    SplitProduct(num, den, q, m);
    Distributes(k, num);
    DistributesTwice(at, q, den);
  }

  lemma SplitProduct(num: nat, den: nat, q: int, m: int)
    requires den > 0 && q == num / den && m == num % den
    ensures num == Times(q, den) + m && 0 <= m < den
  {}

  lemma Distributes(k: nat, num: nat)
    ensures Times(k + 1, num) == Times(k, num) + num
  {}

  lemma DistributesTwice(at: int, q: int, den: int)
    ensures Times(at + q, den) == Times(at, den) + Times(q, den)
    ensures Times(at + q + 1, den) == Times(at, den) + Times(q, den) + den
  {}

  // ----- the code -----

  /** The four partial sums of the inner loop. */
  method InnerProduct4(sinc: seq<real>, base: nat, iptr: Signal, n: nat) returns (sum: real)
    requires n % 4 == 0 && n == |iptr| && base + n <= |sinc|
    ensures sum == Dot(iptr, sinc, base, n)
  {
    hide Product;
    var accum0, accum1, accum2, accum3 := 0.0, 0.0, 0.0, 0.0;
    var j := 0;
    while j < n
      invariant 0 <= j <= n && j % 4 == 0
      invariant accum0 + accum1 + accum2 + accum3 == Dot(iptr, sinc, base, j)
    {
      FourTerms(iptr, sinc, base, j);
      accum0 := accum0 + Product(iptr[j], sinc[base + j]);
      accum1 := accum1 + Product(iptr[j + 1], sinc[base + j + 1]);
      accum2 := accum2 + Product(iptr[j + 2], sinc[base + j + 2]);
      accum3 := accum3 + Product(iptr[j + 3], sinc[base + j + 3]);
      j := j + 4;
    }
    sum := accum0 + accum1 + accum2 + accum3;
  }

  lemma FourTerms(x: Signal, c: seq<real>, base: nat, j: nat)
    requires j + 4 <= |x| && base + j + 4 <= |c|
    ensures Dot(x, c, base, j + 4)
      == Dot(x, c, base, j) + Product(x[j], c[base + j]) + Product(x[j + 1], c[base + j + 1])
      + Product(x[j + 2], c[base + j + 2]) + Product(x[j + 3], c[base + j + 3])
  {
    hide Product;
    assert Dot(x, c, base, j + 2)
      == Dot(x, c, base, j) + Product(x[j], c[base + j]) + Product(x[j + 1], c[base + j + 1]);
  }

  class Resampler {
    const numRate: nat
    const denRate: nat
    const filtLen: nat
    const intAdvance: nat
    const fracAdvance: nat
    const sincTable: seq<real>
    const mem: array<real>
    var lastSample: int
    var sampFracNum: int

    /** Everything consumed so far, and the number of outputs made of it. */
    ghost var fed: Signal
    ghost var made: nat

    ghost predicate Shape() {
      && denRate > 0 && filtLen > 0 && filtLen % 4 == 0
      && intAdvance == numRate / denRate && fracAdvance == numRate % denRate
      && |sincTable| >= denRate * filtLen && mem.Length >= filtLen
    }

    ghost predicate Valid()
      reads this, mem
    {
      && Shape()
      && lastSample >= 0
      && Position(made, |fed| + lastSample, sampFracNum, numRate, denRate)
      && mem[..filtLen - 1] == Padded(fed, filtLen)[|fed|..]
    }

    /** A fresh resampler: the memory is silent. */
    constructor (num: nat, den: nat, n: nat, sinc: seq<real>, bufferSize: nat)
      requires num > 0 && den > 0 && n > 0 && n % 4 == 0 && |sinc| >= den * n && bufferSize > 0
      ensures Valid() && fresh(mem) && fed == [] && made == 0 && numRate == num && denRate == den
      ensures filtLen == n && sincTable == sinc && mem.Length == n - 1 + bufferSize
    {
      numRate, denRate, filtLen, sincTable := num, den, n, sinc;
      intAdvance, fracAdvance := num / den, num % den;
      mem := new real[n - 1 + bufferSize](_ => 0.0);
      lastSample, sampFracNum := 0, 0;
      fed, made := [], 0;
      new;
      assert mem[..filtLen - 1] == Silence(n - 1) == Padded(fed, filtLen)[0..];
    }

    /** The memory holds the history of what was consumed, then the chunk. */
    ghost predicate Loaded(chunk: Signal)
      requires Shape()
      reads this, mem
    {
      && filtLen - 1 + |chunk| <= mem.Length
      && mem[..filtLen - 1 + |chunk|] == Padded(fed + chunk, filtLen)[|fed|..]
    }

    /** ys are the outputs of x from number k on. */
    ghost predicate Makes(x: Signal, k: nat, ys: seq<real>)
      requires Shape()
    {
      forall i :: 0 <= i < |ys| ==> MakesOne(x, k + i, ys[i])
    }

    ghost predicate MakesOne(x: Signal, k: nat, y: real)
      requires Shape()
    {
      Start(k, numRate, denRate) < |x| && y == Output(x, k, sincTable, filtLen, numRate, denRate)
    }

    /** ys are all the outputs x has: the next one starts beyond its end. */
    ghost predicate Complete(x: Signal, ys: seq<real>)
      requires Shape()
    {
      Makes(x, 0, ys) && Start(|ys|, numRate, denRate) >= |x|
    }

    /** Every output from number k on is the overlap of its row of the table with the samples up to its own. */
    ghost predicate Sums(x: Signal, k: nat, ys: seq<real>)
      requires Shape()
    {
      forall i :: 0 <= i < |ys| ==>
        ys[i] == Overlap(sincTable, (k + i) * numRate % denRate * filtLen,
                         x, (k + i) * numRate / denRate - (filtLen - 1), filtLen)
    }

    lemma MadeOverlaps(x: Signal, k: nat, ys: seq<real>)
      requires Shape() && Makes(x, k, ys)
      ensures Sums(x, k, ys)
    {
      hide Overlap, Output;
      forall i | 0 <= i < |ys|
        ensures ys[i] == Overlap(sincTable, (k + i) * numRate % denRate * filtLen,
                                 x, (k + i) * numRate / denRate - (filtLen - 1), filtLen)
      {
        assert MakesOne(x, k + i, ys[i]);
        OutputIsOverlap(x, k + i, sincTable, filtLen, numRate, denRate);
      }
    }

    /** One output sample, read at the current position. */
    method OneOutput(at: int, frac: int, ghost chunk: Signal, ghost k: nat) returns (y: real)
      requires Shape() && Loaded(chunk) && 0 <= at < |chunk| && Position(k, |fed| + at, frac, numRate, denRate)
      ensures MakesOne(fed + chunk, k, y)
    {
      PositionIs(k, |fed| + at, frac, numRate, denRate);
      BlockFits(frac, filtLen);
      BlockBound(frac, denRate, filtLen);
      ghost var h := Padded(fed + chunk, filtLen);
      assert mem[at..at + filtLen] == h[|fed| + at..|fed| + at + filtLen] by {
        SameWindow(mem[..filtLen - 1 + |chunk|], h, |fed|, at, filtLen);
        assert mem[at..at + filtLen] == mem[..filtLen - 1 + |chunk|][at..at + filtLen];
      }
      y := InnerProduct4(sincTable, frac * filtLen, mem[at..at + filtLen], filtLen);
    }

    static lemma SameWindow(a: Signal, h: Signal, from: nat, at: nat, n: nat)
      requires from <= |h| && a == h[from..] && at + n <= |a|
      ensures a[at..at + n] == h[from + at..from + at + n]
    {}

    /** resampler_basic_direct_single: outputs until the chunk or the room is used up. */
    method Basic(inLen: nat, out: array<real>, base: nat, outLen: nat, ghost chunk: Signal) returns (outSample: nat)
      requires Shape() && lastSample >= 0 && Position(made, |fed| + lastSample, sampFracNum, numRate, denRate)
      requires Loaded(chunk) && |chunk| == inLen && base + outLen <= out.Length && out != mem
      modifies this`lastSample, this`sampFracNum, this`made, out
      ensures outSample <= outLen && made == old(made) + outSample
      ensures lastSample >= old(lastSample) && Position(made, |fed| + lastSample, sampFracNum, numRate, denRate)
      ensures lastSample >= inLen || outSample == outLen
      ensures outSample == 0 ==> lastSample == old(lastSample)
      ensures Makes(fed + chunk, old(made), out[base..base + outSample])
      ensures Sums(fed + chunk, old(made), out[base..base + outSample])
      ensures out[..base] == old(out[..base]) && out[base + outSample..] == old(out[base + outSample..])
    {
      hide Position, MakesOne, Shape, Loaded, Sums;
      outSample := 0;
      var last, frac := lastSample, sampFracNum;
      ghost var k0 := made;
      while !(last >= inLen || outSample >= outLen)
        invariant 0 <= outSample <= outLen && lastSample == old(lastSample) && made == k0
        invariant last >= old(lastSample) && Position(k0 + outSample, |fed| + last, frac, numRate, denRate)
        invariant outSample == 0 ==> last == old(lastSample)
        invariant Shape() && Loaded(chunk)
        invariant Makes(fed + chunk, k0, out[base..base + outSample])
        invariant out[..base] == old(out[..base]) && out[base + outSample..] == old(out[base + outSample..])
        decreases outLen - outSample
      {
        var y := OneOutput(last, frac, chunk, k0 + outSample);
        out[base + outSample] := y;
        assert out[base..base + outSample + 1] == out[base..base + outSample] + [y];
        ghost var last0, frac0 := last, frac;
        AdvanceBy(k0 + outSample, |fed| + last, frac);
        last := last + intAdvance;
        frac := frac + fracAdvance;
        if frac >= denRate {
          frac := frac - denRate;
          last := last + 1;
        }
        outSample := outSample + 1;
      }
      lastSample := last;
      sampFracNum := frac;
      made := made + outSample;
      MadeOverlaps(fed + chunk, k0, out[base..base + outSample]);
    }

    lemma AdvanceBy(k: nat, at: int, frac: int)
      requires Shape() && Position(k, at, frac, numRate, denRate)
      ensures var f := frac + fracAdvance;
        Position(k + 1, at + intAdvance + (if f >= denRate then 1 else 0),
                 if f >= denRate then f - denRate else f, numRate, denRate)
    {
      Advance(k, at, frac, numRate, denRate);
    }

    /** mem[j] = mem[j + ilen] for the history. */
    method ShiftMemory(ilen: nat)
      requires Shape() && filtLen - 1 + ilen <= mem.Length
      modifies mem
      ensures mem[..filtLen - 1] == old(mem[ilen..filtLen - 1 + ilen])
    {
      var j := 0;
      while j < filtLen - 1
        invariant 0 <= j <= filtLen - 1
        invariant forall k :: 0 <= k < j ==> mem[k] == old(mem[k + ilen])
        invariant forall k :: j <= k < mem.Length ==> mem[k] == old(mem[k])
      {
        mem[j] := mem[j + ilen];
        j := j + 1;
      }
    }

    static lemma HistoryMoves(fed: Signal, chunk: Signal, n: nat, consumed: nat, m: Signal)
      requires n > 0 && consumed <= |chunk| && n - 1 + |chunk| == |m| && m == Padded(fed + chunk, n)[|fed|..]
      ensures m[consumed..n - 1 + consumed] == Padded(fed + chunk[..consumed], n)[|fed| + consumed..]
    {
      var a, b := m[consumed..n - 1 + consumed], Padded(fed + chunk[..consumed], n)[|fed| + consumed..];
      assert |a| == |b| == n - 1;
      forall i | 0 <= i < n - 1
        ensures a[i] == b[i]
      {
        assert a[i] == Padded(fed + chunk, n)[|fed| + consumed + i];
      }
    }

    /** speex_resampler_process_native: run over the loaded chunk, then forget what was used up. */
    method ProcessNative(inLen: nat, out: array<real>, base: nat, outLen: nat, ghost chunk: Signal)
      returns (consumed: nat, produced: nat)
      requires Valid() && Loaded(chunk) && |chunk| == inLen && base + outLen <= out.Length && out != mem
      modifies this`lastSample, this`sampFracNum, this`made, this`fed, mem, out
      ensures Valid() && consumed <= inLen && produced <= outLen
      ensures fed == old(fed) + chunk[..consumed] && made == old(made) + produced
      ensures consumed == inLen || produced == outLen
      ensures produced == 0 && outLen > 0 ==> consumed == inLen
      ensures Makes(old(fed) + chunk, old(made), out[base..base + produced])
      ensures out[..base] == old(out[..base]) && out[base + produced..] == old(out[base + produced..])
    {
      hide MakesOne, Position, Padded, Sums;
      produced := Basic(inLen, out, base, outLen, chunk);
      consumed := if lastSample < inLen then lastSample else inLen;
      lastSample := lastSample - consumed;
      ghost var m := mem[..filtLen - 1 + inLen];
      HistoryMoves(fed, chunk, filtLen, consumed, m);
      assert mem[consumed..filtLen - 1 + consumed] == m[consumed..filtLen - 1 + consumed];
      ShiftMemory(consumed);
      fed := fed + chunk[..consumed];
    }

    /** x[j + filt_offs] = in[j] */
    method Load(input: array<real>, from: nat, n: nat)
      requires Valid() && from + n <= input.Length && filtLen - 1 + n <= mem.Length && input != mem
      modifies mem
      ensures Valid() && Loaded(input[from..from + n])
    {
      hide Position;
      for j := 0 to n
        invariant mem[..filtLen - 1] == old(mem[..filtLen - 1])
        invariant mem[filtLen - 1..filtLen - 1 + j] == input[from..from + j]
      {
        mem[j + (filtLen - 1)] := input[from + j];
      }
      ghost var m := mem[..filtLen - 1 + n];
      assert m[..filtLen - 1] == mem[..filtLen - 1] && m[filtLen - 1..] == mem[filtLen - 1..filtLen - 1 + n];
      LoadedIs(fed, input[from..from + n], filtLen, m);
    }

    static lemma LoadedIs(fed: Signal, chunk: Signal, n: nat, m: Signal)
      requires n > 0 && |m| == n - 1 + |chunk| && m[..n - 1] == Padded(fed, n)[|fed|..]
      requires m[n - 1..] == chunk
      ensures m == Padded(fed + chunk, n)[|fed|..]
    {
      assert m == m[..n - 1] + m[n - 1..];
      assert Padded(fed + chunk, n) == Padded(fed, n) + chunk;
    }

    /** The loop of speex_resampler_process_float: chunk by chunk, until the input or the room runs out. */
    method Process(input: array<real>, out: array<real>) returns (consumed: nat, produced: nat)
      requires Valid() && input != mem && out != mem && input != out
      modifies this`lastSample, this`sampFracNum, this`made, this`fed, mem, out
      ensures Valid() && consumed <= input.Length && produced <= out.Length
      ensures fed == old(fed) + input[..consumed] && made == old(made) + produced
      ensures consumed == input.Length || produced == out.Length
      ensures Makes(old(fed) + input[..], old(made), out[..produced])
      ensures out[produced..] == old(out[produced..])
    {
      var ilen, olen, xlen := input.Length, out.Length, mem.Length - (filtLen - 1);
      assert xlen > 0;
      hide MakesOne, Position, Padded, Shape;
      consumed, produced := 0, 0;
      while ilen > 0 && olen > 0
        invariant ilen == input.Length - consumed >= 0 && olen == out.Length - produced >= 0
        invariant Valid() && fed == old(fed) + input[..consumed] && made == old(made) + produced
        invariant Makes(old(fed) + input[..], old(made), out[..produced])
        invariant out[produced..] == old(out[produced..])
        decreases ilen + olen
      {
        var ichunk := if ilen > xlen then xlen else ilen;
        var dc, dp := ProcessChunk(input, consumed, ichunk, out, produced, olen, old(fed), old(made));
        ilen, olen := ilen - dc, olen - dp;
        consumed, produced := consumed + dc, produced + dp;
      }
    }

    /** One turn of the loop. */
    method ProcessChunk(input: array<real>, from: nat, ichunk: nat, out: array<real>, base: nat, olen: nat,
                        ghost fed0: Signal, ghost made0: nat) returns (dc: nat, dp: nat)
      requires Valid() && from + ichunk <= input.Length && filtLen - 1 + ichunk <= mem.Length && ichunk > 0
      requires base + olen <= out.Length && olen > 0 && input != mem && out != mem && input != out
      requires fed == fed0 + input[..from] && made == made0 + base
      requires Makes(fed0 + input[..], made0, out[..base])
      modifies this`lastSample, this`sampFracNum, this`made, this`fed, mem, out
      ensures Valid() && dc <= ichunk && dp <= olen && dc + dp > 0 && (dc == ichunk || dp == olen)
      ensures fed == fed0 + input[..from + dc] && made == made0 + base + dp
      ensures Makes(fed0 + input[..], made0, out[..base + dp])
      ensures out[base + dp..] == old(out[base + dp..])
    {
      hide MakesOne, Position, Padded, Shape;
      ghost var chunk := input[from..from + ichunk];
      Load(input, from, ichunk);
      assert fed + chunk == fed0 + input[..from + ichunk];
      dc, dp := ProcessNative(ichunk, out, base, olen, chunk);
      assert chunk[..dc] == input[from..from + dc];
      assert fed0 + input[..from] + input[from..from + dc] == fed0 + input[..from + dc];
      LongerStream(fed0 + input[..from + ichunk], fed0 + input[..], made0 + base, out[base..base + dp]);
      assert out[..base + dp] == out[..base] + out[base..base + dp];
      JoinMade(fed0 + input[..], made0, out[..base], out[base..base + dp]);
    }

    /** What was made of a prefix was made of the whole stream. */
    lemma LongerStream(x: Signal, y: Signal, k: nat, ys: seq<real>)
      requires Shape() && x <= y && Makes(x, k, ys)
      ensures Makes(y, k, ys)
    {
      forall i | 0 <= i < |ys|
        ensures MakesOne(y, k + i, ys[i])
      {
        assert MakesOne(x, k + i, ys[i]);
        OutputPrefix(x, y, k + i, sincTable, filtLen, numRate, denRate);
      }
    }

    lemma JoinMade(x: Signal, k: nat, a: seq<real>, b: seq<real>)
      requires Shape() && Makes(x, k, a) && Makes(x, k + |a|, b)
      ensures Makes(x, k, a + b)
    {
      hide MakesOne;
      forall i | 0 <= i < |a + b|
        ensures MakesOne(x, k + i, (a + b)[i])
      {
        assert i >= |a| ==> MakesOne(x, k + |a| + (i - |a|), b[i - |a|]);
      }
    }
  }

  /** One call of a session: how many samples the caller offers, and how much room it gives. */
  datatype Call = Call(offer: nat, room: nat)

  /** Any session on any stream: however offers and room are split, what comes out is output 0, 1, 2, ... of the
      stream, output i being the sum of row i * num % den of the table times the samples up to i * num / den, and the
      position stays exact. */
  method Session(st: Resampler, x: Signal, calls: seq<Call>) returns (ys: seq<real>, consumed: nat)
    requires st.Valid() && st.fed == [] && st.made == 0
    modifies st, st.mem
    ensures st.Valid() && consumed <= |x| && st.fed == x[..consumed] && st.made == |ys|
    ensures st.Makes(x, 0, ys)
    ensures forall i :: 0 <= i < |ys| ==>
      ys[i] == Overlap(st.sincTable, i * st.numRate % st.denRate * st.filtLen,
                       x, i * st.numRate / st.denRate - (st.filtLen - 1), st.filtLen)
    ensures Times(consumed + st.lastSample, st.denRate) + st.sampFracNum == Times(|ys|, st.numRate)
    ensures consumed == |x| ==> st.Complete(x, ys)
  {
    hide Times, Padded, Resampler.MakesOne, Output;
    ys, consumed := [], 0;
    for i := 0 to |calls|
      invariant consumed <= |x| && st.Valid() && st.fed == x[..consumed] && st.made == |ys|
      invariant st.Makes(x, 0, ys)
    {
      var offer := if calls[i].offer < |x| - consumed then calls[i].offer else |x| - consumed;
      var more;
      consumed, more := Serve(st, x, consumed, offer, calls[i].room, |ys|);
      st.JoinMade(x, 0, ys, more);
      ys := ys + more;
    }
    st.MadeOverlaps(x, 0, ys);
    NothingMissing(consumed, st.lastSample, |ys|, st.sampFracNum, st.numRate, st.denRate);
  }

  method Serve(st: Resampler, x: Signal, consumed: nat, offer: nat, room: nat, ghost k: nat)
    returns (consumed': nat, more: seq<real>)
    requires st.Valid() && consumed + offer <= |x| && st.fed == x[..consumed] && st.made == k
    modifies st, st.mem
    ensures st.Valid() && consumed <= consumed' <= consumed + offer && st.fed == x[..consumed'] && st.made == k + |more|
    ensures st.Makes(x, k, more) && |more| <= room && (consumed' == consumed + offer || |more| == room)
  {
    hide Position, Padded, Resampler.MakesOne, Resampler.Shape;
    var input := new real[offer](j requires 0 <= j < offer => x[consumed + j]);
    var out := new real[room];
    assert input[..] == x[consumed..consumed + offer];
    var dc, dp := st.Process(input, out);
    consumed', more := consumed + dc, out[..dp];
    assert input[..dc] == x[consumed..consumed + dc];
    assert x[..consumed] + x[consumed..consumed + dc] == x[..consumed + dc];
    assert x[..consumed] + x[consumed..consumed + offer] == x[..consumed + offer];
    st.LongerStream(x[..consumed + offer], x, k, more);
  }

  /** Two sessions on the same stream differ at most in how far they got. */
  lemma SessionsAgree(st: Resampler, x: Signal, a: seq<real>, b: seq<real>)
    requires st.Shape() && st.Makes(x, 0, a) && st.Makes(x, 0, b) && |a| <= |b|
    ensures a == b[..|a|]
  {
    forall i | 0 <= i < |a|
      ensures a[i] == b[i]
    {
      assert st.MakesOne(x, 0 + i, a[i]) && st.MakesOne(x, 0 + i, b[i]);
    }
  }

  /** Two sessions that used the whole stream up produced the same samples, all of them, whatever their calls were. */
  lemma CompleteSessionsAgree(st: Resampler, x: Signal, a: seq<real>, b: seq<real>)
    requires st.Shape() && st.Complete(x, a) && st.Complete(x, b)
    ensures a == b
  {
    NoMore(st, x, a, b);
    NoMore(st, x, b, a);
    SessionsAgree(st, x, a, b);
  }

  lemma NoMore(st: Resampler, x: Signal, a: seq<real>, b: seq<real>)
    requires st.Shape() && st.Complete(x, a) && st.Makes(x, 0, b)
    ensures |b| <= |a|
  {
    assert |a| < |b| ==> st.MakesOne(x, 0 + |a|, b[|a|]);
  }

  /** Once everything offered has been consumed, the next output needs input still to come: none was left out. */
  lemma NothingMissing(consumed: nat, last: nat, made: nat, frac: int, num: nat, den: nat)
    requires den > 0 && Position(made, consumed + last, frac, num, den)
    ensures Start(made, num, den) >= consumed
  {
    PositionIs(made, consumed + last, frac, num, den);
  }
}
