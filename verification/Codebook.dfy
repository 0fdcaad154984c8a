/** A split shape/sign codebook (cb_search.h), the excitation a list of indices stands for, and the error of that
    excitation against a target once it has passed through the impulse response r. */
module ShapeCodebook {
  import opened BitFields
  import opened Remainders
  import opened Signals
  import opened VectorQuantizer

  datatype Codebook = Codebook(shape: seq<int>, subvectSize: nat, nbSubvect: nat, shapeBits: nat, haveSign: bool) {

    predicate Valid() { subvectSize > 0 && |shape| == Entries() * subvectSize }

    function Entries(): (n: nat)
      ensures n > 0
    {
      Pow2(shapeBits)
    }

    predicate IsIndex(ind: int) { 0 <= ind < (if haveSign then 2 * Entries() else Entries()) }

    predicate AreIndices(inds: seq<int>) { forall i :: 0 <= i < |inds| ==> IsIndex(inds[i]) }

    function Row(ind: int): int { if ind >= Entries() then ind - Entries() else ind }

    /** sign * 0.03125 * shape_cb[rind * subvect_size + m] */
    function Sample(ind: int, m: nat): real
      requires Valid() && IsIndex(ind) && m < subvectSize
    {
      RowInTable(Row(ind), m);
      var sign := if ind >= Entries() then -1 else 1;
      0.03125 * (sign * shape[Row(ind) * subvectSize + m]) as real
    }

    lemma RowInTable(row: nat, m: nat)
      requires Valid() && row < Entries() && m < subvectSize
      ensures 0 <= row * subvectSize && row * subvectSize + m < |shape|
    {
      BlockBound(row, Entries(), subvectSize);
      BlockFits(row, subvectSize);
    }

    function Codeword(ind: int): (v: Signal)
      requires Valid() && IsIndex(ind)
      ensures |v| == subvectSize
    {
      seq(subvectSize, m requires 0 <= m < subvectSize => Sample(ind, m))
    }

    /** The subvectors, one after the other. */
    function Excitation(inds: seq<int>): (e: Signal)
      requires Valid() && AreIndices(inds)
      ensures |e| == |inds| * subvectSize
    {
      if inds == [] then []
      else
        BlockFits(|inds| - 1, subvectSize);
        Excitation(inds[..|inds| - 1]) + Codeword(inds[|inds| - 1])
    }

    lemma ExcitationStep(inds: seq<int>, ind: int)
      requires Valid() && AreIndices(inds) && IsIndex(ind)
      ensures AreIndices(inds + [ind])
      ensures Excitation(inds + [ind]) == Excitation(inds) + Codeword(ind)
    {
      assert (inds + [ind])[..|inds|] == inds;
    }

    /** Excitation and code word agree sample by sample. */
    lemma {:induction false} ExcitationAt(inds: seq<int>, i: nat, m: nat)
      requires Valid() && AreIndices(inds) && i < |inds| && m < subvectSize
      ensures i * subvectSize + m < |inds| * subvectSize
      ensures Excitation(inds)[i * subvectSize + m] == Sample(inds[i], m)
    {
      BlockFits(i, subvectSize);
      BlockBound(i, |inds|, subvectSize);
      if i < |inds| - 1 {
        ExcitationAt(inds[..|inds| - 1], i, m);
      }
    }
  }

  /** Sample m of subvector i, in numbers: 1/32 of the table's, from the row the index gives, or negated from the row it
      gives past the last. */
  lemma ExcitationIs(cb: Codebook, inds: seq<int>, i: nat, m: nat)
    requires cb.Valid() && cb.AreIndices(inds) && i < |inds| && m < cb.subvectSize
    ensures i * cb.subvectSize + m < |inds| * cb.subvectSize
    ensures inds[i] < Pow2(cb.shapeBits) ==>
      && 0 <= inds[i] * cb.subvectSize + m < |cb.shape|
      && cb.Excitation(inds)[i * cb.subvectSize + m] * 32.0 == cb.shape[inds[i] * cb.subvectSize + m] as real
    ensures inds[i] >= Pow2(cb.shapeBits) ==>
      var row := inds[i] - Pow2(cb.shapeBits);
      && 0 <= row * cb.subvectSize + m < |cb.shape|
      && cb.Excitation(inds)[i * cb.subvectSize + m] * 32.0 == -(cb.shape[row * cb.subvectSize + m] as real)
  {
    hide Codebook.Excitation, Pow2;
    cb.ExcitationAt(inds, i, m);
    var row := if inds[i] >= Pow2(cb.shapeBits) then inds[i] - Pow2(cb.shapeBits) else inds[i];
    assert cb.IsIndex(inds[i]);
    cb.RowInTable(row, m);
  }

  function Squares(x: Signal): real {
    if x == [] then 0.0 else Squares(x[..|x| - 1]) + Product(x[|x| - 1], x[|x| - 1])
  }

  /** What is left of the target once the response to e is taken off. */
  function Residual(target: Signal, e: Signal, r: Signal): (t: Signal)
    ensures |t| == |target|
  {
    seq(|target|, n requires 0 <= n < |target| => target[n] - Convolution(r, e, n, |e|))
  }

  /** Half the squared error over the subvectors decided so far. */
  function Cost(cb: Codebook, target: Signal, r: Signal, inds: seq<int>): real
    requires cb.Valid() && cb.AreIndices(inds) && |inds| * cb.subvectSize <= |target|
  {
    0.5 * Squares(Residual(target, cb.Excitation(inds), r)[..|inds| * cb.subvectSize])
  }

  // ----- convolution, piece by piece -----

  lemma {:induction false} ConvolutionSplit(r: Signal, e: Signal, v: Signal, s: int, k: nat)
    requires k <= |v|
    ensures Convolution(r, e + v, s, |e| + k) == Convolution(r, e, s, |e|) + Convolution(r, v, s - |e|, k)
  {
    if k == 0 {
      PrefixConvolution(r, e, v, s, |e|);
    } else {
      ConvolutionSplit(r, e, v, s, k - 1);
      hide Product, Entry;
      assert (e + v)[|e| + k - 1] == v[k - 1];
    }
  }

  lemma {:induction false} PrefixConvolution(r: Signal, e: Signal, v: Signal, s: int, k: nat)
    requires k <= |e|
    ensures Convolution(r, e + v, s, k) == Convolution(r, e, s, k)
  {
    hide Product, Entry;
    if k > 0 {
      PrefixConvolution(r, e, v, s, k - 1);
    }
  }

  /** The future does not matter. */
  lemma {:induction false} ConvolutionCausal(r: Signal, v: Signal, s: int, k: nat, n: nat)
    requires s < k <= n <= |v|
    ensures Convolution(r, v, s, n) == Convolution(r, v, s, k)
    decreases n
  {
    if k < n {
      ConvolutionCausal(r, v, s, k, n - 1);
      ZeroProduct(v[n - 1]);
    }
  }

  lemma {:induction false} ConvolutionBefore(r: Signal, v: Signal, s: int, n: nat)
    requires s < 0 && n <= |v|
    ensures Convolution(r, v, s, n) == 0.0
  {
    if n > 0 {
      ConvolutionBefore(r, v, s, n - 1);
      ZeroProduct(v[n - 1]);
    }
  }

  /** One more subvector: each sample of the residual loses the response to it. */
  lemma ResidualStep(target: Signal, e: Signal, v: Signal, r: Signal, n: nat)
    requires n < |target|
    ensures Residual(target, e + v, r)[n] == Residual(target, e, r)[n] - Convolution(r, v, n - |e|, |v|)
    ensures n < |e| ==> Residual(target, e + v, r)[n] == Residual(target, e, r)[n]
  {
    ConvolutionSplit(r, e, v, n, |v|);
    if n < |e| {
      ConvolutionBefore(r, v, n - |e|, |v|);
    }
  }

  // ----- squares -----

  lemma {:induction false} SquaresOfSum(x: Signal, y: Signal)
    ensures Squares(x + y) == Squares(x) + Squares(y)
  {
    hide Product;
    if y == [] {
      assert x + y == x;
    } else {
      SquaresOfSum(x, y[..|y| - 1]);
      assert (x + y)[..|x + y| - 1] == x + y[..|y| - 1];
    }
  }

  lemma SquareOfDifference(a: real, b: real)
    ensures Product(a - b, a - b) == Product(a, a) - 2.0 * Product(a, b) + Product(b, b)
    ensures Product(a + b, a + b) == Product(a, a) + 2.0 * Product(a, b) + Product(b, b)
  {
    assert (a - b) * (a - b) == a * a - 2.0 * (a * b) + b * b;
    assert (a + b) * (a + b) == a * a + 2.0 * (a * b) + b * b;
  }

  lemma SquareNotNegative(a: real)
    ensures Product(a, a) >= 0.0
  {}

  lemma {:induction false} SquaresNotNegative(x: Signal)
    ensures Squares(x) >= 0.0
  {
    if x != [] {
      SquaresNotNegative(x[..|x| - 1]);
      SquareNotNegative(x[|x| - 1]);
    }
  }

  /** The error of matching x by w, or by -w when minus. */
  function Mismatch(x: Signal, w: Signal, minus: bool): (y: Signal)
    requires |x| == |w|
    ensures |y| == |x|
  {
    seq(|x|, j requires 0 <= j < |x| => if minus then x[j] + w[j] else x[j] - w[j])
  }

  lemma {:induction false} SquaresOfMismatch(x: Signal, w: Signal, minus: bool, n: nat)
    requires n <= |x| == |w|
    ensures Squares(Mismatch(x, w, minus)[..n]) ==
      Squares(x[..n]) + Squares(w[..n]) + (if minus then 2.0 else -2.0) * Dot(x, w, 0, n)
  {
    hide Product;
    if n > 0 {
      SquaresOfMismatch(x, w, minus, n - 1);
      var y := Mismatch(x, w, minus);
      assert y[..n][..n - 1] == y[..n - 1] && x[..n][..n - 1] == x[..n - 1] && w[..n][..n - 1] == w[..n - 1];
      SquareOfDifference(x[n - 1], w[n - 1]);
    }
  }

  // ----- one more subvector -----

  /** The filtered shape of a codeword, taken with a plus sign. */
  function Response(cb: Codebook, r: Signal, c: int): (w: Signal)
    requires cb.Valid() && 0 <= c < cb.Entries()
    ensures |w| == cb.subvectSize
  {
    seq(cb.subvectSize, j requires 0 <= j < cb.subvectSize => Convolution(r, cb.Codeword(c), j, cb.subvectSize))
  }

  lemma {:induction false} ConvolutionNegates(r: Signal, v: Signal, w: Signal, s: int, n: nat)
    requires |v| == |w| && n <= |v| && forall m :: 0 <= m < |v| ==> w[m] == -v[m]
    ensures Convolution(r, w, s, n) == -Convolution(r, v, s, n)
  {
    hide Product, Entry;
    if n > 0 {
      ConvolutionNegates(r, v, w, s, n - 1);
      NegatedProduct(Entry(r, s - (n - 1)), v[n - 1]);
    }
  }

  lemma SignedResponse(cb: Codebook, r: Signal, ind: int, j: nat)
    requires cb.Valid() && cb.IsIndex(ind) && j < cb.subvectSize
    ensures 0 <= cb.Row(ind) < cb.Entries()
    ensures var w := Response(cb, r, cb.Row(ind))[j];
      Convolution(r, cb.Codeword(ind), j, cb.subvectSize) == if ind >= cb.Entries() then -w else w
  {
    if ind >= cb.Entries() {
      var v, w := cb.Codeword(cb.Row(ind)), cb.Codeword(ind);
      forall m | 0 <= m < |v|
        ensures w[m] == -v[m]
      {
        cb.RowInTable(cb.Row(ind), m);
      }
      ConvolutionNegates(r, v, w, j, cb.subvectSize);
    }
  }

  /** The part of the residual the next subvector has to match. */
  function Current(cb: Codebook, target: Signal, r: Signal, inds: seq<int>): (x: Signal)
    requires cb.Valid() && cb.AreIndices(inds) && (|inds| + 1) * cb.subvectSize <= |target|
    ensures |x| == cb.subvectSize
  {
    BlockFits(|inds|, cb.subvectSize);
    var n := |inds| * cb.subvectSize;
    Residual(target, cb.Excitation(inds), r)[n..n + cb.subvectSize]
  }

  lemma ResidualGrows(cb: Codebook, target: Signal, r: Signal, inds: seq<int>, ind: int)
    requires cb.Valid() && cb.AreIndices(inds) && cb.IsIndex(ind) && (|inds| + 1) * cb.subvectSize <= |target|
    ensures cb.AreIndices(inds + [ind]) && |inds| * cb.subvectSize <= (|inds| + 1) * cb.subvectSize
    ensures 0 <= cb.Row(ind) < cb.Entries()
    ensures Residual(target, cb.Excitation(inds + [ind]), r)[..(|inds| + 1) * cb.subvectSize]
         == Residual(target, cb.Excitation(inds), r)[..|inds| * cb.subvectSize]
          + Mismatch(Current(cb, target, r, inds), Response(cb, r, cb.Row(ind)), ind >= cb.Entries())
  {
    BlockFits(|inds|, cb.subvectSize);
    cb.ExcitationStep(inds, ind);
    var e, L := cb.Excitation(inds), cb.subvectSize;
    var x, w := Current(cb, target, r, inds), Response(cb, r, cb.Row(ind));
    var before, after := Residual(target, e, r), Residual(target, e + cb.Codeword(ind), r);
    assert x == before[|e|..|e| + L];
    hide *;
    forall n | 0 <= n < |e| + L
      ensures after[n] == if n < |e| then before[n] else Mismatch(x, w, ind >= cb.Entries())[n - |e|]
    {
      ResidualGrowsAt(cb, target, r, e, x, ind, n);
    }
  }

  lemma ResidualGrowsAt(cb: Codebook, target: Signal, r: Signal, e: Signal, x: Signal, ind: int, n: nat)
    requires cb.Valid() && cb.IsIndex(ind) && n < |e| + cb.subvectSize <= |target|
    requires x == Residual(target, e, r)[|e|..|e| + cb.subvectSize]
    ensures 0 <= cb.Row(ind) < cb.Entries()
    ensures Residual(target, e + cb.Codeword(ind), r)[n] ==
      if n < |e| then Residual(target, e, r)[n]
      else Mismatch(x, Response(cb, r, cb.Row(ind)), ind >= cb.Entries())[n - |e|]
  {
    hide Convolution, Codebook.Codeword, Residual, Response, Codebook.Entries;
    ResidualStep(target, e, cb.Codeword(ind), r, n);
    if n >= |e| {
      SignedResponse(cb, r, ind, n - |e|);
    }
  }

  /** The cost grows by what the search computes: the codeword's own part and the energy of what it had to match. */
  lemma CostStep(cb: Codebook, target: Signal, r: Signal, inds: seq<int>, ind: int)
    requires cb.Valid() && cb.AreIndices(inds) && cb.IsIndex(ind) && (|inds| + 1) * cb.subvectSize <= |target|
    ensures cb.AreIndices(inds + [ind]) && |inds| * cb.subvectSize <= |target| && 0 <= cb.Row(ind) < cb.Entries()
    ensures var x, w := Current(cb, target, r, inds), Response(cb, r, cb.Row(ind));
      && Cost(cb, target, r, inds + [ind]) == Cost(cb, target, r, inds) + 0.5 * Squares(x)
         + 0.5 * Squares(w) + (if ind >= cb.Entries() then 1.0 else -1.0) * Dot(x, w, 0, cb.subvectSize)
      && Cost(cb, target, r, inds) <= Cost(cb, target, r, inds + [ind])
  {
    var x, w, minus := Current(cb, target, r, inds), Response(cb, r, cb.Row(ind)), ind >= cb.Entries();
    ResidualGrows(cb, target, r, inds, ind);
    var front := Residual(target, cb.Excitation(inds), r)[..|inds| * cb.subvectSize];
    hide Residual, Current, Response, Mismatch, Squares, Dot;
    SquaresOfSum(front, Mismatch(x, w, minus));
    SquaresOfMismatch(x, w, minus, cb.subvectSize);
    SquaresNotNegative(Mismatch(x, w, minus));
    assert Mismatch(x, w, minus)[..cb.subvectSize] == Mismatch(x, w, minus);
    assert x[..cb.subvectSize] == x && w[..cb.subvectSize] == w;
  }

  // ----- the tables of the search -----

  /** resp and E as compute_weighted_codebook leaves them. */
  ghost predicate Weighted(cb: Codebook, r: Signal, resp: Signal, E: seq<real>)
    requires cb.Valid()
  {
    && |resp| == cb.Entries() * cb.subvectSize && |E| == cb.Entries()
    && (forall c :: 0 <= c < cb.Entries() ==> E[c] == Squares(Response(cb, r, c)))
    && (forall c :: 0 <= c < cb.Entries() ==> RowIs(resp, c, Response(cb, r, c)))
  }

  /** Row c of a flat table holds w. */
  ghost predicate RowIs(resp: Signal, c: nat, w: Signal) {
    && (c + 1) * |w| <= |resp|
    && forall j :: 0 <= j < |w| ==> BlockSample(resp, c * |w|, j) == w[j]
  }

  function BlockSample(resp: Signal, base: int, j: int): real {
    if 0 <= base + j < |resp| then resp[base + j] else 0.0
  }

  lemma {:induction false} DotOfRow(x: Signal, resp: Signal, c: nat, w: Signal, n: nat)
    requires |x| == |w| && n <= |w| && RowIs(resp, c, w)
    ensures 0 <= c * |w| && c * |w| + n <= |resp|
    ensures Dot(x, resp, c * |w|, n) == Dot(x, w, 0, n)
  {
    hide Product;
    BlockFits(c, |w|);
    if n > 0 {
      DotOfRow(x, resp, c, w, n - 1);
      assert BlockSample(resp, c * |w|, n - 1) == w[n - 1];
    }
  }

  /** The index the search reports for codeword c: with its better sign, minus on a tie. */
  function BestIndex(cb: Codebook, target: Signal, r: Signal, inds: seq<int>, c: int): (ind: int)
    requires cb.Valid() && cb.AreIndices(inds) && 0 <= c < cb.Entries() && (|inds| + 1) * cb.subvectSize <= |target|
    ensures cb.IsIndex(ind)
  {
    var M := cb.Entries();
    if cb.haveSign && Cost(cb, target, r, inds + [c]) >= Cost(cb, target, r, inds + [c + M]) then c + M else c
  }

  function SearchDistances(cb: Codebook, x: Signal, resp: Signal, E: seq<real>): (d: seq<real>)
    requires cb.Valid() && |x| == cb.subvectSize && |resp| == cb.Entries() * cb.subvectSize && |E| == cb.Entries()
    ensures |d| == cb.Entries()
  {
    if cb.haveSign then SignedDistances(x, resp, E, cb.Entries()) else Distances(x, resp, E, cb.Entries())
  }

  function SearchCode(cb: Codebook, x: Signal, resp: Signal): int -> int
    requires cb.Valid() && |x| == cb.subvectSize && |resp| == cb.Entries() * cb.subvectSize
  {
    if cb.haveSign then SignCode(x, resp, cb.Entries()) else c => c
  }

  /** What the quantizer computes locally is what the extended excitation costs globally. */
  lemma LocalIsGlobal(cb: Codebook, target: Signal, r: Signal, inds: seq<int>, resp: Signal, E: seq<real>, c: int)
    requires cb.Valid() && cb.AreIndices(inds) && 0 <= c < cb.Entries() && (|inds| + 1) * cb.subvectSize <= |target|
    requires Weighted(cb, r, resp, E)
    ensures cb.AreIndices(inds + [BestIndex(cb, target, r, inds, c)])
    ensures var x := Current(cb, target, r, inds);
      && SearchCode(cb, x, resp)(c) == BestIndex(cb, target, r, inds, c)
      && Cost(cb, target, r, inds) + SearchDistances(cb, x, resp, E)[c] + 0.5 * Squares(x)
         == Cost(cb, target, r, inds + [BestIndex(cb, target, r, inds, c)])
  {
    var x, w, M := Current(cb, target, r, inds), Response(cb, r, c), cb.Entries();
    BlockBound(c, M, cb.subvectSize);
    DotOfRow(x, resp, c, w, cb.subvectSize);
    hide Cost, Response, Current, Dot, Squares, RowIs, Codebook.Entries;
    CostStep(cb, target, r, inds, c);
    if cb.haveSign {
      CostStep(cb, target, r, inds, c + M);
    }
  }
}
