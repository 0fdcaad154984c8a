/** The rest of cb_search.c: the weighted codebook, the two search forms put together, what they write to the bit
    stream, and the decoder that rebuilds the excitation from it. */
module CodebookCoding {
  import opened BeamOrder
  import opened BitFields
  import opened BitStream
  import opened ByteBits
  import opened CodebookSearch
  import Filters
  import opened Remainders
  import opened ShapeCodebook
  import opened Signals
  import opened VectorQuantizer

  // ----- compute_weighted_codebook -----

  lemma {:induction false} ScaledConvolution(r: Signal, v: Signal, w: Signal, c: real, s: int, n: nat)
    requires |v| == |w| && n <= |v| && forall m :: 0 <= m < |v| ==> w[m] == Product(c, v[m])
    ensures Convolution(r, w, s, n) == Product(c, Convolution(r, v, s, n))
  {
    hide Entry, Product;
    if n == 0 {
      ProductZero(c);
    } else {
      ScaledConvolution(r, v, w, c, s, n - 1);
      ProductExchanges(Entry(r, s - (n - 1)), c, v[n - 1]);
      ProductDistributes(c, Convolution(r, v, s, n - 1), Product(Entry(r, s - (n - 1)), v[n - 1]));
    }
  }

  /** The integer shape of a codeword. */
  function Shape(cb: Codebook, c: int): (v: Signal)
    requires cb.Valid() && 0 <= c < cb.Entries()
    ensures |v| == cb.subvectSize
  {
    seq(cb.subvectSize, k requires 0 <= k < cb.subvectSize =>
        (cb.RowInTable(c, k); cb.shape[c * cb.subvectSize + k] as real))
  }

  /** 0.03125 times the first j + 1 terms of the convolution is all of it. */
  lemma ResponseSample(cb: Codebook, r: Signal, c: int, j: nat)
    requires cb.Valid() && 0 <= c < cb.Entries() && j < cb.subvectSize
    ensures Response(cb, r, c)[j] == 0.03125 * Convolution(r, Shape(cb, c), j, j + 1)
  {
    hide Entry, Convolution;
    ScaledConvolution(r, Shape(cb, c), cb.Codeword(c), 0.03125, j, j + 1);
    ConvolutionCausal(r, cb.Codeword(c), j, j + 1, cb.subvectSize);
  }

  lemma ConvolutionTerm(r: Signal, v: Signal, j: nat, k: nat)
    requires k <= j < |r| && k < |v|
    ensures Convolution(r, v, j, k + 1) == Convolution(r, v, j, k) + Product(v[k], r[j - k])
  {
    hide Product;
    ProductExchange(v[k], r[j - k]);
  }

  /** One sample of a codeword's response. */
  method FilteredSample(shape: Signal, r: Signal, j: nat) returns (resj: real)
    requires j < |shape| && j < |r|
    ensures resj == Convolution(r, shape, j, j + 1)
  {
    hide Product;
    resj := 0.0;
    for k := 0 to j + 1
      invariant resj == Convolution(r, shape, j, k)
    {
      ConvolutionTerm(r, shape, j, k);
      resj := resj + Product(shape[k], r[j - k]);
    }
  }

  /** The response of codeword c goes to row c of resp; its energy is returned. */
  method WeighCodeword(cb: Codebook, r: Signal, c: nat, resp: array<real>) returns (e: real)
    requires cb.Valid() && c < cb.Entries() && resp.Length == |cb.shape| && cb.subvectSize <= |r|
    modifies resp
    ensures e == Squares(Response(cb, r, c))
    ensures RowIs(resp[..], c, Response(cb, r, c))
    ensures forall n :: 0 <= n < resp.Length && (n < c * cb.subvectSize || n >= (c + 1) * cb.subvectSize) ==>
      resp[n] == old(resp[n])
  {
    hide Product, Convolution, Codebook.Entries;
    var L := cb.subvectSize;
    BlockFits(c, L);
    BlockBound(c, cb.Entries(), L);
    var shape := Shape(cb, c);
    ghost var w := Response(cb, r, c);
    e := 0.0;
    for j := 0 to L
      invariant forall n :: 0 <= n < resp.Length && (n < c * L || n >= c * L + j) ==> resp[n] == old(resp[n])
      invariant forall n :: c * L <= n < c * L + j ==> resp[n] == w[n - c * L]
      invariant e == Squares(w[..j])
    {
      var resj := FilteredSample(shape, r, j);
      var res16 := 0.03125 * resj;
      ResponseSample(cb, r, c, j);
      assert w[..j + 1][..j] == w[..j];
      e := e + Product(res16, res16);
      resp[c * L + j] := res16;
    }
    assert w[..L] == w;
  }

  method ComputeWeightedCodebook(cb: Codebook, r: Signal, resp: array<real>, E: array<real>)
    requires cb.Valid() && resp.Length == |cb.shape| && E.Length == cb.Entries() && cb.subvectSize <= |r| && resp != E
    modifies resp, E
    ensures Weighted(cb, r, resp[..], E[..])
  {
    hide RowIs, Squares, Response;
    for i := 0 to cb.Entries()
      invariant forall c :: 0 <= c < i ==> E[c] == Squares(Response(cb, r, c))
      invariant forall c :: 0 <= c < i ==> RowIs(resp[..], c, Response(cb, r, c))
    {
      ghost var before := resp[..];
      E[i] := WeighCodeword(cb, r, i, resp);
      forall c | 0 <= c < i
        ensures RowIs(resp[..], c, Response(cb, r, c))
      {
        RowKept(before, resp[..], c, i, Response(cb, r, c));
      }
    }
  }

  lemma RowKept(before: Signal, after: Signal, c: nat, i: nat, w: Signal)
    requires RowIs(before, c, w) && |before| == |after| && c < i
    requires forall n :: 0 <= n < |before| && (n < i * |w| || n >= (i + 1) * |w|) ==> after[n] == before[n]
    ensures RowIs(after, c, w)
  {
    BlockBound(c, i, |w|);
    BlockFits(c, |w|);
    forall j | 0 <= j < |w|
      ensures BlockSample(after, c * |w|, j) == w[j]
    {
      assert BlockSample(before, c * |w|, j) == w[j];
    }
  }

  // ----- the N-best form -----

  /** The beam search over all subvectors; the best survivor's indices. */
  method SearchBeam(p: Problem, resp: Signal, E: seq<real>, N: int)
    returns (ind: seq<int>, ghost beams: seq<seq<seq<int>>>)
    requires p.Valid() && Weighted(p.cb, p.r, resp, E) && 1 <= N <= p.cb.Entries()
    ensures |ind| == p.cb.nbSubvect && p.cb.AreIndices(ind)
    ensures |beams| == p.cb.nbSubvect + 1 && BeamRun(p, N, beams) && p.Beam(beams[p.cb.nbSubvect], p.cb.nbSubvect)
    ensures beams[p.cb.nbSubvect] != [] ==> ind == beams[p.cb.nbSubvect][0]
  {
    hide Problem.BeamStep, Codebook.Entries, SurvivorRow, Weighted, Tracks;
    var nsf, nb := |p.target|, p.cb.nbSubvect;
    var ot := FreshRows<real>(N, nsf, []);
    var nt := FreshRows<real>(N, nsf, ot);
    var oinds := FreshRows<int>(N, nb, []);
    var ninds := FreshRows<int>(N, nb, oinds);
    var odist := new real[N];
    ghost var survivors := Start(p, N, ot, odist);
    beams := [[[]]];
    for i := 0 to nb
      invariant |beams| == i + 1 && BeamRun(p, N, beams)
      invariant |ot| == |nt| == N && Separate(ot) && Separate(nt) && Apart(ot, nt) && Apart(nt, ot)
      invariant forall j :: 0 <= j < N ==> ot[j].Length == nt[j].Length == nsf
      invariant forall j :: 0 <= j < N ==> fresh(ot[j]) && fresh(nt[j]) && odist != ot[j] && odist != nt[j]
      invariant |survivors| == N && Tracks(p, i, if i == 0 then 1 else N, beams[i], survivors, odist[..])
      invariant Rows(p, i, survivors, ot) && Histories(p, i, survivors, oinds)
    {
      ghost var next;
      next, survivors := Stage(p, resp, E, i, N, ot, nt, oinds, ninds, odist, beams[i], survivors);
      beams := beams + [next];
      ot, nt := nt, ot;
    }
    FirstSurvivor(p, N, beams[nb], survivors, odist[..]);
    ind := oinds[0][..];
    assert oinds[0][..nb] == oinds[0][..];
  }

  lemma FirstSurvivor(p: Problem, N: nat, beam: seq<seq<int>>, survivors: seq<seq<int>>, odist: seq<real>)
    requires p.Valid() && N > 0
    requires Tracks(p, p.cb.nbSubvect, if p.cb.nbSubvect == 0 then 1 else N, beam, survivors, odist)
    ensures p.Beam(beam, p.cb.nbSubvect) && survivors != []
    ensures |survivors[0]| == p.cb.nbSubvect && p.cb.AreIndices(survivors[0])
    ensures beam != [] ==> survivors[0] == beam[0]
  {
    assert Tracked(p, p.cb.nbSubvect, beam, survivors, odist, 0);
  }

  // ----- the N1 form -----

  /** ind extends inds by the cheapest codeword, the earliest among equals, with its better sign. */
  ghost predicate GreedyStep(p: Problem, inds: seq<int>, ind: int)
    requires p.Valid() && p.cb.AreIndices(inds) && |inds| < p.cb.nbSubvect
  {
    p.Room(|inds|);
    exists c: int :: 0 <= c < p.cb.Entries() && Cheapest(p, inds, c) && ind == BestIndex(p.cb, p.target, p.r, inds, c)
  }

  function Extension(p: Problem, inds: seq<int>, c: int): (longer: seq<int>)
    requires p.Valid() && p.cb.AreIndices(inds) && |inds| < p.cb.nbSubvect && 0 <= c < p.cb.Entries()
    ensures |longer| == |inds| + 1 && p.cb.AreIndices(longer)
  {
    p.Room(|inds|);
    inds + [BestIndex(p.cb, p.target, p.r, inds, c)]
  }

  function ExtensionCost(p: Problem, inds: seq<int>, c: int): real
    requires p.Valid() && p.cb.AreIndices(inds) && |inds| < p.cb.nbSubvect && 0 <= c < p.cb.Entries()
  {
    p.Room(|inds|);
    Cost(p.cb, p.target, p.r, Extension(p, inds, c))
  }

  ghost predicate Cheapest(p: Problem, inds: seq<int>, c: int)
    requires p.Valid() && p.cb.AreIndices(inds) && |inds| < p.cb.nbSubvect && 0 <= c < p.cb.Entries()
  {
    forall x :: 0 <= x < p.cb.Entries() ==>
      && ExtensionCost(p, inds, c) <= ExtensionCost(p, inds, x)
      && (x < c ==> ExtensionCost(p, inds, c) < ExtensionCost(p, inds, x))
  }

  /** A greedy choice costs no more than any index at all, of either sign. */
  lemma GreedyIsMinimal(p: Problem, inds: seq<int>, ind: int, other: int)
    requires p.Valid() && p.cb.AreIndices(inds) && |inds| < p.cb.nbSubvect && GreedyStep(p, inds, ind)
    requires p.cb.IsIndex(other)
    ensures p.cb.IsIndex(ind) && p.cb.AreIndices(inds + [ind]) && p.cb.AreIndices(inds + [other])
    ensures (|inds| + 1) * p.cb.subvectSize <= |p.target|
    ensures Cost(p.cb, p.target, p.r, inds + [ind]) <= Cost(p.cb, p.target, p.r, inds + [other])
  {
    p.Room(|inds|);
    hide Cost, Codebook.Entries, BestIndex;
    var c :| 0 <= c < p.cb.Entries() && Cheapest(p, inds, c) && ind == BestIndex(p.cb, p.target, p.r, inds, c);
    BetterSign(p, inds, other);
    assert ExtensionCost(p, inds, c) <= ExtensionCost(p, inds, p.cb.Row(other));
  }

  lemma BetterSign(p: Problem, inds: seq<int>, other: int)
    requires p.Valid() && p.cb.AreIndices(inds) && |inds| < p.cb.nbSubvect && p.cb.IsIndex(other)
    ensures p.cb.AreIndices(inds + [other]) && 0 <= p.cb.Row(other) < p.cb.Entries()
    ensures (|inds| + 1) * p.cb.subvectSize <= |p.target|
    ensures ExtensionCost(p, inds, p.cb.Row(other)) <= Cost(p.cb, p.target, p.r, inds + [other])
  {
    p.Room(|inds|);
    hide Cost;
  }

  /** The quantizer with N == 1 makes the greedy choice. */
  lemma QuantizedIsGreedy(p: Problem, resp: Signal, E: seq<real>, inds: seq<int>, offers: seq<int>, ind: int)
    requires p.Valid() && p.cb.AreIndices(inds) && |inds| < p.cb.nbSubvect && Weighted(p.cb, p.r, resp, E)
    requires (|inds| + 1) * p.cb.subvectSize <= |p.target|
    requires var x := Current(p.cb, p.target, p.r, inds);
      && FirstOf(At(SearchDistances(p.cb, x, resp, E)), Below(p.cb.Entries()), 1, offers) && |offers| == 1
      && ind == SearchCode(p.cb, x, resp)(offers[0])
    ensures GreedyStep(p, inds, ind) && p.cb.IsIndex(ind)
  {
    var x, c := Current(p.cb, p.target, p.r, inds), offers[0];
    var d := SearchDistances(p.cb, x, resp, E);
    OffersInOrder(At(d), p.cb.Entries(), 1, offers);
    OneIsFirst(At(d), p.cb.Entries(), offers);
    p.Room(|inds|);
    hide *;
    LocalIsGlobal(p.cb, p.target, p.r, inds, resp, E, c);
    DistancesAreCosts(p, resp, E, inds, c);
    forall y | 0 <= y < p.cb.Entries()
      ensures ExtensionCost(p, inds, c) <= ExtensionCost(p, inds, y)
      ensures y < c ==> ExtensionCost(p, inds, c) < ExtensionCost(p, inds, y)
    {
      DistancesAreCosts(p, resp, E, inds, y);
      assert At(d)(c) <= At(d)(y);
    }
    CheapestGreedy(p, inds, c);
  }

  lemma CheapestGreedy(p: Problem, inds: seq<int>, c: int)
    requires p.Valid() && p.cb.AreIndices(inds) && |inds| < p.cb.nbSubvect && 0 <= c < p.cb.Entries()
    requires (|inds| + 1) * p.cb.subvectSize <= |p.target|
    requires forall y :: 0 <= y < p.cb.Entries() ==>
      && ExtensionCost(p, inds, c) <= ExtensionCost(p, inds, y)
      && (y < c ==> ExtensionCost(p, inds, c) < ExtensionCost(p, inds, y))
    ensures GreedyStep(p, inds, BestIndex(p.cb, p.target, p.r, inds, c))
  {
    hide ExtensionCost, BestIndex, Codebook.Entries;
    assert Cheapest(p, inds, c);
  }

  lemma DistancesAreCosts(p: Problem, resp: Signal, E: seq<real>, inds: seq<int>, y: int)
    requires p.Valid() && p.cb.AreIndices(inds) && |inds| < p.cb.nbSubvect && Weighted(p.cb, p.r, resp, E)
    requires 0 <= y < p.cb.Entries()
    ensures (|inds| + 1) * p.cb.subvectSize <= |p.target| && |inds| * p.cb.subvectSize <= |p.target|
    ensures var x := Current(p.cb, p.target, p.r, inds);
      ExtensionCost(p, inds, y) == At(SearchDistances(p.cb, x, resp, E))(y)
        + (Cost(p.cb, p.target, p.r, inds) + 0.5 * Squares(x))
  {
    p.Room(|inds|);
    hide Cost, SearchDistances, SearchCode, Squares, Current, BestIndex, Codebook.Entries, Weighted;
    LocalIsGlobal(p.cb, p.target, p.r, inds, resp, E, y);
  }

  lemma OneIsFirst(d: int -> real, M: nat, offers: seq<int>)
    requires FirstOf(d, Below(M), 1, offers) && |offers| == 1
    ensures forall y :: 0 <= y < M ==> d(offers[0]) <= d(y) && (y < offers[0] ==> d(offers[0]) < d(y))
  {
    forall y | 0 <= y < M
      ensures d(offers[0]) <= d(y) && (y < offers[0] ==> d(offers[0]) < d(y))
    {
      assert y in offers ==> y == offers[0];
      assert y !in offers ==> Precedes(d, offers[0], y);
    }
  }

  /** t holds the whole residual. */
  ghost predicate IsResidual(p: Problem, inds: seq<int>, t: Signal)
    requires p.Valid() && p.cb.AreIndices(inds)
  {
    t == Residual(p.target, p.cb.Excitation(inds), p.r)
  }

  /** The chosen codeword's filtered shape comes off the subvector itself. */
  method TakeShape(cb: Codebook, i: nat, ind: int, resp: Signal, r: Signal, E: seq<real>, t: array<real>)
    requires cb.Valid() && cb.IsIndex(ind) && Weighted(cb, r, resp, E)
    requires i * cb.subvectSize + cb.subvectSize <= t.Length
    modifies t
    ensures 0 <= cb.Row(ind) < cb.Entries() && 0 <= i * cb.subvectSize
    ensures forall m :: i * cb.subvectSize <= m < i * cb.subvectSize + cb.subvectSize ==>
      t[m] == old(t[m]) - Convolution(r, cb.Codeword(ind), m - i * cb.subvectSize, cb.subvectSize)
    ensures forall m :: 0 <= m < i * cb.subvectSize ==> t[m] == old(t[m])
    ensures forall m :: i * cb.subvectSize + cb.subvectSize <= m < t.Length ==> t[m] == old(t[m])
  {
    hide Convolution, Codebook.Codeword, Squares;
    BlockFits(i, cb.subvectSize);
    var L := cb.subvectSize;
    var sign, rind := 1, ind;
    if rind >= cb.Entries() {
      sign := -1;
      rind := rind - cb.Entries();
    }
    BlockBound(rind, cb.Entries(), L);
    BlockFits(rind, L);
    var start := i * L;
    ghost var w := Response(cb, r, rind);
    assert RowIs(resp, rind, w);
    for m := 0 to L
      invariant forall k :: 0 <= k < t.Length && (k < start || k >= start + m) ==> t[k] == old(t[k])
      invariant forall k :: start <= k < start + m ==>
        t[k] == old(t[k]) - Convolution(r, cb.Codeword(ind), k - start, L)
    {
      SignedResponse(cb, r, ind, m);
      assert BlockSample(resp, rind * L, m) == w[m];
      t[start + m] := if sign > 0 then t[start + m] - resp[rind * L + m] else t[start + m] + resp[rind * L + m];
    }
  }

  /** What choosing ind for subvector i takes off sample n. */
  function TakenInAll(p: Problem, i: nat, ind: int, n: int): real
    requires p.Valid() && p.cb.IsIndex(ind)
  {
    var L := p.cb.subvectSize;
    if n < i * L then 0.0 else Convolution(p.r, p.cb.Codeword(ind), n - i * L, L)
  }

  lemma CurrentOfResidual(p: Problem, inds: seq<int>, t: Signal)
    requires p.Valid() && p.cb.AreIndices(inds) && |inds| < p.cb.nbSubvect && IsResidual(p, inds, t)
    ensures |t| == |p.target|
    ensures var i, L := |inds|, p.cb.subvectSize;
      && 0 <= i * L && (i + 1) * L == i * L + L <= |t|
      && t[i * L..i * L + L] == Current(p.cb, p.target, p.r, inds)
  {
    p.Room(|inds|);
  }

  /** After TakeShape and TakeResponse, t is the residual of the longer excitation. */
  lemma ResidualAfter(p: Problem, inds: seq<int>, ind: int, before: Signal, after: Signal)
    requires p.Valid() && p.cb.AreIndices(inds) && |inds| < p.cb.nbSubvect && p.cb.IsIndex(ind)
    requires IsResidual(p, inds, before)
    requires |after| == |before|
    requires forall n :: 0 <= n < |after| ==> after[n] == before[n] - TakenInAll(p, |inds|, ind, n)
    ensures p.cb.AreIndices(inds + [ind]) && IsResidual(p, inds + [ind], after)
  {
    p.cb.ExcitationStep(inds, ind);
    var e := p.cb.Excitation(inds);
    var wanted := Residual(p.target, e + p.cb.Codeword(ind), p.r);
    assert before == Residual(p.target, e, p.r);
    hide Residual, Convolution, Codebook.Codeword, Codebook.Excitation;
    forall n | 0 <= n < |after|
      ensures after[n] == wanted[n]
    {
      ResidualStep(p.target, e, p.cb.Codeword(ind), p.r, n);
    }
    assert after == wanted;
  }

  lemma TableSizes(cb: Codebook, r: Signal, resp: Signal, E: seq<real>)
    requires cb.Valid() && Weighted(cb, r, resp, E)
    ensures |resp| == cb.Entries() * cb.subvectSize && |E| == cb.Entries()
  {}

  /** One subvector of the N1 form: choose, and update the target at once. */
  method GreedyStage(p: Problem, resp: Signal, E: seq<real>, ghost inds: seq<int>, i: nat, t: array<real>)
    returns (ind: int)
    requires p.Valid() && Weighted(p.cb, p.r, resp, E) && p.cb.AreIndices(inds) && |inds| == i < p.cb.nbSubvect
    requires IsResidual(p, inds, t[..])
    modifies t
    ensures GreedyStep(p, inds, ind) && p.cb.IsIndex(ind) && IsResidual(p, inds + [ind], t[..])
  {
    hide FirstOf, Below, At, SearchDistances, SearchCode, Weighted, Codebook.Entries, Current, IsResidual, GreedyStep;
    hide Convolution, Codebook.Codeword, Holds, Residual;
    ghost var before := t[..];
    CurrentOfResidual(p, inds, before);
    TableSizes(p.cb, p.r, resp, E);
    var L := p.cb.subvectSize;
    var bestIndex, bestDist := new int[1], new real[1];
    ghost var offers := Quantize(p.cb, t[i * L..i * L + L], resp, E, 1, bestIndex, bestDist);
    ind := bestIndex[0];
    ghost var d := SearchDistances(p.cb, Current(p.cb, p.target, p.r, inds), resp, E);
    OffersInOrder(At(d), p.cb.Entries(), 1, offers);
    HeldValues(offers, d, SearchCode(p.cb, Current(p.cb, p.target, p.r, inds), resp), bestIndex[..], bestDist[..]);
    QuantizedIsGreedy(p, resp, E, inds, offers, ind);
    TakeShape(p.cb, i, ind, resp, p.r, E, t);
    TakeResponse(p, i, ind, t);
    ResidualAfter(p, inds, ind, before, t[..]);
  }

  ghost predicate GreedyRun(p: Problem, ind: seq<int>)
    requires p.Valid() && p.cb.AreIndices(ind) && |ind| <= p.cb.nbSubvect
  {
    forall i :: 0 <= i < |ind| ==> GreedyStep(p, ind[..i], ind[i])
  }

  lemma GreedyRunStep(p: Problem, inds: seq<int>, ind: int)
    requires p.Valid() && p.cb.AreIndices(inds) && |inds| < p.cb.nbSubvect && p.cb.IsIndex(ind)
    requires GreedyRun(p, inds) && GreedyStep(p, inds, ind)
    ensures p.cb.AreIndices(inds + [ind]) && GreedyRun(p, inds + [ind])
  {
    hide GreedyStep;
    var more := inds + [ind];
    forall i | 0 <= i < |more|
      ensures GreedyStep(p, more[..i], more[i])
    {
      assert more[..i] == if i < |inds| then inds[..i] else inds;
    }
  }

  /** split_cb_search_shape_sign_N1: every index is the best continuation of those before it. */
  method SearchGreedy(p: Problem, resp: Signal, E: seq<real>) returns (ind: seq<int>)
    requires p.Valid() && Weighted(p.cb, p.r, resp, E)
    ensures |ind| == p.cb.nbSubvect && p.cb.AreIndices(ind) && GreedyRun(p, ind)
  {
    hide GreedyStep, Weighted, Codebook.IsIndex;
    var t := new real[|p.target|](n requires 0 <= n < |p.target| => p.target[n]);
    assert t[..] == p.target;
    ind := [];
    NothingTaken(p);
    for i := 0 to p.cb.nbSubvect
      invariant |ind| == i && p.cb.AreIndices(ind) && GreedyRun(p, ind)
      invariant IsResidual(p, ind, t[..])
    {
      hide GreedyRun, IsResidual;
      var next := GreedyStage(p, resp, E, ind, i, t);
      GreedyRunStep(p, ind, next);
      ind := ind + [next];
    }
  }

  lemma NothingTaken(p: Problem)
    requires p.Valid()
    ensures IsResidual(p, [], p.target)
  {
    assert forall n :: 0 <= n < |p.target| ==> Convolution(p.r, [], n, 0) == 0.0;
  }

  // ----- the bit stream -----

  function IndexWidth(cb: Codebook): nat { cb.shapeBits + if cb.haveSign then 1 else 0 }

  /** The fields of all indices, in order. */
  function IndexBits(cb: Codebook, ind: seq<int>): (bits: seq<bool>)
    ensures |bits| == |ind| * IndexWidth(cb)
  {
    if ind == [] then []
    else
      BlockFits(|ind| - 1, IndexWidth(cb));
      IndexBits(cb, ind[..|ind| - 1]) + Field(ind[|ind| - 1], IndexWidth(cb))
  }

  lemma IndexBitsStep(cb: Codebook, ind: seq<int>, i: nat)
    requires i < |ind|
    ensures IndexBits(cb, ind[..i + 1]) == IndexBits(cb, ind[..i]) + Field(ind[i], IndexWidth(cb))
  {
    assert ind[..i + 1][..i] == ind[..i];
  }

  method PackIndices(cb: Codebook, ind: seq<int>, bits: SpeexBits)
    requires IndexWidth(cb) <= 32 && bits.Writing() && bits.owner
    modifies bits, bits.chars
    ensures bits.Writing() && bits.owner && (bits.chars == old(bits.chars) || fresh(bits.chars))
    ensures bits.Contents() == old(bits.Contents()) + IndexBits(cb, ind)
  {
    hide Field, Clear, Bits;
    ghost var before := bits.Contents();
    for i := 0 to |ind|
      invariant bits.Writing() && bits.owner && (bits.chars == old(bits.chars) || fresh(bits.chars))
      invariant bits.Contents() == before + IndexBits(cb, ind[..i])
    {
      IndexBitsStep(cb, ind, i);
      hide IndexBits;
      bits.Pack(ind[i], IndexWidth(cb));
    }
    assert ind[..|ind|] == ind;
  }

  /** Index i stands i widths behind the start, shape bits and sign bit together. */
  lemma {:induction false} IndexBitsAt(cb: Codebook, ind: seq<int>, i: nat)
    requires i < |ind|
    ensures var w := cb.shapeBits + if cb.haveSign then 1 else 0;
      && 0 <= i * w <= i * w + w <= |IndexBits(cb, ind)|
      && IndexBits(cb, ind)[i * w..i * w + w] == Field(ind[i], w)
  {
    var w, n := IndexWidth(cb), |ind| - 1;
    hide Field;
    BlockFits(i, w);
    BlockBound(i, |ind|, w);
    var front := IndexBits(cb, ind[..n]);
    assert IndexBits(cb, ind) == front + Field(ind[n], w);
    if i < n {
      IndexBitsAt(cb, ind[..n], i);
      assert IndexBits(cb, ind)[i * w..i * w + w] == front[i * w..i * w + w];
    } else {
      assert |front| == n * w;
    }
  }

  /** Equal fields mean equal indices. */
  lemma {:induction false} IndexBitsInjective(cb: Codebook, a: seq<int>, b: seq<int>)
    requires cb.AreIndices(a) && cb.AreIndices(b) && |a| == |b| && IndexBits(cb, a) == IndexBits(cb, b)
    ensures a == b
  {
    hide Field, Pow2;
    if a != [] {
      var n, W := |a| - 1, IndexWidth(cb);
      SplitEqual(IndexBits(cb, a[..n]), Field(a[n], W), IndexBits(cb, b[..n]), Field(b[n], W));
      IndexBitsInjective(cb, a[..n], b[..n]);
      IndexInWidth(cb, a[n]);
      IndexInWidth(cb, b[n]);
      EqualFields(a[n], b[n], W);
      assert a == a[..n] + [a[n]] && b == b[..n] + [b[n]];
    }
  }

  lemma IndexInWidth(cb: Codebook, ind: int)
    requires cb.IsIndex(ind)
    ensures 0 <= ind < Pow2(IndexWidth(cb))
  {}

  // ----- putting everything together -----

  predicate Different(a: set<object>, b: set<object>) { a !! b }

  method BuildExcitation(cb: Codebook, ind: seq<int>, e: array<real>)
    requires cb.Valid() && cb.AreIndices(ind) && e.Length == |ind| * cb.subvectSize
    modifies e
    ensures e[..] == cb.Excitation(ind)
  {
    hide Codebook.Excitation, Codebook.Sample;
    var L := cb.subvectSize;
    ghost var wanted := cb.Excitation(ind);
    for i := 0 to |ind|
      invariant 0 <= i * L <= e.Length && e[..i * L] == wanted[..i * L]
    {
      BlockFits(i, L);
      BlockBound(i, |ind|, L);
      var start := i * L;
      for j := 0 to L
        invariant e[..start + j] == wanted[..start + j]
      {
        cb.ExcitationAt(ind, i, j);
        e[start + j] := cb.Sample(ind[i], j);
      }
    }
  }

  method AddTo(exc: array<real>, e: array<real>)
    requires e.Length <= exc.Length && exc != e
    modifies exc
    ensures exc[..e.Length] == Plus(old(exc[..e.Length]), e[..])
    ensures exc[e.Length..] == old(exc[e.Length..])
  {
    for j := 0 to e.Length
      invariant forall k :: 0 <= k < j ==> exc[k] == old(exc[k]) + e[k]
      invariant forall k :: j <= k < exc.Length ==> exc[k] == old(exc[k])
    {
      exc[j] := exc[j] + e[j];
    }
  }

  method UpdateTarget(target: array<real>, e: array<real>, ak: seq<real>, awk1: seq<real>, awk2: seq<real>)
    requires target.Length == e.Length && target != e && |ak| == |awk1| == |awk2| > 0
    modifies target
    ensures forall j :: 0 <= j < target.Length ==>
      target[j] == old(target[j]) - Filters.Synthesis(e[..], ak, awk1, awk2)[j]
  {
    hide Filters.Synthesis;
    var r2 := new real[e.Length](j requires 0 <= j < e.Length reads e => e[j]);
    assert r2[..] == e[..] && r2[..e.Length] == r2[..];
    Filters.SynPercepZero16(r2, ak, awk1, awk2, r2, e.Length);
    ghost var z := r2[..];
    assert r2[..e.Length] == z;
    for j := 0 to target.Length
      invariant forall k :: 0 <= k < j ==> target[k] == old(target[k]) - z[k]
      invariant forall k :: j <= k < target.Length ==> target[k] == old(target[k])
      invariant r2[..] == z
    {
      target[j] := target[j] - r2[j];
    }
  }

  /** How many survivors a complexity setting allows: one up to complexity 2, two up to 4, then 3, 4, 4, 5, and six from
      9 on. */
  function Survivors(complexity: int): (n: nat)
    ensures 1 <= n <= 6 && (n == 1 <==> complexity <= 2) && (n <= 2 <==> complexity <= 4)
    ensures (n <= 3 <==> complexity <= 5) && (n <= 4 <==> complexity <= 7) && (n <= 5 <==> complexity <= 8)
  {
    var n := 2 * (if complexity > 10 then 10 else complexity) / 3;
    if n < 1 then 1 else n
  }

  /** What a search leaves behind: the indices of the greedy run, or of the first survivor of a beam run. */
  ghost predicate Found(p: Problem, n: nat, ind: seq<int>, beams: seq<seq<seq<int>>>)
    requires p.Valid()
  {
    && |ind| == p.cb.nbSubvect && p.cb.AreIndices(ind)
    && (n == 1 ==> GreedyRun(p, ind))
    && (n > 1 ==> |beams| == p.cb.nbSubvect + 1 && BeamRun(p, n, beams))
    && (n > 1 && beams[p.cb.nbSubvect] != [] ==> ind == beams[p.cb.nbSubvect][0])
  }

  method SearchIndices(p: Problem, complexity: int) returns (ind: seq<int>, ghost beams: seq<seq<seq<int>>>)
    requires p.Valid() && p.cb.Entries() >= 6 && p.cb.nbSubvect > 0
    ensures Found(p, Survivors(complexity), ind, beams)
  {
    hide Weighted, BeamRun, GreedyRun, Codebook.Entries;
    var N := Survivors(complexity);
    var resp, E := new real[|p.cb.shape|], new real[p.cb.Entries()];
    p.Room(0);
    ComputeWeightedCodebook(p.cb, p.r, resp, E);
    if N == 1 {
      ind := SearchGreedy(p, resp[..], E[..]);
      beams := [];
    } else {
      ind, beams := SearchBeam(p, resp[..], E[..], N);
    }
  }

  /** The end of both forms: the excitation is built, added, and its synthesis taken off the target. */
  method Conclude(target: array<real>, ak: seq<real>, awk1: seq<real>, awk2: seq<real>, cb: Codebook,
                  exc: array<real>, ind: seq<int>, updateTarget: bool)
    requires cb.Valid() && cb.AreIndices(ind) && target.Length == |ind| * cb.subvectSize
    requires |ak| == |awk1| == |awk2| > 0 && target.Length <= exc.Length && exc != target
    modifies target, exc
    ensures |cb.Excitation(ind)| == target.Length
    ensures exc[..target.Length] == Plus(old(exc[..target.Length]), cb.Excitation(ind))
    ensures exc[target.Length..] == old(exc[target.Length..])
    ensures !updateTarget ==> target[..] == old(target[..])
    ensures updateTarget ==> forall j :: 0 <= j < target.Length ==>
      target[j] == old(target[j]) - Filters.Synthesis(cb.Excitation(ind), ak, awk1, awk2)[j]
  {
    hide Filters.Synthesis, Codebook.Excitation, Codebook.AreIndices, Codebook.Valid;
    var e := new real[target.Length];
    BuildExcitation(cb, ind, e);
    AddTo(exc, e);
    assert e[..] == cb.Excitation(ind);
    if updateTarget {
      UpdateTarget(target, e, ak, awk1, awk2);
    }
  }

  /** The whole search: indices are found and packed, their excitation is added to exc, and the target gives up its
      synthesis if asked. */
  method SplitCbSearchShapeSign(target: array<real>, ak: seq<real>, awk1: seq<real>, awk2: seq<real>, cb: Codebook,
                                exc: array<real>, r: Signal, bits: SpeexBits, complexity: int, updateTarget: bool)
    returns (ghost ind: seq<int>, ghost beams: seq<seq<seq<int>>>)
    requires Problem(cb, target[..], r).Valid() && cb.Entries() >= 6 && cb.nbSubvect > 0
    requires |ak| == |awk1| == |awk2| > 0 && target.Length <= exc.Length && exc != target
    requires IndexWidth(cb) <= 32 && bits.Writing() && bits.owner
    requires Different({bits, bits.chars}, {exc, target})
    modifies target, exc, bits, bits.chars
    ensures old(Problem(cb, target[..], r)).Valid()
    ensures Found(old(Problem(cb, target[..], r)), Survivors(complexity), ind, beams)
    ensures cb.AreIndices(ind) && |cb.Excitation(ind)| == target.Length
    ensures bits.Writing() && bits.Contents() == old(bits.Contents()) + IndexBits(cb, ind)
    ensures bits.chars == old(bits.chars) || fresh(bits.chars)
    ensures exc[..target.Length] == Plus(old(exc[..target.Length]), cb.Excitation(ind))
    ensures exc[target.Length..] == old(exc[target.Length..])
    ensures !updateTarget ==> target[..] == old(target[..])
    ensures updateTarget ==> forall j :: 0 <= j < target.Length ==>
      target[j] == old(target[j]) - Filters.Synthesis(cb.Excitation(ind), ak, awk1, awk2)[j]
  {
    hide Filters.Synthesis, Clear, Bits, Codebook.Excitation, IndexBits, Codebook.Entries;
    var p := Problem(cb, target[..], r);
    var found;
    found, beams := SearchIndices(p, complexity);
    assert cb.AreIndices(found) && |found| == cb.nbSubvect;
    hide Found, BeamRun, GreedyRun;
    ind := found;
    PackIndices(cb, found, bits);
    Conclude(target, ak, awk1, awk2, cb, exc, found, updateTarget);
  }

  // ----- the decoder -----

  function JoinIndex(cb: Codebook, sign: nat, shape: nat): int { if sign != 0 then shape + cb.Entries() else shape }

  /** A sign bit, where there is one, and a shape make the index field. */
  lemma IndexOfParts(cb: Codebook, s: seq<bool>, v: seq<bool>)
    requires |s| == (if cb.haveSign then 1 else 0) && |v| == cb.shapeBits
    ensures var ind := JoinIndex(cb, Value(s), Value(v));
      cb.IsIndex(ind) && Field(ind, IndexWidth(cb)) == s + v
  {
    hide Field, Value;
    FieldOfValue(v);
    FieldOfValue(s);
    FieldSplits(Value(s), Value(v), |s|, |v|);
    assert Pow2(0) == 1 && Pow2(1) == 2;
    hide Pow2;
    if cb.haveSign {
      assert Value(s) == 0 || Value(s) == 1;
    } else {
      assert s + v == v;
    }
  }

  /** One index, sign bit first. */
  method UnpackIndex(cb: Codebook, bits: SpeexBits) returns (ind: int)
    requires cb.shapeBits <= 32 && bits.Valid()
    modifies bits
    ensures bits.Valid() && cb.IsIndex(ind) && bits.Contents() == old(bits.Contents()) && bits.chars == old(bits.chars)
    ensures !old(bits.overflow) && |old(bits.Unread())| >= IndexWidth(cb) ==>
      !bits.overflow && bits.Pos() == old(bits.Pos()) + IndexWidth(cb)
      && Field(ind, IndexWidth(cb)) == old(bits.Unread())[..IndexWidth(cb)]
  {
    hide Bits, Field;
    var sign := 0;
    ghost var stream, at := bits.Contents(), bits.Pos();
    if cb.haveSign {
      sign := bits.UnpackUnsigned(1);
    }
    ghost var mid := bits.Pos();
    var shape := bits.UnpackUnsigned(cb.shapeBits);
    ind := JoinIndex(cb, sign, shape);
    if !bits.overflow {
      ghost var s, v := stream[at..mid], stream[mid..bits.Pos()];
      IndexOfParts(cb, s, v);
      assert s + v == stream[at..][..IndexWidth(cb)];
    }
  }

  method UnpackIndices(cb: Codebook, n: nat, bits: SpeexBits) returns (ind: seq<int>)
    requires cb.shapeBits <= 32 && bits.Valid()
    modifies bits
    ensures bits.Valid() && |ind| == n && cb.AreIndices(ind)
    ensures bits.Contents() == old(bits.Contents()) && bits.chars == old(bits.chars)
    ensures !old(bits.overflow) && |old(bits.Unread())| >= n * IndexWidth(cb) ==>
      !bits.overflow && bits.Pos() == old(bits.Pos()) + n * IndexWidth(cb)
      && IndexBits(cb, ind) == old(bits.Unread())[..n * IndexWidth(cb)]
  {
    hide Bits, Field, IndexBits, Codebook.IsIndex;
    ghost var W, rest, at, clean := IndexWidth(cb), bits.Unread(), bits.Pos(), bits.overflow;
    ind := [];
    assert IndexBits(cb, []) == [];
    for i := 0 to n
      invariant bits.Valid() && |ind| == i && cb.AreIndices(ind)
      invariant bits.Contents() == old(bits.Contents()) && bits.chars == old(bits.chars)
      invariant !old(bits.overflow) && |rest| >= n * W ==>
        0 <= i * W <= |rest| && !bits.overflow && bits.Pos() == at + i * W && IndexBits(cb, ind) == rest[..i * W]
    {
      BlockBound(i, n, W);
      BlockFits(i, W);
      ghost var unread := bits.Unread();
      var next := UnpackIndex(cb, bits);
      IndexBitsStep(cb, ind + [next], i);
      assert (ind + [next])[..i] == ind && (ind + [next])[..i + 1] == ind + [next];
      if !old(bits.overflow) && |rest| >= n * W {
        assert unread == rest[i * W..];
        assert rest[..i * W + W] == rest[..i * W] + rest[i * W..][..W];
      }
      ind := ind + [next];
    }
  }

  /** The decoder adds the excitation of whatever indices the stream holds. */
  method SplitCbShapeSignUnquant(exc: array<real>, cb: Codebook, nsf: nat, bits: SpeexBits)
    returns (ghost ind: seq<int>)
    requires cb.Valid() && cb.shapeBits <= 32 && nsf == cb.nbSubvect * cb.subvectSize <= exc.Length && bits.Valid()
    requires Different({bits, bits.chars}, {exc})
    modifies exc, bits
    ensures bits.Valid() && |ind| == cb.nbSubvect && cb.AreIndices(ind) && bits.Contents() == old(bits.Contents())
    ensures |cb.Excitation(ind)| == nsf
    ensures exc[..nsf] == Plus(old(exc[..nsf]), cb.Excitation(ind)) && exc[nsf..] == old(exc[nsf..])
    ensures !old(bits.overflow) && |old(bits.Unread())| >= cb.nbSubvect * IndexWidth(cb) ==>
      !bits.overflow && bits.Pos() == old(bits.Pos()) + cb.nbSubvect * IndexWidth(cb)
      && IndexBits(cb, ind) <= old(bits.Unread())
  {
    hide Bits, IndexBits, Codebook.Excitation;
    BlockFits(cb.nbSubvect, IndexWidth(cb));
    var read := UnpackIndices(cb, cb.nbSubvect, bits);
    ind := read;
    var e := new real[nsf];
    BuildExcitation(cb, read, e);
    AddTo(exc, e);
  }

  /** What the search packed is what the decoder reads back, and so the same excitation. */
  lemma DecoderAgrees(cb: Codebook, sent: seq<int>, read: seq<int>, stream: seq<bool>)
    requires cb.Valid() && cb.AreIndices(sent) && cb.AreIndices(read) && |sent| == |read|
    requires IndexBits(cb, sent) <= stream && IndexBits(cb, read) <= stream
    ensures read == sent && cb.Excitation(read) == cb.Excitation(sent)
  {
    hide IndexBits, Codebook.Excitation;
    assert IndexBits(cb, sent) == IndexBits(cb, read);
    IndexBitsInjective(cb, sent, read);
  }
}
