/** split_cb_search_shape_sign, its N1 form and split_cb_shape_sign_unquant of cb_search.c, float build.  The search
    only ever updates residual targets and running distances; here it is tied to the global error of the whole
    excitation passed through r. */
module CodebookSearch {
  import opened BeamOrder
  import opened Remainders
  import opened ShapeCodebook
  import opened Signals
  import opened VectorQuantizer

  datatype Problem = Problem(cb: Codebook, target: Signal, r: Signal) {

    predicate Valid() {
      cb.Valid() && |target| == cb.nbSubvect * cb.subvectSize && |r| == |target|
    }

    lemma Room(i: nat)
      requires Valid() && i < cb.nbSubvect
      ensures (i + 1) * cb.subvectSize <= |target|
      ensures 0 <= i * cb.subvectSize && i * cb.subvectSize + cb.subvectSize == (i + 1) * cb.subvectSize
    {
      BlockBound(i, cb.nbSubvect, cb.subvectSize);
      BlockFits(i, cb.subvectSize);
    }

    lemma Decided(i: nat)
      requires Valid() && i <= cb.nbSubvect
      ensures 0 <= i * cb.subvectSize <= |target|
    {
      if i > 0 {
        Room(i - 1);
      }
    }

    /** Every survivor has decided i subvectors. */
    predicate Beam(beam: seq<seq<int>>, i: nat)
    {
      forall b :: 0 <= b < |beam| ==> |beam[b]| == i && cb.AreIndices(beam[b])
    }

    /** The parent of f extended by its codeword with its better sign. */
    function Extended(beam: seq<seq<int>>, i: nat, f: int): (inds: seq<int>)
      requires Valid() && Beam(beam, i) && i < cb.nbSubvect && InBeam(cb.Entries(), |beam|, f)
      ensures |inds| == i + 1 && cb.AreIndices(inds)
    {
      Room(i);
      var b := beam[Parent(cb.Entries(), f)];
      b + [BestIndex(cb, target, r, b, Word(cb.Entries(), f))]
    }

    /** What each extension costs in all; anything that extends no survivor is out of reach. */
    function CostOf(beam: seq<seq<int>>, i: nat): int -> real
      requires Valid() && Beam(beam, i) && i < cb.nbSubvect
    {
      Room(i);
      f => if InBeam(cb.Entries(), |beam|, f) then Cost(cb, target, r, Extended(beam, i, f)) else VERY_LARGE
    }

    function Extensions(beam: seq<seq<int>>, i: nat, kept: seq<int>): (next: seq<seq<int>>)
      requires Valid() && Beam(beam, i) && i < cb.nbSubvect
      requires forall m :: 0 <= m < |kept| ==> InBeam(cb.Entries(), |beam|, kept[m])
      ensures |next| == |kept| && Beam(next, i + 1)
    {
      seq(|kept|, m requires 0 <= m < |kept| => Extended(beam, i, kept[m]))
    }

    /** kept lists the n cheapest of all one-step extensions, earlier ones first among equals. */
    ghost predicate Keeps(beam: seq<seq<int>>, i: nat, n: nat, kept: seq<int>)
      requires Valid() && Beam(beam, i) && i < cb.nbSubvect
    {
      && FirstOf(CostOf(beam, i), Pool(CostOf(beam, i), |beam| * cb.Entries()), n, kept)
      && forall m :: 0 <= m < |kept| ==> InBeam(cb.Entries(), |beam|, kept[m])
    }

    ghost predicate BeamStep(beam: seq<seq<int>>, i: nat, n: nat, next: seq<seq<int>>)
      requires Valid() && Beam(beam, i) && i < cb.nbSubvect
    {
      exists kept :: Keeps(beam, i, n, kept) && next == Extensions(beam, i, kept)
    }
  }

  function Parent(M: nat, f: nat): (j: nat)
    requires M > 0
  {
    f / M
  }

  function Word(M: nat, f: nat): (c: nat)
    requires M > 0
    ensures c < M
  {
    f % M
  }

  predicate InBeam(M: nat, size: nat, f: int)
    requires M > 0
  {
    0 <= f && Parent(M, f) < size
  }

  // ----- collecting candidates -----

  /** The n-best arrays hold the candidates kept so far, then fillers. */
  ghost predicate BeamHolds(kept: seq<int>, d: int -> real, idx: int -> int, par: int -> int, N: nat,
                            ndist: seq<real>, nind: seq<int>, ntarget: seq<int>)
  {
    && |kept| <= N == |ndist| == |nind| == |ntarget|
    && (forall m :: 0 <= m < |kept| ==>
          ndist[m] == d(kept[m]) < VERY_LARGE && nind[m] == idx(kept[m]) && ntarget[m] == par(kept[m]))
    && (forall m :: |kept| <= m < N ==> ndist[m] == VERY_LARGE && nind[m] == 0 && ntarget[m] == 0)
  }

  lemma BeamHoldsInserted(kept: seq<int>, d: int -> real, idx: int -> int, par: int -> int, N: nat,
                          ndist: seq<real>, nind: seq<int>, ntarget: seq<int>,
                          ndist': seq<real>, nind': seq<int>, ntarget': seq<int>, f: int, k: nat)
    requires BeamHolds(kept, d, idx, par, N, ndist, nind, ntarget) && k <= |kept| && d(f) < VERY_LARGE
    requires Shifted(ndist, ndist', N, k, d(f)) && Shifted(nind, nind', N, k, idx(f))
    requires Shifted(ntarget, ntarget', N, k, par(f))
    ensures BeamHolds(Inserted(kept, N, f, k), d, idx, par, N, ndist', nind', ntarget')
  {
    var r := Inserted(kept, N, f, k);
    forall m | 0 <= m < |r|
      ensures ndist'[m] == d(r[m]) < VERY_LARGE && nind'[m] == idx(r[m]) && ntarget'[m] == par(r[m])
    {
      assert r[m] == if m < k then kept[m] else if m == k then f else kept[m - 1];
    }
  }

  /** The insertion into the n-best list, at the first place where err is smaller. */
  method InsertBeam(N: int, err: real, ind: int, j: int, ndist: array<real>, nind: array<int>, ntarget: array<int>)
    returns (k: int)
    requires ndist.Length == nind.Length == ntarget.Length == N > 0 && nind != ntarget
    modifies ndist, nind, ntarget
    ensures 0 <= k <= N
    ensures forall m :: 0 <= m < k ==> old(ndist[..])[m] <= err
    ensures k < N ==> err < old(ndist[..])[k]
    ensures k < N ==> Shifted(old(ndist[..]), ndist[..], N, k, err)
    ensures k < N ==> Shifted(old(nind[..]), nind[..], N, k, ind) && Shifted(old(ntarget[..]), ntarget[..], N, k, j)
    ensures k == N ==> ndist[..] == old(ndist[..]) && nind[..] == old(nind[..]) && ntarget[..] == old(ntarget[..])
  {
    k := 0;
    while k < N && !(err < ndist[k])
      invariant 0 <= k <= N
      invariant forall m :: 0 <= m < k ==> ndist[m] <= err
    {
      k := k + 1;
    }
    if k < N {
      ghost var nd, ni, nt := ndist[..], nind[..], ntarget[..];
      var n := N - 1;
      while n > k
        invariant k <= n < N
        invariant forall m :: 0 <= m <= n ==> ndist[m] == nd[m] && nind[m] == ni[m] && ntarget[m] == nt[m]
        invariant forall m :: n < m < N ==> ndist[m] == nd[m - 1] && nind[m] == ni[m - 1] && ntarget[m] == nt[m - 1]
      {
        ndist[n] := ndist[n - 1];
        nind[n] := nind[n - 1];
        ntarget[n] := ntarget[n - 1];
        n := n - 1;
      }
      ndist[k] := err;
      nind[n] := ind;
      ntarget[n] := j;
    }
  }

  /** The offer goes in: the list stays the first N. */
  lemma OfferTaken(d: int -> real, idx: int -> int, par: int -> int, base: int, offers: seq<int>, i: nat, N: nat,
                   kept: seq<int>, ndist: seq<real>, nind: seq<int>, ntarget: seq<int>, k: nat)
    requires i < |offers| && GoodOffer(d, base, offers, i) && d(base + offers[i]) < VERY_LARGE
    requires FirstOf(d, Offered(d, base, offers, i), N, kept)
    requires BeamHolds(kept, d, idx, par, N, ndist, nind, ntarget)
    requires k < N && d(base + offers[i]) < ndist[k] && forall m :: 0 <= m < k ==> ndist[m] <= d(base + offers[i])
    ensures k <= |kept|
    ensures FirstOf(d, Offered(d, base, offers, i + 1), N, Inserted(kept, N, base + offers[i], k))
  {
    var f := base + offers[i];
    assert |kept| < N ==> ndist[|kept|] == VERY_LARGE;
    forall m | k <= m < |kept|
      ensures d(f) < d(kept[m])
    {
      assert m > k ==> Precedes(d, kept[k], kept[m]);
    }
    assert SlotOf(d, kept, f, k);
    InsertKeepsFirst(d, Offered(d, base, offers, i), N, kept, f, k);
  }

  /** The offer is not taken: nothing it could have displaced. */
  lemma OfferPassed(d: int -> real, idx: int -> int, par: int -> int, base: int, offers: seq<int>, i: nat, N: nat,
                    kept: seq<int>, ndist: seq<real>, nind: seq<int>, ntarget: seq<int>)
    requires i < |offers| && GoodOffer(d, base, offers, i) && N > 0
    requires FirstOf(d, Offered(d, base, offers, i), N, kept)
    requires BeamHolds(kept, d, idx, par, N, ndist, nind, ntarget)
    requires d(base + offers[i]) >= VERY_LARGE || d(base + offers[i]) >= ndist[N - 1]
    ensures FirstOf(d, Offered(d, base, offers, i + 1), N, kept)
  {
    var f := base + offers[i];
    if d(f) < VERY_LARGE {
      assert |kept| == N;
      SkipKeepsFirst(d, Offered(d, base, offers, i), N, kept, f);
    }
  }

  /** One pass of the inner loop: the N best codewords of survivor j are offered. */
  method OfferAll(N: int, j: int, odist: real, tener: real, bestDist: array<real>, bestIndex: array<int>,
                  ndist: array<real>, nind: array<int>, ntarget: array<int>,
                  ghost d: int -> real, ghost idx: int -> int, ghost par: int -> int,
                  ghost base: int, ghost offers: seq<int>, ghost before: seq<int>) returns (ghost kept: seq<int>)
    requires bestDist.Length == bestIndex.Length == N == |offers| > 0
    requires ndist.Length == nind.Length == ntarget.Length == N
    requires ndist != bestDist && nind != ntarget && nind != bestIndex && ntarget != bestIndex
    requires forall k :: 0 <= k < N ==>
      OfferIs(d, idx, par, base + offers[k], odist + bestDist[k] + tener, bestIndex[k], j)
    requires forall k :: 0 <= k < N ==> GoodOffer(d, base, offers, k)
    requires FirstOf(d, Pool(d, base), N, before) && BeamHolds(before, d, idx, par, N, ndist[..], nind[..], ntarget[..])
    modifies ndist, nind, ntarget
    ensures FirstOf(d, Offered(d, base, offers, N), N, kept)
    ensures BeamHolds(kept, d, idx, par, N, ndist[..], nind[..], ntarget[..])
  {
    hide FirstOf, GoodOffer;
    kept := before;
    for k := 0 to N
      invariant FirstOf(d, Offered(d, base, offers, k), N, kept)
      invariant BeamHolds(kept, d, idx, par, N, ndist[..], nind[..], ntarget[..])
    {
      hide Offered, Inserted, BeamHolds;
      kept := OfferOne(N, j, odist + bestDist[k] + tener, bestIndex[k], ndist, nind, ntarget, d, idx, par, base, offers,
          k, kept);
    }
  }

  /** What the code knows of a candidate: its cost, index and parent, or that it costs too much. */
  ghost predicate OfferIs(d: int -> real, idx: int -> int, par: int -> int, f: int, err: real, ind: int, j: int) {
    if d(f) < VERY_LARGE then err == d(f) && ind == idx(f) && j == par(f) else err >= VERY_LARGE
  }

  method OfferOne(N: int, j: int, err: real, ind: int, ndist: array<real>, nind: array<int>, ntarget: array<int>,
                  ghost d: int -> real, ghost idx: int -> int, ghost par: int -> int, ghost base: int,
                  ghost offers: seq<int>, ghost k: nat, ghost before: seq<int>)
    returns (ghost kept: seq<int>)
    requires k < |offers| && GoodOffer(d, base, offers, k)
    requires ndist.Length == nind.Length == ntarget.Length == N > 0 && nind != ntarget
    requires OfferIs(d, idx, par, base + offers[k], err, ind, j)
    requires FirstOf(d, Offered(d, base, offers, k), N, before)
    requires BeamHolds(before, d, idx, par, N, ndist[..], nind[..], ntarget[..])
    modifies ndist, nind, ntarget
    ensures FirstOf(d, Offered(d, base, offers, k + 1), N, kept)
    ensures BeamHolds(kept, d, idx, par, N, ndist[..], nind[..], ntarget[..])
  {
    hide FirstOf, GoodOffer, Offered, Inserted, Shifted;
    ghost var f := base + offers[k];
    ghost var nd, ni, nt := ndist[..], nind[..], ntarget[..];
    if err < ndist[N - 1] {
      var at := InsertBeam(N, err, ind, j, ndist, nind, ntarget);
      OfferTaken(d, idx, par, base, offers, k, N, before, nd, ni, nt, at);
      kept := Inserted(before, N, f, at);
      hide BeamHolds;
      BeamHoldsInserted(before, d, idx, par, N, nd, ni, nt, ndist[..], nind[..], ntarget[..], f, at);
    } else {
      kept := before;
      OfferPassed(d, idx, par, base, offers, k, N, before, nd, ni, nt);
    }
  }

  // ----- one survivor -----

  lemma FlatIndex(M: nat, j: nat, c: nat)
    requires c < M
    ensures Parent(M, j * M + c) == j && Word(M, j * M + c) == c && 0 <= j * M
  {
    QuotientUnique(j * M + c, j, c, M);
  }

  function ParentOf(M: nat): int -> int
    requires M > 0
  {
    f => if f >= 0 then Parent(M, f) else 0
  }

  /** What the pass over survivor j works with: the beam, the survivor's own indices and running distance. */
  datatype Pass = Pass(p: Problem, beam: seq<seq<int>>, i: nat, resp: Signal, E: seq<real>, j: nat, inds: seq<int>,
      odist: real) {

    ghost predicate Valid() {
      && p.Valid() && p.Beam(beam, i) && i < p.cb.nbSubvect && Weighted(p.cb, p.r, resp, E)
      && |inds| == i && p.cb.AreIndices(inds)
      && (p.Room(i); if j < |beam| then beam[j] == inds && odist == Cost(p.cb, p.target, p.r, inds)
          else odist >= VERY_LARGE)
    }

    function M(): (m: nat)
      ensures m > 0
    {
      p.cb.Entries()
    }

    function Base(): (b: nat)
    {
      BlockFits(j, M());
      j * M()
    }

    ghost function X(): (x: Signal)
      requires Valid()
      ensures |x| == p.cb.subvectSize
    {
      p.Room(i);
      Current(p.cb, p.target, p.r, inds)
    }

    ghost function D(): (d: seq<real>)
      requires Valid()
      ensures |d| == M()
    {
      SearchDistances(p.cb, X(), resp, E)
    }

    ghost function Code(): int -> int
      requires Valid()
    {
      SearchCode(p.cb, X(), resp)
    }

    ghost function Costs(): int -> real
      requires Valid()
    {
      p.CostOf(beam, i)
    }

    ghost function Indices(): int -> int
      requires Valid()
    {
      IndexOf(p, beam, i)
    }

    /** The candidates of a survivor in the beam cost its own cost, plus what the quantizer reports, plus half the
        energy of what is left to match; a filler offers nothing below the initial distance. */
    lemma Candidate(c: nat)
      requires Valid() && c < M()
      ensures var err, f := odist + D()[c] + 0.5 * Squares(X()), Base() + c;
        && OfferIs(Costs(), Indices(), ParentOf(M()), f, err, Code()(c), j)
        && Costs()(f) == if j < |beam| then err else VERY_LARGE
    {
      p.Room(i);
      FlatIndex(M(), j, c);
      hide Cost, SearchDistances, SearchCode, Squares, Current, BestIndex, Codebook.Entries, Weighted, Parent, Word;
      LocalIsGlobal(p.cb, p.target, p.r, inds, resp, E, c);
      if j >= |beam| {
        CostStep(p.cb, p.target, p.r, inds, BestIndex(p.cb, p.target, p.r, inds, c));
      }
    }

    lemma AllCosts()
      requires Valid()
      ensures PassCosts(Costs(), Base(), At(D()), odist + 0.5 * Squares(X()), M())
    {
      hide M, Base, X, D, Code, Costs, Indices, Valid, Squares, OfferIs;
      forall c | 0 <= c < M()
        ensures Costs()(Base() + c) == if j < |beam| then At(D())(c) + (odist + 0.5 * Squares(X())) else VERY_LARGE
      {
        Candidate(c);
      }
      if j >= |beam| {
        forall f | Base() <= f < Base() + M()
          ensures Costs()(f) >= VERY_LARGE
        {
          Candidate(f - Base());
        }
      }
    }

    lemma OffersReady(N: nat, offers: seq<int>, bestIndex: seq<int>, bestDist: seq<real>)
      requires Valid() && |offers| == N == |bestIndex| == |bestDist|
      requires FirstOf(At(D()), Below(M()), N, offers) && Holds(offers, D(), Code(), bestIndex, bestDist)
      ensures forall k :: 0 <= k < N ==> GoodOffer(Costs(), Base(), offers, k)
      ensures forall k :: 0 <= k < N ==>
        OfferIs(Costs(), Indices(), ParentOf(M()), Base() + offers[k],
            odist + bestDist[k] + 0.5 * Squares(X()), bestIndex[k], j)
    {
      hide M, Base, X, D, Code, Costs, Indices, Valid, Squares, FirstOf, Below, GoodOffer, OfferIs, PassCosts, ParentOf;
      OffersInOrder(At(D()), M(), N, offers);
      AllCosts();
      forall k | 0 <= k < N
        ensures GoodOffer(Costs(), Base(), offers, k)
        ensures OfferIs(Costs(), Indices(), ParentOf(M()), Base() + offers[k], odist + bestDist[k] + 0.5 * Squares(X()),
            bestIndex[k], j)
      {
        Candidate(offers[k]);
        PassOffer(Costs(), Base(), At(D()), odist + 0.5 * Squares(X()), M(), N, offers, k);
      }
    }
  }

  ghost function IndexOf(p: Problem, beam: seq<seq<int>>, i: nat): int -> int
    requires p.Valid() && p.Beam(beam, i) && i < p.cb.nbSubvect
  {
    f => if InBeam(p.cb.Entries(), |beam|, f) then p.Extended(beam, i, f)[i] else 0
  }

  // ----- the code: one survivor's pass -----

  method Quantize(cb: Codebook, x: Signal, resp: Signal, E: seq<real>, N: int, bestIndex: array<int>,
                  bestDist: array<real>)
    returns (ghost offers: seq<int>)
    requires cb.Valid() && |x| == cb.subvectSize && |resp| == cb.Entries() * cb.subvectSize && |E| == cb.Entries()
    requires bestIndex.Length == bestDist.Length == N && 1 <= N <= cb.Entries()
    modifies bestIndex, bestDist
    ensures FirstOf(At(SearchDistances(cb, x, resp, E)), Below(cb.Entries()), N, offers) && |offers| == N
    ensures Holds(offers, SearchDistances(cb, x, resp, E), SearchCode(cb, x, resp), bestIndex[..], bestDist[..])
  {
    hide FirstOf, Holds, Distances, SignedDistances, SignCode, Codebook.Entries;
    if cb.haveSign {
      offers := VqNbestSign(x, resp, cb.subvectSize, cb.Entries(), E, N, bestIndex, bestDist);
    } else {
      offers := VqNbest(x, resp, cb.subvectSize, cb.Entries(), E, N, bestIndex, bestDist);
    }
    FirstOfSize(At(SearchDistances(cb, x, resp, E)), cb.Entries(), N, offers);
  }

  /** tener: half the energy of x. */
  method HalfEnergy(x: Signal) returns (tener: real)
    ensures tener == 0.5 * Squares(x)
  {
    hide Product;
    tener := 0.0;
    for m := 0 to |x|
      invariant tener == Squares(x[..m])
    {
      assert x[..m + 1][..m] == x[..m];
      tener := tener + Product(x[m], x[m]);
    }
    assert x[..|x|] == x;
    tener := 0.5 * tener;
  }

  /** The loop body for survivor j. */
  method OfferSurvivor(ghost pass: Pass, cb: Codebook, x: Signal, resp: Signal, E: seq<real>, N: int, j: int,
                       odist: real, ndist: array<real>, nind: array<int>, ntarget: array<int>, ghost before: seq<int>)
    returns (ghost kept: seq<int>)
    requires pass.Valid() && pass.p.cb == cb && pass.resp == resp && pass.E == E && pass.j == j && pass.odist == odist
    requires x == pass.X()
    requires ndist.Length == nind.Length == ntarget.Length == N && 1 <= N <= cb.Entries() && nind != ntarget
    requires FirstOf(pass.Costs(), Pool(pass.Costs(), pass.Base()), N, before)
    requires BeamHolds(before, pass.Costs(), pass.Indices(), ParentOf(pass.M()), N, ndist[..], nind[..], ntarget[..])
    modifies ndist, nind, ntarget
    ensures FirstOf(pass.Costs(), Pool(pass.Costs(), pass.Base() + pass.M()), N, kept)
    ensures BeamHolds(kept, pass.Costs(), pass.Indices(), ParentOf(pass.M()), N, ndist[..], nind[..], ntarget[..])
  {
    hide FirstOf, BeamHolds, Pool, SearchDistances, SearchCode, Pass.X, Pass.Costs, Pass.Indices, Pass.Base, ParentOf;
    hide Codebook.Entries, Squares, GoodOffer, Offered, OfferIs, At, Below, Holds, PassCosts;
    var bestIndex, bestDist := new int[N], new real[N];
    var tener := HalfEnergy(x);
    ghost var offers := Quantize(cb, x, resp, E, N, bestIndex, bestDist);
    hide Pass.D, Pass.Code, Pass.Valid, Pass.M;
    pass.OffersReady(N, offers, bestIndex[..], bestDist[..]);
    kept := OfferAll(N, j, odist, tener, bestDist, bestIndex, ndist, nind, ntarget,
                     pass.Costs(), pass.Indices(), ParentOf(pass.M()), pass.Base(), offers, before);
    pass.AllCosts();
    PassDone(pass.Costs(), pass.Base(), At(pass.D()), odist + 0.5 * Squares(x), pass.M(), N, offers, kept);
  }

  // ----- residual targets -----

  /** The row is the residual target of the survivor, from subvector i on. */
  ghost predicate SurvivorRow(p: Problem, i: nat, inds: seq<int>, row: Signal)
    requires p.Valid()
  {
    && |inds| == i && p.cb.AreIndices(inds) && |row| == |p.target|
    && forall n :: i * p.cb.subvectSize <= n < |row| ==> row[n] == Residual(p.target, p.cb.Excitation(inds), p.r)[n]
  }

  lemma RowIsCurrent(p: Problem, i: nat, inds: seq<int>, row: Signal)
    requires p.Valid() && SurvivorRow(p, i, inds, row) && i < p.cb.nbSubvect
    ensures (i + 1) * p.cb.subvectSize <= |p.target| && 0 <= i * p.cb.subvectSize
    ensures i * p.cb.subvectSize + p.cb.subvectSize == (i + 1) * p.cb.subvectSize
    ensures row[i * p.cb.subvectSize..(i + 1) * p.cb.subvectSize] == Current(p.cb, p.target, p.r, inds)
  {
    p.Room(i);
    hide Residual;
  }

  /** What one subvector takes off sample n, the part of its first m samples. */
  function Taken(p: Problem, i: nat, ind: int, n: int, m: nat): real
    requires p.Valid() && p.cb.IsIndex(ind) && m <= p.cb.subvectSize
  {
    Convolution(p.r, p.cb.Codeword(ind), n - i * p.cb.subvectSize, m)
  }

  lemma TakenStep(p: Problem, i: nat, ind: int, n: int, m: nat)
    requires p.Valid() && p.cb.IsIndex(ind) && m < p.cb.subvectSize && i < p.cb.nbSubvect
    requires (i + 1) * p.cb.subvectSize <= n < |p.target|
    ensures 0 <= p.cb.subvectSize - m + n - (i + 1) * p.cb.subvectSize < |p.r|
    ensures Taken(p, i, ind, n, m + 1) == Taken(p, i, ind, n, m)
      + Product(p.cb.Sample(ind, m), p.r[p.cb.subvectSize - m + n - (i + 1) * p.cb.subvectSize])
  {
    p.Room(i);
    hide Codebook.Sample, Product;
    ProductExchange(p.cb.Sample(ind, m), p.r[n - i * p.cb.subvectSize - m]);
  }

  lemma ProductExchange(a: real, b: real)
    ensures Product(a, b) == Product(b, a)
  {}

  lemma TakenNothing(p: Problem, i: nat, ind: int)
    requires p.Valid() && p.cb.IsIndex(ind)
    ensures forall n :: Taken(p, i, ind, n, 0) == 0.0
  {}

  /** target_update: t[off + n] -= g * r[q + n] */
  method TargetUpdate(t: array<real>, off: nat, g: real, r: Signal, q: nat, len: nat)
    requires off + len <= t.Length && q + len <= |r|
    modifies t
    ensures forall n :: off <= n < off + len ==> t[n] == old(t[n]) - Product(g, r[q + n - off])
    ensures forall n :: 0 <= n < t.Length && (n < off || n >= off + len) ==> t[n] == old(t[n])
  {
    hide Product;
    for n := 0 to len
      invariant forall m :: off <= m < off + n ==> t[m] == old(t[m]) - Product(g, r[q + m - off])
      invariant forall m :: 0 <= m < t.Length && (m < off || m >= off + n) ==> t[m] == old(t[m])
    {
      t[off + n] := t[off + n] - Product(g, r[q + n]);
    }
  }

  /** The rest of a survivor's target loses the response to the new subvector. */
  method TakeResponse(p: Problem, i: nat, ind: int, t: array<real>)
    requires p.Valid() && i < p.cb.nbSubvect && p.cb.IsIndex(ind) && t.Length == |p.target|
    modifies t
    ensures forall n :: (i + 1) * p.cb.subvectSize <= n < |p.target| ==>
      t[n] == old(t[n]) - Taken(p, i, ind, n, p.cb.subvectSize)
    ensures forall n :: 0 <= n < (i + 1) * p.cb.subvectSize && n < t.Length ==> t[n] == old(t[n])
  {
    hide Product, Taken, Codebook.Sample;
    p.Room(i);
    var L := p.cb.subvectSize;
    var start, nsf := (i + 1) * L, |p.target|;
    TakenNothing(p, i, ind);
    for m := 0 to L
      invariant forall n :: start <= n < nsf ==> t[n] == old(t[n]) - Taken(p, i, ind, n, m)
      invariant forall n :: 0 <= n < start ==> t[n] == old(t[n])
    {
      ghost var row := t[..];
      TargetUpdate(t, start, p.cb.Sample(ind, m), p.r, L - m, nsf - start);
      forall n | start <= n < nsf
        ensures t[n] == old(t[n]) - Taken(p, i, ind, n, m + 1)
      {
        TakenStep(p, i, ind, n, m);
        assert t[n] == row[n] - Product(p.cb.Sample(ind, m), p.r[L - m + n - start]);
      }
    }
  }

  /** A new survivor's row, from its parent's. */
  method ExtendRow(p: Problem, i: nat, src: array<real>, ghost inds: seq<int>, ind: int, dst: array<real>)
    requires p.Valid() && i < p.cb.nbSubvect && p.cb.IsIndex(ind) && src != dst
    requires src.Length == dst.Length == |p.target| && SurvivorRow(p, i, inds, src[..])
    modifies dst
    ensures SurvivorRow(p, i + 1, inds + [ind], dst[..])
  {
    hide Residual, Taken, Codebook.Excitation, Codebook.Codeword;
    p.Room(i);
    var L := p.cb.subvectSize;
    var start, nsf := (i + 1) * L, |p.target|;
    var m := start;
    while m < nsf
      invariant start <= m <= nsf
      invariant forall n :: start <= n < m ==> dst[n] == src[n]
    {
      dst[m] := src[m];
      m := m + 1;
    }
    TakeResponse(p, i, ind, dst);
    p.cb.ExcitationStep(inds, ind);
    forall n | start <= n < nsf
      ensures dst[n] == Residual(p.target, p.cb.Excitation(inds + [ind]), p.r)[n]
    {
      ResidualTaken(p, i, inds, ind, n);
      assert src[..][n] == src[n];
    }
  }

  lemma ResidualTaken(p: Problem, i: nat, inds: seq<int>, ind: int, n: nat)
    requires p.Valid() && |inds| == i < p.cb.nbSubvect && p.cb.AreIndices(inds) && p.cb.IsIndex(ind) && n < |p.target|
    ensures p.cb.AreIndices(inds + [ind])
    ensures Residual(p.target, p.cb.Excitation(inds + [ind]), p.r)[n]
         == Residual(p.target, p.cb.Excitation(inds), p.r)[n] - Taken(p, i, ind, n, p.cb.subvectSize)
  {
    p.cb.ExcitationStep(inds, ind);
    hide Residual;
    ResidualStep(p.target, p.cb.Excitation(inds), p.cb.Codeword(ind), p.r, n);
  }

  // ----- the beam from stage to stage -----

  /** Survivor j has decided inds; the first of them are the beam, with their true costs; the rest are fillers. */
  ghost predicate Tracks(p: Problem, i: nat, n: nat, beam: seq<seq<int>>, survivors: seq<seq<int>>, odist: seq<real>)
    requires p.Valid() && i <= p.cb.nbSubvect
  {
    && p.Beam(beam, i) && p.Beam(survivors, i) && |beam| <= n <= |survivors| == |odist|
    && forall j :: 0 <= j < n ==> Tracked(p, i, beam, survivors, odist, j)
  }

  ghost predicate Tracked(p: Problem, i: nat, beam: seq<seq<int>>, survivors: seq<seq<int>>, odist: seq<real>, j: nat)
    requires p.Valid() && i <= p.cb.nbSubvect && p.Beam(survivors, i) && j < |survivors| == |odist|
  {
    p.Decided(i);
    if j < |beam| then beam[j] == survivors[j] && odist[j] == Cost(p.cb, p.target, p.r, survivors[j])
    else odist[j] >= VERY_LARGE
  }

  /** The candidates of the first n survivors are all there are. */
  lemma PoolOfBeam(p: Problem, beam: seq<seq<int>>, i: nat, n: nat)
    requires p.Valid() && p.Beam(beam, i) && i < p.cb.nbSubvect && |beam| <= n
    ensures Pool(p.CostOf(beam, i), n * p.cb.Entries()) == Pool(p.CostOf(beam, i), |beam| * p.cb.Entries())
    ensures forall f :: f in Pool(p.CostOf(beam, i), n * p.cb.Entries()) ==> InBeam(p.cb.Entries(), |beam|, f)
  {
    var d, M := p.CostOf(beam, i), p.cb.Entries();
    hide Codebook.Entries, Problem.Extended, Cost;
    forall f | f in Pool(d, n * M)
      ensures InBeam(M, |beam|, f) && f < |beam| * M
    {
      InBeamBound(M, |beam|, f);
    }
    assert |beam| * M <= n * M by {
      BlockRange(|beam|, n, M);
    }
  }

  lemma InBeamBound(M: nat, size: nat, f: nat)
    requires M > 0 && InBeam(M, size, f)
    ensures f < size * M
  {
    BlockBound(f / M, size, M);
  }

  lemma BlockRange(a: nat, b: nat, M: nat)
    requires a <= b
    ensures a * M <= b * M
  {}

  /** The n-best arrays after all passes describe the next beam. */
  lemma NextTracks(p: Problem, i: nat, n: nat, N: nat, beam: seq<seq<int>>, survivors: seq<seq<int>>, odist: seq<real>,
                   kept: seq<int>, ndist: seq<real>, nind: seq<int>, ntarget: seq<int>, next: seq<seq<int>>)
    requires p.Valid() && i < p.cb.nbSubvect && Tracks(p, i, n, beam, survivors, odist) && |survivors| == N > 0
    requires FirstOf(p.CostOf(beam, i), Pool(p.CostOf(beam, i), n * p.cb.Entries()), N, kept)
    requires BeamHolds(kept, p.CostOf(beam, i), IndexOf(p, beam, i), ParentOf(p.cb.Entries()), N, ndist, nind, ntarget)
    requires |next| == N && forall j :: 0 <= j < N ==>
      0 <= ntarget[j] < N && next[j] == survivors[ntarget[j]] + [nind[j]]
    ensures p.Keeps(beam, i, N, kept)
    ensures Tracks(p, i + 1, N, p.Extensions(beam, i, kept), next, ndist)
  {
    PoolOfBeam(p, beam, i, n);
    KeptCosts(p, beam, i, n, N, kept);
    var after := p.Extensions(beam, i, kept);
    forall j | 0 <= j < N
      ensures |next[j]| == i + 1 && p.cb.AreIndices(next[j])
      ensures j < |kept| ==> next[j] == after[j] && ndist[j] == p.CostOf(beam, i)(kept[j])
      ensures j >= |kept| ==> ndist[j] == VERY_LARGE
    {
      hide FirstOf, Pool, Problem.CostOf, BestIndex, Codebook.Entries;
      if j < |kept| {
        assert ntarget[j] == Parent(p.cb.Entries(), kept[j]);
        assert Tracked(p, i, beam, survivors, odist, ntarget[j]);
      }
    }
    hide FirstOf, Pool, BestIndex, Codebook.Entries, Problem.Extended, BeamHolds;
  }

  lemma KeptCosts(p: Problem, beam: seq<seq<int>>, i: nat, n: nat, N: nat, kept: seq<int>)
    requires p.Valid() && p.Beam(beam, i) && i < p.cb.nbSubvect && |beam| <= n
    requires FirstOf(p.CostOf(beam, i), Pool(p.CostOf(beam, i), n * p.cb.Entries()), N, kept)
    ensures |kept| <= N && forall m :: 0 <= m < |kept| ==> InBeam(p.cb.Entries(), |beam|, kept[m])
  {
    PoolOfBeam(p, beam, i, n);
    hide Pool, Problem.CostOf, InBeam;
  }

  /** Every survivor's row is its residual target. */
  ghost predicate Rows(p: Problem, i: nat, survivors: seq<seq<int>>, t: seq<array<real>>)
    requires p.Valid()
    reads t
  {
    |t| == |survivors| && forall j :: 0 <= j < |t| ==> SurvivorRow(p, i, survivors[j], t[j][..])
  }

  /** Every survivor's indices so far. */
  ghost predicate Histories(p: Problem, i: nat, survivors: seq<seq<int>>, ind: seq<array<int>>)
    reads ind
  {
    |ind| == |survivors| && i <= p.cb.nbSubvect
    && forall j :: 0 <= j < |ind| ==> ind[j].Length == p.cb.nbSubvect && ind[j][..i] == survivors[j]
  }

  predicate Separate<T>(a: seq<array<T>>) {
    forall j, k :: 0 <= j < k < |a| ==> a[j] != a[k]
  }

  predicate Apart<T>(a: seq<array<T>>, b: seq<array<T>>) {
    forall j, k :: 0 <= j < |a| && 0 <= k < |b| ==> a[j] != b[k]
  }

  lemma PassIsValid(p: Problem, resp: Signal, E: seq<real>, i: nat, n: nat, j: nat,
                    beam: seq<seq<int>>, survivors: seq<seq<int>>, odist: seq<real>)
    requires p.Valid() && i < p.cb.nbSubvect && Weighted(p.cb, p.r, resp, E)
    requires Tracks(p, i, n, beam, survivors, odist) && j < n
    ensures p.Beam(beam, i) && j < |survivors| == |odist|
    ensures Pass(p, beam, i, resp, E, j, survivors[j], odist[j]).Valid()
  {
    hide Weighted, Cost;
    assert Tracked(p, i, beam, survivors, odist, j);
  }

  lemma PassReads(pass: Pass)
    requires pass.Valid()
    ensures pass.p.Valid() && pass.p.Beam(pass.beam, pass.i) && pass.i < pass.p.cb.nbSubvect
    ensures pass.Costs() == pass.p.CostOf(pass.beam, pass.i) && pass.Indices() == IndexOf(pass.p, pass.beam, pass.i)
    ensures pass.M() == pass.p.cb.Entries() && pass.Base() == pass.j * pass.p.cb.Entries()
    ensures pass.Base() + pass.M() == (pass.j + 1) * pass.p.cb.Entries()
  {
    hide Weighted, Cost, Problem.Beam, Problem.CostOf, IndexOf, Codebook.Entries, Codebook.AreIndices;
    BlockFits(pass.j, pass.p.cb.Entries());
  }

  lemma RowIsX(pass: Pass, row: Signal)
    requires pass.Valid() && SurvivorRow(pass.p, pass.i, pass.inds, row)
    ensures 0 <= pass.i * pass.p.cb.subvectSize <= (pass.i + 1) * pass.p.cb.subvectSize <= |row|
    ensures row[pass.i * pass.p.cb.subvectSize..(pass.i + 1) * pass.p.cb.subvectSize] == pass.X()
  {
    hide Current, Weighted, Cost, Residual;
    RowIsCurrent(pass.p, pass.i, pass.inds, row);
  }

  method PassOver(p: Problem, resp: Signal, E: seq<real>, i: nat, N: int, j: nat, row: array<real>, dist: real,
                  ndist: array<real>, nind: array<int>, ntarget: array<int>,
                  ghost beam: seq<seq<int>>, ghost survivors: seq<seq<int>>, ghost odist: seq<real>,
                  ghost before: seq<int>) returns (ghost kept: seq<int>)
    requires p.Valid() && i < p.cb.nbSubvect && Weighted(p.cb, p.r, resp, E) && 1 <= N <= p.cb.Entries()
    requires Tracks(p, i, if i == 0 then 1 else N, beam, survivors, odist) && j < if i == 0 then 1 else N
    requires j < |survivors| == |odist| && dist == odist[j] && SurvivorRow(p, i, survivors[j], row[..])
    requires ndist.Length == nind.Length == ntarget.Length == N && nind != ntarget
    requires p.Beam(beam, i)
    requires FirstOf(p.CostOf(beam, i), Pool(p.CostOf(beam, i), j * p.cb.Entries()), N, before)
    requires BeamHolds(before, p.CostOf(beam, i), IndexOf(p, beam, i), ParentOf(p.cb.Entries()), N, ndist[..], nind[..],
        ntarget[..])
    modifies ndist, nind, ntarget
    ensures FirstOf(p.CostOf(beam, i), Pool(p.CostOf(beam, i), (j + 1) * p.cb.Entries()), N, kept)
    ensures BeamHolds(kept, p.CostOf(beam, i), IndexOf(p, beam, i), ParentOf(p.cb.Entries()), N, ndist[..], nind[..],
        ntarget[..])
  {
    hide *;
    PassIsValid(p, resp, E, i, if i == 0 then 1 else N, j, beam, survivors, odist);
    ghost var pass := Pass(p, beam, i, resp, E, j, survivors[j], dist);
    PassReads(pass);
    var L := p.cb.subvectSize;
    RowIsX(pass, row[..]);
    kept := OfferSurvivor(pass, p.cb, row[i * L..(i + 1) * L], resp, E, N, j, dist, ndist, nind, ntarget, before);
  }

  lemma RowLength(p: Problem, i: nat, inds: seq<int>, row: Signal)
    requires p.Valid() && SurvivorRow(p, i, inds, row)
    ensures |row| == |p.target|
  {}

  /** All passes of a stage: for i == 0 only the first survivor is looked at. */
  method CollectCandidates(p: Problem, resp: Signal, E: seq<real>, i: nat, N: int, ot: seq<array<real>>,
                           odist: array<real>, ndist: array<real>, nind: array<int>, ntarget: array<int>,
                           ghost beam: seq<seq<int>>, ghost survivors: seq<seq<int>>)
    returns (ghost kept: seq<int>)
    requires p.Valid() && i < p.cb.nbSubvect && Weighted(p.cb, p.r, resp, E) && 1 <= N <= p.cb.Entries()
    requires Tracks(p, i, if i == 0 then 1 else N, beam, survivors, odist[..]) && |survivors| == N == odist.Length
    requires Rows(p, i, survivors, ot)
    requires ndist.Length == nind.Length == ntarget.Length == N && nind != ntarget
    requires ndist != odist && forall j :: 0 <= j < N ==> ot[j] != ndist
    modifies ndist, nind, ntarget
    ensures var d, M, n := p.CostOf(beam, i), p.cb.Entries(), if i == 0 then 1 else N;
      && FirstOf(d, Pool(d, n * M), N, kept)
      && BeamHolds(kept, d, IndexOf(p, beam, i), ParentOf(M), N, ndist[..], nind[..], ntarget[..])
  {
    hide FirstOf, BeamHolds, Problem.CostOf, Codebook.Entries, IndexOf, ParentOf, SurvivorRow, Weighted;
    ghost var d, M, n := p.CostOf(beam, i), p.cb.Entries(), if i == 0 then 1 else N;
    ForgetBest(ndist, nind, ntarget);
    kept := [];
    NothingKept(p, beam, i, N, ndist[..], nind[..], ntarget[..]);
    hide Tracks;
    var j := 0;
    while j < N && (i > 0 || j < 1)
      invariant 0 <= j <= n
      invariant FirstOf(d, Pool(d, j * M), N, kept)
      invariant BeamHolds(kept, d, IndexOf(p, beam, i), ParentOf(M), N, ndist[..], nind[..], ntarget[..])
    {
      kept := PassOver(p, resp, E, i, N, j, ot[j], odist[j], ndist, nind, ntarget, beam, survivors, odist[..], kept);
      BlockFits(j, M);
      j := j + 1;
    }
  }

  /** "erase" the n-best list */
  method ForgetBest(ndist: array<real>, nind: array<int>, ntarget: array<int>)
    requires ndist.Length == nind.Length == ntarget.Length && nind != ntarget
    modifies ndist, nind, ntarget
    ensures forall j :: 0 <= j < ndist.Length ==> ndist[j] == VERY_LARGE && nind[j] == 0 && ntarget[j] == 0
  {
    for j := 0 to ndist.Length
      invariant forall k :: 0 <= k < j ==> ndist[k] == VERY_LARGE
    {
      ndist[j] := VERY_LARGE;
    }
    for j := 0 to ndist.Length
      invariant forall k :: 0 <= k < ndist.Length ==> ndist[k] == VERY_LARGE
      invariant forall k :: 0 <= k < j ==> nind[k] == 0 && ntarget[k] == 0
    {
      ntarget[j] := 0;
      nind[j] := 0;
    }
  }

  lemma NothingKept(p: Problem, beam: seq<seq<int>>, i: nat, N: nat, ndist: seq<real>, nind: seq<int>,
                    ntarget: seq<int>)
    requires p.Valid() && p.Beam(beam, i) && i < p.cb.nbSubvect
    requires N == |ndist| == |nind| == |ntarget|
    requires forall j :: 0 <= j < N ==> ndist[j] == VERY_LARGE && nind[j] == 0 && ntarget[j] == 0
    ensures FirstOf(p.CostOf(beam, i), Pool(p.CostOf(beam, i), 0 * p.cb.Entries()), N, [])
    ensures BeamHolds([], p.CostOf(beam, i), IndexOf(p, beam, i), ParentOf(p.cb.Entries()), N, ndist, nind, ntarget)
  {
    assert Pool(p.CostOf(beam, i), 0) == {};
  }

  /** The candidates chosen refer to survivors, by valid indices. */
  lemma ChoicesValid(p: Problem, beam: seq<seq<int>>, i: nat, n: nat, N: nat, kept: seq<int>,
                     ndist: seq<real>, nind: seq<int>, ntarget: seq<int>)
    requires p.Valid() && p.Beam(beam, i) && i < p.cb.nbSubvect && |beam| <= n <= N && N > 0
    requires FirstOf(p.CostOf(beam, i), Pool(p.CostOf(beam, i), n * p.cb.Entries()), N, kept)
    requires BeamHolds(kept, p.CostOf(beam, i), IndexOf(p, beam, i), ParentOf(p.cb.Entries()), N, ndist, nind, ntarget)
    ensures forall j :: 0 <= j < N ==> 0 <= ntarget[j] < N && p.cb.IsIndex(nind[j])
  {
    KeptCosts(p, beam, i, n, N, kept);
    hide FirstOf, Pool, Problem.CostOf, BestIndex, Codebook.Entries;
  }

  method ExtendHistory(i: nat, src: array<int>, ind: int, dst: array<int>)
    requires src != dst && src.Length == dst.Length && i < dst.Length
    modifies dst
    ensures dst[..i + 1] == src[..i] + [ind]
  {
    for q := 0 to dst.Length
      invariant dst[..q] == src[..q]
    {
      dst[q] := src[q];
    }
    assert dst[..i] == src[..i];
    dst[i] := ind;
  }

  function Successors(survivors: seq<seq<int>>, nind: seq<int>, ntarget: seq<int>): (next: seq<seq<int>>)
    requires |nind| == |ntarget| == |survivors|
    requires forall j :: 0 <= j < |ntarget| ==> 0 <= ntarget[j] < |survivors|
    ensures |next| == |survivors|
  {
    seq(|survivors|, j requires 0 <= j < |survivors| => survivors[ntarget[j]] + [nind[j]])
  }

  /** New rows and histories for all survivors. */
  method Advance(p: Problem, i: nat, N: int, nind: array<int>, ntarget: array<int>, ot: seq<array<real>>,
                 nt: seq<array<real>>, oinds: seq<array<int>>, ninds: seq<array<int>>, ghost survivors: seq<seq<int>>)
    requires p.Valid() && i < p.cb.nbSubvect && nind.Length == ntarget.Length == N == |survivors| == |nt| == |ninds|
    requires forall j :: 0 <= j < N ==> 0 <= ntarget[j] < N && p.cb.IsIndex(nind[j])
    requires Rows(p, i, survivors, ot) && Histories(p, i, survivors, oinds)
    requires Separate(nt) && Apart(ot, nt) && Separate(ninds) && Apart(oinds, ninds)
    requires forall j :: 0 <= j < N ==> nt[j].Length == |p.target| && ninds[j].Length == p.cb.nbSubvect
    requires nind !in ninds && ntarget !in ninds
    modifies nt, ninds
    ensures forall j :: 0 <= j < N ==> 0 <= ntarget[j] < N
    ensures nind[..] == old(nind[..]) && ntarget[..] == old(ntarget[..])
    ensures Rows(p, i + 1, Successors(survivors, nind[..], ntarget[..]), nt)
    ensures Histories(p, i + 1, Successors(survivors, nind[..], ntarget[..]), ninds)
  {
    hide SurvivorRow, Codebook.Entries;
    ghost var next := Successors(survivors, nind[..], ntarget[..]);
    for j := 0 to N
      invariant nind[..] == old(nind[..]) && ntarget[..] == old(ntarget[..])
      invariant forall k :: 0 <= k < N ==> ot[k][..] == old(ot[k][..]) && oinds[k][..] == old(oinds[k][..])
      invariant forall k :: 0 <= k < j ==> SurvivorRow(p, i + 1, next[k], nt[k][..])
      invariant forall k :: 0 <= k < j ==> ninds[k][..i + 1] == next[k]
    {
      var src := ntarget[j];
      RowLength(p, i, survivors[src], ot[src][..]);
      ExtendRow(p, i, ot[src], survivors[src], nind[j], nt[j]);
      ExtendHistory(i, oinds[src], nind[j], ninds[j]);
      assert oinds[src][..i] == survivors[src];
    }
  }

  method CopyHistories(N: int, oinds: seq<array<int>>, ninds: seq<array<int>>)
    requires |oinds| == |ninds| == N && Separate(oinds) && Apart(oinds, ninds)
    requires forall j :: 0 <= j < N ==> oinds[j].Length == ninds[j].Length
    modifies oinds
    ensures forall j :: 0 <= j < N ==> oinds[j][..] == ninds[j][..]
  {
    for j := 0 to N
      invariant forall k :: 0 <= k < j ==> oinds[k][..] == ninds[k][..]
    {
      for m := 0 to ninds[j].Length
        invariant forall k :: 0 <= k < j ==> oinds[k][..] == ninds[k][..]
        invariant oinds[j][..m] == ninds[j][..m]
      {
        oinds[j][m] := ninds[j][m];
      }
    }
  }

  // ----- the search -----

  /** A whole run: one empty excitation to start with, then a beam step per subvector. */
  ghost predicate BeamRun(p: Problem, n: nat, beams: seq<seq<seq<int>>>)
    requires p.Valid() && |beams| <= p.cb.nbSubvect + 1
  {
    && |beams| > 0 && beams[0] == [[]]
    && forall i :: 0 <= i < |beams| - 1 ==> p.Beam(beams[i], i) && p.BeamStep(beams[i], i, n, beams[i + 1])
  }

  method FreshRows<T(0)>(n: nat, len: nat, avoid: seq<array<T>>) returns (rows: seq<array<T>>)
    ensures |rows| == n && Separate(rows) && Apart(avoid, rows)
    ensures forall j :: 0 <= j < n ==> rows[j].Length == len && fresh(rows[j])
  {
    rows := [];
    for j := 0 to n
      invariant |rows| == j && Separate(rows) && Apart(avoid, rows)
      invariant forall k :: 0 <= k < j ==> rows[k].Length == len && fresh(rows[k])
    {
      var row := new T[len];
      rows := rows + [row];
    }
  }

  method CopyTarget(t: Signal, rows: seq<array<real>>)
    requires Separate(rows) && forall j :: 0 <= j < |rows| ==> rows[j].Length == |t|
    modifies rows
    ensures forall j :: 0 <= j < |rows| ==> rows[j][..] == t
  {
    for j := 0 to |rows|
      invariant forall k :: 0 <= k < j ==> rows[k][..] == t
    {
      for m := 0 to |t|
        invariant forall k :: 0 <= k < j ==> rows[k][..] == t
        invariant rows[j][..m] == t[..m]
      {
        rows[j][m] := t[m];
      }
      assert rows[j][..] == t;
    }
  }

  /** Before the first stage every row is the target itself. */
  lemma StartOk(p: Problem, N: nat, odist: seq<real>)
    requires p.Valid() && N > 0 && |odist| == N && forall j :: 0 <= j < N ==> odist[j] == 0.0
    ensures Tracks(p, 0, 1, [[]], seq(N, _ => []), odist)
    ensures SurvivorRow(p, 0, [], p.target)
  {
    assert forall n :: 0 <= n < |p.target| ==> Convolution(p.r, [], n, 0) == 0.0;
    assert Squares([]) == 0.0;
  }

  method Start(p: Problem, N: int, ot: seq<array<real>>, odist: array<real>) returns (ghost survivors: seq<seq<int>>)
    requires p.Valid() && N == |ot| == odist.Length > 0 && Separate(ot)
    requires forall j :: 0 <= j < N ==> ot[j].Length == |p.target| && ot[j] != odist
    modifies ot, odist
    ensures Tracks(p, 0, 1, [[]], survivors, odist[..]) && |survivors| == N && Rows(p, 0, survivors, ot)
    ensures survivors == seq(N, _ => [])
  {
    hide SurvivorRow, Tracks;
    CopyTarget(p.target, ot);
    for j := 0 to N
      invariant forall k :: 0 <= k < j ==> odist[k] == 0.0
      invariant forall k :: 0 <= k < N ==> ot[k][..] == p.target
    {
      odist[j] := 0.0;
    }
    survivors := seq(N, _ => []);
    StartOk(p, N, odist[..]);
  }

  /** The n-best arrays of a stage, and the beam they describe. */
  method Choose(p: Problem, resp: Signal, E: seq<real>, i: nat, N: int, ot: seq<array<real>>, odist: array<real>,
                ghost beam: seq<seq<int>>, ghost survivors: seq<seq<int>>)
    returns (ndist: array<real>, nind: array<int>, ntarget: array<int>, ghost next: seq<seq<int>>)
    requires p.Valid() && i < p.cb.nbSubvect && Weighted(p.cb, p.r, resp, E) && 1 <= N <= p.cb.Entries()
    requires Tracks(p, i, if i == 0 then 1 else N, beam, survivors, odist[..]) && |survivors| == N == odist.Length
    requires Rows(p, i, survivors, ot)
    ensures fresh(ndist) && fresh(nind) && fresh(ntarget) && ndist.Length == nind.Length == ntarget.Length == N
    ensures forall j :: 0 <= j < N ==> 0 <= ntarget[j] < N && p.cb.IsIndex(nind[j])
    ensures p.Beam(beam, i) && p.BeamStep(beam, i, N, next)
    ensures Tracks(p, i + 1, N, next, Successors(survivors, nind[..], ntarget[..]), ndist[..])
  {
    hide FirstOf, BeamHolds, Problem.CostOf, Codebook.Entries, IndexOf, ParentOf, SurvivorRow, Weighted, Tracked, Pool;
    ndist, nind, ntarget := new real[N], new int[N], new int[N];
    ghost var kept := CollectCandidates(p, resp, E, i, N, ot, odist, ndist, nind, ntarget, beam, survivors);
    ChoicesValid(p, beam, i, if i == 0 then 1 else N, N, kept, ndist[..], nind[..], ntarget[..]);
    ghost var survivors' := Successors(survivors, nind[..], ntarget[..]);
    NextTracks(p, i, if i == 0 then 1 else N, N, beam, survivors, odist[..], kept, ndist[..], nind[..], ntarget[..],
        survivors');
    next := p.Extensions(beam, i, kept);
  }

  method TakeOver(odist: array<real>, ndist: array<real>)
    requires odist.Length == ndist.Length && odist != ndist
    modifies odist
    ensures odist[..] == ndist[..]
  {
    for j := 0 to odist.Length
      invariant odist[..j] == ndist[..j]
    {
      odist[j] := ndist[j];
    }
  }

  /** One stage: choose, extend the survivors, and take over. */
  method Stage(p: Problem, resp: Signal, E: seq<real>, i: nat, N: int, ot: seq<array<real>>, nt: seq<array<real>>,
               oinds: seq<array<int>>, ninds: seq<array<int>>, odist: array<real>,
               ghost beam: seq<seq<int>>, ghost survivors: seq<seq<int>>)
    returns (ghost next: seq<seq<int>>, ghost survivors': seq<seq<int>>)
    requires p.Valid() && i < p.cb.nbSubvect && Weighted(p.cb, p.r, resp, E) && 1 <= N <= p.cb.Entries()
    requires Tracks(p, i, if i == 0 then 1 else N, beam, survivors, odist[..]) && |survivors| == N == odist.Length
    requires Rows(p, i, survivors, ot) && Histories(p, i, survivors, oinds)
    requires |nt| == |ninds| == N && Separate(nt) && Apart(ot, nt)
    requires Separate(oinds) && Separate(ninds) && Apart(oinds, ninds)
    requires forall j :: 0 <= j < N ==> nt[j].Length == |p.target| && ninds[j].Length == p.cb.nbSubvect
    requires odist !in ot && odist !in nt
    modifies nt, ninds, oinds, odist
    ensures p.Beam(beam, i) && p.BeamStep(beam, i, N, next)
    ensures Tracks(p, i + 1, N, next, survivors', odist[..]) && |survivors'| == N
    ensures Rows(p, i + 1, survivors', nt) && Histories(p, i + 1, survivors', oinds)
  {
    hide Problem.BeamStep, Problem.Beam, Codebook.Entries, SurvivorRow, Weighted, Tracks;
    var ndist, nind, ntarget;
    ndist, nind, ntarget, next := Choose(p, resp, E, i, N, ot, odist, beam, survivors);
    survivors' := Successors(survivors, nind[..], ntarget[..]);
    hide Successors;
    MoveOn(p, i, N, nind, ntarget, ot, nt, oinds, ninds, survivors);
    TakeOver(odist, ndist);
  }

  method MoveOn(p: Problem, i: nat, N: int, nind: array<int>, ntarget: array<int>, ot: seq<array<real>>,
                nt: seq<array<real>>, oinds: seq<array<int>>, ninds: seq<array<int>>, ghost survivors: seq<seq<int>>)
    requires p.Valid() && i < p.cb.nbSubvect && nind.Length == ntarget.Length == N == |survivors| == |nt| == |ninds|
    requires forall j :: 0 <= j < N ==> 0 <= ntarget[j] < N && p.cb.IsIndex(nind[j])
    requires Rows(p, i, survivors, ot) && Histories(p, i, survivors, oinds)
    requires Separate(nt) && Apart(ot, nt) && Separate(ninds) && Separate(oinds) && Apart(oinds, ninds)
    requires forall j :: 0 <= j < N ==> nt[j].Length == |p.target| && ninds[j].Length == p.cb.nbSubvect
    requires nind !in ninds && ntarget !in ninds
    modifies nt, ninds, oinds
    ensures Rows(p, i + 1, old(Successors(survivors, nind[..], ntarget[..])), nt)
    ensures Histories(p, i + 1, old(Successors(survivors, nind[..], ntarget[..])), oinds)
  {
    hide Codebook.Entries, SurvivorRow, Successors, Problem.Valid;
    Advance(p, i, N, nind, ntarget, ot, nt, oinds, ninds, survivors);
    ghost var next := Successors(survivors, nind[..], ntarget[..]);
    CopyHistories(N, oinds, ninds);
    assert forall j :: 0 <= j < N ==> oinds[j][..i + 1] == ninds[j][..][..i + 1];
  }
}
