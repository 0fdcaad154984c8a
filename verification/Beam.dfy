/** The order in which the beam search of cb_search.c collects candidates.  Candidate f = j * M + c extends survivor j
    by codeword c; only the best n codewords of each survivor are ever offered, and only below the initial distance. */
module BeamOrder {
  import opened VectorQuantizer

  const VERY_LARGE := 1000000000000000.0

  /** The candidates below bound that are worth keeping. */
  function Pool(d: int -> real, bound: int): (pool: set<int>) {
    set f: int | 0 <= f < bound && d(f) < VERY_LARGE
  }

  /** Those, and the first k of the offers made at base. */
  function Offered(d: int -> real, base: int, offers: seq<int>, k: nat): (pool: set<int>)
    requires k <= |offers|
  {
    if k == 0 then Pool(d, base)
    else
      var f := base + offers[k - 1];
      if d(f) < VERY_LARGE then Offered(d, base, offers, k - 1) + {f} else Offered(d, base, offers, k - 1)
  }

  lemma {:induction false} OfferedIs(d: int -> real, base: nat, offers: seq<int>, k: nat, f: int)
    requires k <= |offers| && forall m :: 0 <= m < k ==> 0 <= offers[m]
    ensures f in Offered(d, base, offers, k) <==>
      d(f) < VERY_LARGE && (0 <= f < base || exists m :: 0 <= m < k && f == base + offers[m])
  {
    if k > 0 {
      OfferedIs(d, base, offers, k - 1, f);
    }
  }

  /** Costs at base are the survivor's distances plus a constant. */
  ghost predicate ShiftedCosts(d: int -> real, base: int, dj: int -> real, extra: real, M: int) {
    forall c :: 0 <= c < M ==> d(base + c) == dj(c) + extra
  }

  /** An offer comes after everything equal that was taken before. */
  lemma OfferIsLater(d: int -> real, base: nat, dj: int -> real, extra: real, M: nat, n: nat, offers: seq<int>, k: nat)
    requires FirstOf(dj, Below(M), n, offers) && ShiftedCosts(d, base, dj, extra, M) && k < |offers|
    ensures var f := base + offers[k];
      f !in Offered(d, base, offers, k) && LaterThanEquals(d, Offered(d, base, offers, k), f)
  {
    hide FirstOf, ShiftedCosts, Offered;
    var f := base + offers[k];
    OffersInOrder(dj, M, n, offers);
    OfferedIs(d, base, offers, k, f);
    CostAt(d, base, dj, extra, M, offers[k]);
    forall b | b in Offered(d, base, offers, k) && d(b) == d(f)
      ensures b < f
    {
      OfferedIs(d, base, offers, k, b);
      if b >= base {
        var m :| 0 <= m < k && b == base + offers[m];
        CostAt(d, base, dj, extra, M, offers[m]);
      }
    }
  }

  lemma OffersInOrder(dj: int -> real, M: nat, n: nat, offers: seq<int>)
    requires FirstOf(dj, Below(M), n, offers)
    ensures forall m :: 0 <= m < |offers| ==> 0 <= offers[m] < M
    ensures forall l, m :: 0 <= l < m < |offers| ==> Precedes(dj, offers[l], offers[m]) && offers[l] != offers[m]
  {}

  lemma CostAt(d: int -> real, base: int, dj: int -> real, extra: real, M: int, c: int)
    requires ShiftedCosts(d, base, dj, extra, M) && 0 <= c < M
    ensures d(base + c) == dj(c) + extra
  {}

  /** The codewords of a survivor that were not offered would not have been kept. */
  lemma RestNotKept(d: int -> real, base: nat, dj: int -> real, extra: real, M: nat, n: nat, offers: seq<int>,
                    kept: seq<int>)
    requires FirstOf(dj, Below(M), n, offers) && ShiftedCosts(d, base, dj, extra, M)
    requires FirstOf(d, Offered(d, base, offers, |offers|), n, kept)
    ensures FirstOf(d, Pool(d, base + M), n, kept)
  {
    var some, all := Offered(d, base, offers, |offers|), Pool(d, base + M);
    forall f | f in some
      ensures f in all
    {
      OfferedIs(d, base, offers, |offers|, f);
    }
    forall f | f in all && f !in some
      ensures |kept| == n && f !in kept && forall m :: 0 <= m < |kept| ==> Precedes(d, kept[m], f)
    {
      RestComesAfter(d, base, dj, extra, M, n, offers, kept, f);
    }
    SubsetSize(some, all);
    if |some| < |all| {
      assert exists f :: f in all && f !in some by {
        if forall f :: f in all ==> f in some {
          SubsetSize(all, some);
        }
      }
    }
  }

  /** Each of them comes after the whole list. */
  lemma RestComesAfter(d: int -> real, base: nat, dj: int -> real, extra: real, M: nat, n: nat, offers: seq<int>,
                       kept: seq<int>, f: int)
    requires FirstOf(dj, Below(M), n, offers) && ShiftedCosts(d, base, dj, extra, M)
    requires FirstOf(d, Offered(d, base, offers, |offers|), n, kept)
    requires f in Pool(d, base + M) && f !in Offered(d, base, offers, |offers|)
    ensures |kept| == n && f !in kept && forall m :: 0 <= m < |kept| ==> Precedes(d, kept[m], f)
  {
    var some := Offered(d, base, offers, |offers|);
    var mine := Shift(offers, base);
    KeptInPool(d, some, n, kept, f);
    OffersComeFirst(d, base, dj, extra, M, n, offers, f);
    DistinctShift(dj, Below(M), n, offers, base);
    hide FirstOf, Precedes;
    forall k | 0 <= k < |kept|
      ensures Precedes(d, kept[k], f)
    {
      TooMany(d, some, n, kept, mine, f, k);
    }
    EnoughKept(d, some, n, kept, mine);
  }

  lemma KeptInPool(d: int -> real, pool: set<int>, n: nat, kept: seq<int>, f: int)
    requires FirstOf(d, pool, n, kept) && f !in pool
    ensures f !in kept
  {}

  lemma OffersComeFirst(d: int -> real, base: nat, dj: int -> real, extra: real, M: nat, n: nat, offers: seq<int>,
                        f: int)
    requires FirstOf(dj, Below(M), n, offers) && ShiftedCosts(d, base, dj, extra, M)
    requires f in Pool(d, base + M) && f !in Offered(d, base, offers, |offers|)
    ensures |offers| == n
    ensures forall m :: 0 <= m < n ==>
      Shift(offers, base)[m] in Offered(d, base, offers, |offers|) && Precedes(d, Shift(offers, base)[m], f)
  {
    hide ShiftedCosts, Offered, Below;
    OffersInOrder(dj, M, n, offers);
    OfferedIs(d, base, offers, |offers|, f);
    var c := f - base;
    assert c in Below(M);
    assert forall m :: 0 <= m < |offers| ==> f != base + offers[m];
    NoneLeftOut(dj, Below(M), n, offers, c);
    forall m | 0 <= m < n
      ensures Shift(offers, base)[m] in Offered(d, base, offers, |offers|) && Precedes(d, Shift(offers, base)[m], f)
    {
      assert Precedes(dj, offers[m], c);
      CostAt(d, base, dj, extra, M, offers[m]);
      CostAt(d, base, dj, extra, M, c);
      OfferedIs(d, base, offers, |offers|, base + offers[m]);
    }
  }

  function Shift(s: seq<int>, base: int): (r: seq<int>)
    ensures |r| == |s| && forall m :: 0 <= m < |s| ==> r[m] == base + s[m]
  {
    seq(|s|, m requires 0 <= m < |s| => base + s[m])
  }

  lemma DistinctShift(d: int -> real, pool: set<int>, n: nat, s: seq<int>, base: int)
    requires FirstOf(d, pool, n, s)
    ensures forall k, l :: 0 <= k < l < |s| ==> Shift(s, base)[k] != Shift(s, base)[l]
  {
    forall k, l | 0 <= k < l < |s|
      ensures Shift(s, base)[k] != Shift(s, base)[l]
    {
      assert Precedes(d, s[k], s[l]);
    }
  }

  lemma EnoughKept(d: int -> real, pool: set<int>, n: nat, kept: seq<int>, mine: seq<int>)
    requires FirstOf(d, pool, n, kept) && |mine| == n && forall m :: 0 <= m < n ==> mine[m] in pool
    requires forall k, l :: 0 <= k < l < n ==> mine[k] != mine[l]
    ensures |kept| == n
  {
    DistinctCount(mine);
    SubsetSize(Elements(mine), pool);
  }

  /** Every entry of the list comes before f, because n others already do. */
  lemma TooMany(d: int -> real, pool: set<int>, n: nat, kept: seq<int>, mine: seq<int>, f: int, k: nat)
    requires FirstOf(d, pool, n, kept) && |mine| == n && k < |kept|
    requires forall m :: 0 <= m < n ==> mine[m] in pool && Precedes(d, mine[m], f)
    requires forall k, l :: 0 <= k < l < n ==> mine[k] != mine[l]
    ensures Precedes(d, kept[k], f)
  {
    DistinctCount(mine);
    DistinctKept(d, pool, n, kept);
    DistinctCount(kept[..k]);
    var x := Outside(Elements(mine), Elements(kept[..k]));
    var m :| 0 <= m < n && mine[m] == x;
    if x in kept {
      var l :| 0 <= l < |kept| && kept[l] == x;
      assert forall i :: 0 <= i < k ==> kept[..k][i] == kept[i];
    }
  }

  lemma Outside(a: set<int>, b: set<int>) returns (x: int)
    requires |a| > |b|
    ensures x in a && x !in b
  {
    assert exists x :: x in a && x !in b by {
      if forall x :: x in a ==> x in b {
        SubsetSize(a, b);
      }
    }
    x :| x in a && x !in b;
  }

  lemma DistinctKept(d: int -> real, pool: set<int>, n: nat, kept: seq<int>)
    requires FirstOf(d, pool, n, kept)
    ensures forall k, l :: 0 <= k < l < |kept| ==> kept[k] != kept[l]
  {
    forall k, l | 0 <= k < l < |kept|
      ensures kept[k] != kept[l]
    {
      assert Precedes(d, kept[k], kept[l]);
    }
  }

  // ----- a survivor's pass -----

  predicate Far(d: int -> real, base: int, M: int) {
    forall f :: base <= f < base + M ==> d(f) >= VERY_LARGE
  }

  /** Either a survivor's costs are its distances plus a constant, or it is a filler and all of them are out of
      reach. */
  ghost predicate PassCosts(d: int -> real, base: int, dj: int -> real, extra: real, M: int) {
    ShiftedCosts(d, base, dj, extra, M) || Far(d, base, M)
  }

  /** An offer below the initial distance is a new candidate, later than its equals. */
  ghost predicate GoodOffer(d: int -> real, base: int, offers: seq<int>, k: nat)
    requires k < |offers|
  {
    var f := base + offers[k];
    d(f) < VERY_LARGE ==> f !in Offered(d, base, offers, k) && LaterThanEquals(d, Offered(d, base, offers, k), f)
  }

  lemma PassOffer(d: int -> real, base: nat, dj: int -> real, extra: real, M: nat, n: nat, offers: seq<int>, k: nat)
    requires FirstOf(dj, Below(M), n, offers) && PassCosts(d, base, dj, extra, M) && k < |offers|
    ensures GoodOffer(d, base, offers, k)
  {
    OffersInOrder(dj, M, n, offers);
    hide FirstOf, Offered, ShiftedCosts, Below;
    if ShiftedCosts(d, base, dj, extra, M) {
      OfferIsLater(d, base, dj, extra, M, n, offers, k);
    }
  }

  lemma PassDone(d: int -> real, base: nat, dj: int -> real, extra: real, M: nat, n: nat, offers: seq<int>,
                 kept: seq<int>)
    requires FirstOf(dj, Below(M), n, offers) && PassCosts(d, base, dj, extra, M)
    requires FirstOf(d, Offered(d, base, offers, |offers|), n, kept)
    ensures FirstOf(d, Pool(d, base + M), n, kept)
  {
    hide FirstOf, ShiftedCosts, Below;
    if ShiftedCosts(d, base, dj, extra, M) {
      RestNotKept(d, base, dj, extra, M, n, offers, kept);
    } else {
      OffersInOrder(dj, M, n, offers);
      NothingFar(d, base, M, offers, |offers|);
      assert Pool(d, base + M) == Pool(d, base);
    }
  }

  lemma {:induction false} NothingFar(d: int -> real, base: int, M: int, offers: seq<int>, k: nat)
    requires Far(d, base, M) && k <= |offers| && forall m :: 0 <= m < |offers| ==> 0 <= offers[m] < M
    ensures Offered(d, base, offers, k) == Pool(d, base)
  {
    if k > 0 {
      NothingFar(d, base, M, offers, k - 1);
    }
  }
}
