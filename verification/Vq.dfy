/** vq.c: the n best codewords, float build. */
module VectorQuantizer {
  import opened Remainders
  import opened Signals

  // ----- the order -----

  /** Smaller distance first, earlier candidate first among equals. */
  predicate Precedes(d: int -> real, a: int, b: int) {
    d(a) < d(b) || (d(a) == d(b) && a < b)
  }

  /** best lists the first n of the candidates in pool, in order. */
  ghost predicate FirstOf(d: int -> real, pool: set<int>, n: nat, best: seq<int>) {
    && |best| == (if n < |pool| then n else |pool|)
    && (forall k :: 0 <= k < |best| ==> best[k] in pool)
    && (forall k, l :: 0 <= k < l < |best| ==> Precedes(d, best[k], best[l]))
    && (forall c, k :: c in pool && c !in best && 0 <= k < |best| ==> Precedes(d, best[k], c))
  }

  /** Where a newcomer goes: after everything not greater. */
  ghost predicate SlotOf(d: int -> real, best: seq<int>, c: int, k: nat) {
    && k <= |best|
    && (forall m :: 0 <= m < k ==> d(best[m]) <= d(c))
    && (forall m :: k <= m < |best| ==> d(c) < d(best[m]))
  }

  predicate LaterThanEquals(d: int -> real, pool: set<int>, c: int) {
    forall b :: b in pool && d(b) == d(c) ==> b < c
  }

  function Inserted(best: seq<int>, n: nat, c: int, k: nat): (r: seq<int>)
    requires k <= |best|
  {
    var r := best[..k] + [c] + best[k..];
    if |r| <= n then r else r[..n]
  }

  lemma InsertKeepsOrder(d: int -> real, best: seq<int>, n: nat, c: int, k: nat)
    requires SlotOf(d, best, c, k) && (forall b :: b in best && d(b) == d(c) ==> b < c)
    requires forall i, l :: 0 <= i < l < |best| ==> Precedes(d, best[i], best[l])
    ensures var r := Inserted(best, n, c, k);
      forall i, l :: 0 <= i < l < |r| ==> Precedes(d, r[i], r[l])
  {
    var r := best[..k] + [c] + best[k..];
    forall i, l | 0 <= i < l < |r|
      ensures Precedes(d, r[i], r[l])
    {
      assert i < k ==> r[i] == best[i] && best[i] in best;
      assert i > k ==> r[i] == best[i - 1];
      assert l < k ==> r[l] == best[l];
      assert l > k ==> r[l] == best[l - 1];
    }
  }

  lemma InsertedContents(best: seq<int>, n: nat, c: int, k: nat, x: int)
    requires k <= |best| <= n && k < n
    ensures var r := Inserted(best, n, c, k);
      && c in r
      && (x in r ==> x == c || x in best)
      && (x in best && x !in r ==> |best| == n && k < n && x == best[n - 1])
  {
    var r := Inserted(best, n, c, k);
    assert r[k] == c;
    if x in best {
      var m :| 0 <= m < |best| && best[m] == x;
      var at := if m < k then m else m + 1;
      assert at < |r| ==> r[at] == x;
    }
  }

  /** As many distinct candidates as the pool holds leave none out. */
  lemma NoneLeftOut(d: int -> real, pool: set<int>, n: nat, best: seq<int>, x: int)
    requires FirstOf(d, pool, n, best) && x in pool && x !in best
    ensures |best| == n
  {
    if |best| < n {
      var kept := Elements(best);
      DistinctCount(best);
      SubsetSize(kept, pool);
    }
  }

  function Elements(s: seq<int>): (e: set<int>)
    ensures forall x :: x in e <==> x in s
  {
    set x | x in s
  }

  lemma {:induction false} DistinctCount(s: seq<int>)
    requires forall k, l :: 0 <= k < l < |s| ==> s[k] != s[l]
    ensures |Elements(s)| == |s|
  {
    if s != [] {
      var t := s[..|s| - 1];
      DistinctCount(t);
      assert Elements(s) == Elements(t) + {s[|s| - 1]};
    }
  }

  lemma SubsetSize(a: set<int>, b: set<int>)
    requires a <= b
    ensures |a| <= |b|
    ensures |a| == |b| ==> a == b
  {
    assert b == a + (b - a);
  }

  /** There is only one such list: the start of the stable sort of the pool. */
  lemma FirstOfUnique(d: int -> real, pool: set<int>, n: nat, a: seq<int>, b: seq<int>)
    requires FirstOf(d, pool, n, a) && FirstOf(d, pool, n, b)
    ensures a == b
  {
    AgreeUpTo(d, pool, n, a, b, |a|);
  }

  lemma {:induction false} AgreeUpTo(d: int -> real, pool: set<int>, n: nat, a: seq<int>, b: seq<int>, k: nat)
    requires FirstOf(d, pool, n, a) && FirstOf(d, pool, n, b) && k <= |a|
    ensures a[..k] == b[..k]
  {
    if k > 0 {
      AgreeUpTo(d, pool, n, a, b, k - 1);
      NotAhead(d, pool, n, a, b, k - 1);
      NotAhead(d, pool, n, b, a, k - 1);
    }
  }

  lemma NotAhead(d: int -> real, pool: set<int>, n: nat, a: seq<int>, b: seq<int>, k: nat)
    requires FirstOf(d, pool, n, a) && FirstOf(d, pool, n, b) && k < |a| && a[..k] == b[..k]
    ensures a[k] == b[k] || Precedes(d, b[k], a[k])
  {
    if a[k] in b {
      var l :| 0 <= l < |b| && b[l] == a[k];
      assert forall m :: 0 <= m < k ==> a[..k][m] == b[m];
    }
  }

  /** Inserting a newcomer keeps the list the first n of the larger pool. */
  lemma InsertKeepsFirst(d: int -> real, pool: set<int>, n: nat, best: seq<int>, c: int, k: nat)
    requires FirstOf(d, pool, n, best) && c !in pool && LaterThanEquals(d, pool, c)
    requires SlotOf(d, best, c, k) && k < n
    ensures FirstOf(d, pool + {c}, n, Inserted(best, n, c, k))
  {
    var r := Inserted(best, n, c, k);
    InsertKeepsOrder(d, best, n, c, k);
    assert |pool + {c}| == |pool| + 1;
    forall m | 0 <= m < |r|
      ensures r[m] in pool + {c}
    {
      InsertedContents(best, n, c, k, r[m]);
    }
    forall x, m | x in pool + {c} && x !in r && 0 <= m < |r|
      ensures Precedes(d, r[m], x)
    {
      InsertedContents(best, n, c, k, x);
      InsertedContents(best, n, c, k, r[m]);
      if x !in best {
        NoneLeftOut(d, pool, n, best, x);
      }
      var last := best[n - 1];
      assert d(c) < d(last);
      if x !in best {
        assert Precedes(d, last, x);
        assert r[m] in best ==> exists l :: 0 <= l < n && best[l] == r[m];
      } else {
        if r[m] != c {
          var l :| 0 <= l < n && best[l] == r[m];
          LastDropped(best, n, c, k, m, l);
        }
      }
    }
  }

  /** The one dropped by an overfull insertion is the last. */
  lemma LastDropped(best: seq<int>, n: nat, c: int, k: nat, m: nat, l: nat)
    requires k < n == |best| && m < n && l < n && Inserted(best, n, c, k)[m] == best[l] != c
    requires best[n - 1] !in Inserted(best, n, c, k)
    ensures best[l] != best[n - 1]
  {}

  /** A newcomer that is not better than a full list changes nothing. */
  lemma SkipKeepsFirst(d: int -> real, pool: set<int>, n: nat, best: seq<int>, c: int)
    requires FirstOf(d, pool, n, best) && c !in pool && LaterThanEquals(d, pool, c)
    requires |best| == n > 0 && d(best[n - 1]) <= d(c)
    ensures FirstOf(d, pool + {c}, n, best)
  {
    assert |pool + {c}| == |pool| + 1;
    forall m | 0 <= m < |best|
      ensures Precedes(d, best[m], c)
    {
      assert m < n - 1 ==> Precedes(d, best[m], best[n - 1]);
      assert best[m] in pool;
    }
  }

  // ----- the code -----

  /** t is s with value stored at k and the entries from k to N - 2 moved up by one. */
  ghost predicate Shifted<T>(s: seq<T>, t: seq<T>, N: int, k: int, value: T) {
    && |s| == |t| && 0 <= k < N <= |s| && t[k] == value
    && (forall m :: 0 <= m < k ==> t[m] == s[m])
    && (forall m :: k < m < N ==> t[m] == s[m - 1])
    && (forall m :: N <= m < |s| ==> t[m] == s[m])
  }

  /** The shift and store both searches share; used counts the entries in use. */
  method Insert(nbest: array<int>, bestDist: array<real>, N: int, used: int, dist: real, value: int) returns (k: int)
    requires 1 <= N <= nbest.Length && N <= bestDist.Length && used >= 0
    requires used >= N ==> dist < bestDist[N - 1]
    modifies nbest, bestDist
    ensures Shifted(old(nbest[..]), nbest[..], N, k, value) && Shifted(old(bestDist[..]), bestDist[..], N, k, dist)
    ensures k <= used
    ensures forall m :: k <= m < N && m < used ==> dist < old(bestDist[..])[m]
    ensures k > 0 ==> old(bestDist[..])[k - 1] <= dist
  {
    k := N - 1;
    while k >= 1 && (k > used || dist < bestDist[k - 1])
      invariant 0 <= k < N
      invariant forall m :: 0 <= m < nbest.Length && (m <= k || m >= N) ==> nbest[m] == old(nbest[m])
      invariant forall m :: 0 <= m < bestDist.Length && (m <= k || m >= N) ==> bestDist[m] == old(bestDist[m])
      invariant forall m :: k < m < N ==> nbest[m] == old(nbest[m - 1]) && bestDist[m] == old(bestDist[m - 1])
      invariant forall m :: k <= m < N && m < used ==> dist < old(bestDist[m])
      decreases k
    {
      bestDist[k] := bestDist[k - 1];
      nbest[k] := nbest[k - 1];
      k := k - 1;
    }
    bestDist[k] := dist;
    nbest[k] := value;
  }

  method InnerProduct(x: seq<real>, c: seq<real>, base: nat, len: nat) returns (d: real)
    requires len == |x| && base + len <= |c|
    ensures d == Dot(x, c, base, len)
  {
    hide Product;
    d := 0.0;
    for j := 0 to len
      invariant d == Dot(x, c, base, j)
    {
      d := d + Product(x[j], c[base + j]);
    }
  }

  /** Half the codeword's energy less the correlation: half the squared error, up to a term all codewords share. */
  function Distance(x: seq<real>, c: seq<real>, E: seq<real>, i: int): real
    requires 0 <= i && (i + 1) * |x| <= |c| && i < |E|
  {
    BlockFits(i, |x|);
    0.5 * E[i] - Dot(x, c, i * |x|, |x|)
  }

  function Distances(x: seq<real>, c: seq<real>, E: seq<real>, n: nat): (d: seq<real>)
    requires n * |x| <= |c| && n <= |E|
    ensures |d| == n
  {
    seq(n, i requires 0 <= i < n => (BlockBound(i, n, |x|); Distance(x, c, E, i)))
  }

  function At(d: seq<real>): int -> real {
    i => if 0 <= i < |d| then d[i] else 0.0
  }

  function Below(n: nat): (pool: set<int>)
    ensures |pool| == n && forall i :: i in pool <==> 0 <= i < n
  {
    if n == 0 then {} else Below(n - 1) + {n - 1}
  }

  /** The entries are the codewords of best, coded by code, with their distances. */
  ghost predicate Holds(best: seq<int>, d: seq<real>, code: int -> int, nbest: seq<int>, dist: seq<real>) {
    && |best| <= |nbest| && |best| <= |dist|
    && forall k :: 0 <= k < |best| ==> nbest[k] == code(best[k]) && dist[k] == At(d)(best[k])
  }

  lemma HeldValues(best: seq<int>, d: seq<real>, code: int -> int, nbest: seq<int>, dist: seq<real>)
    requires Holds(best, d, code, nbest, dist) && forall k :: 0 <= k < |best| ==> 0 <= best[k] < |d|
    ensures |best| <= |nbest| && |best| <= |dist|
    ensures forall k :: 0 <= k < |best| ==> nbest[k] == code(best[k]) && dist[k] == d[best[k]]
  {}

  lemma HoldsInserted(best: seq<int>, d: seq<real>, code: int -> int, nbest: seq<int>, dist: seq<real>,
                      nbest': seq<int>, dist': seq<real>, N: nat, c: int, k: nat)
    requires Holds(best, d, code, nbest, dist) && k <= |best| <= N
    requires Shifted(nbest, nbest', N, k, code(c)) && Shifted(dist, dist', N, k, At(d)(c))
    ensures Holds(Inserted(best, N, c, k), d, code, nbest', dist')
  {
    var r := Inserted(best, N, c, k);
    forall m | 0 <= m < |r|
      ensures nbest'[m] == code(r[m]) && dist'[m] == At(d)(r[m])
    {
      assert r[m] == if m < k then best[m] else if m == k then c else best[m - 1];
    }
  }

  /** The list after the shift is again the first N. */
  lemma InsertedIsFirst(best: seq<int>, d: seq<real>, code: int -> int, nbest: seq<int>, dist: seq<real>,
                        nbest': seq<int>, dist': seq<real>, N: nat, i: nat, k: nat)
    requires i < |d| && FirstOf(At(d), Below(i), N, best) && Holds(best, d, code, nbest, dist)
    requires Shifted(nbest, nbest', N, k, code(i)) && Shifted(dist, dist', N, k, At(d)(i))
    requires k <= |best| && (k > 0 ==> dist[k - 1] <= d[i]) && forall m :: k <= m < |best| ==> d[i] < dist[m]
    ensures FirstOf(At(d), Below(i + 1), N, Inserted(best, N, i, k))
    ensures Holds(Inserted(best, N, i, k), d, code, nbest', dist')
  {
    hide FirstOf;
    SlotFound(At(d), Below(i), N, best, i, k, dist);
    InsertKeepsFirst(At(d), Below(i), N, best, i, k);
    FirstOfSize(At(d), i, N, best);
    HoldsInserted(best, d, code, nbest, dist, nbest', dist', N, i, k);
  }

  /** One codeword is compared with the list so far. */
  method Consider(nbest: array<int>, bestDist: array<real>, N: int, used: int, i: int, dist: real, value: int,
                  ghost d: seq<real>, ghost code: int -> int, ghost best: seq<int>)
    returns (used': int, ghost best': seq<int>)
    requires 1 <= N <= nbest.Length && N <= bestDist.Length && 0 <= i < |d|
    requires if i < N then used == i else used >= N
    requires dist == d[i] && value == code(i)
    requires FirstOf(At(d), Below(i), N, best) && Holds(best, d, code, nbest[..], bestDist[..])
    modifies nbest, bestDist
    ensures if i + 1 < N then used' == i + 1 else used' >= N
    ensures FirstOf(At(d), Below(i + 1), N, best') && Holds(best', d, code, nbest[..], bestDist[..])
    ensures nbest[N..] == old(nbest[N..]) && bestDist[N..] == old(bestDist[N..])
  {
    hide FirstOf, Inserted, Below;
    FirstOfSize(At(d), i, N, best);
    used' := used;
    if i < N || dist < bestDist[N - 1] {
      ghost var nb, bd := nbest[..], bestDist[..];
      var k := Insert(nbest, bestDist, N, used, dist, value);
      used' := used + 1;
      best' := Inserted(best, N, i, k);
      hide Holds;
      InsertedIsFirst(best, d, code, nb, bd, nbest[..], bestDist[..], N, i, k);
    } else {
      best' := best;
      SkipKeepsFirst(At(d), Below(i), N, best, i);
      BelowNext(i);
    }
  }

  lemma BelowNext(n: nat)
    ensures Below(n + 1) == Below(n) + {n}
  {}

  lemma FirstOfSize(d: int -> real, i: nat, n: nat, best: seq<int>)
    requires FirstOf(d, Below(i), n, best)
    ensures |best| == if n < i then n else i
  {}

  lemma SlotFound(d: int -> real, pool: set<int>, n: nat, best: seq<int>, c: int, k: nat, dist: seq<real>)
    requires FirstOf(d, pool, n, best) && k <= |best| <= |dist|
    requires forall m :: 0 <= m < |best| ==> dist[m] == d(best[m])
    requires forall m :: k <= m < |best| ==> d(c) < dist[m]
    requires k > 0 ==> dist[k - 1] <= d(c)
    ensures SlotOf(d, best, c, k)
  {
    forall m | 0 <= m < k
      ensures d(best[m]) <= d(c)
    {
      assert m < k - 1 ==> Precedes(d, best[m], best[k - 1]);
    }
  }

  /** The first n entries of the stable sort of all codewords by distance (only as many as there are, if fewer). */
  method VqNbest(x: seq<real>, codebook: seq<real>, len: nat, entries: nat, E: seq<real>, N: int,
                 nbest: array<int>, bestDist: array<real>) returns (ghost best: seq<int>)
    requires len == |x| && entries * len <= |codebook| && entries <= |E|
    requires 1 <= N <= nbest.Length && N <= bestDist.Length
    modifies nbest, bestDist
    ensures FirstOf(At(Distances(x, codebook, E, entries)), Below(entries), N, best)
    ensures Holds(best, Distances(x, codebook, E, entries), c => c, nbest[..], bestDist[..])
    ensures nbest[N..] == old(nbest[N..]) && bestDist[N..] == old(bestDist[N..])
  {
    hide FirstOf, Below, Product, Holds;
    ghost var d := Distances(x, codebook, E, entries);
    ghost var code := (c: int) => c;
    var used := 0;
    best := [];
    NothingYet(d, code, N, nbest[..], bestDist[..]);
    for i := 0 to entries
      invariant if i < N then used == i else used >= N
      invariant FirstOf(At(d), Below(i), N, best) && Holds(best, d, code, nbest[..], bestDist[..])
      invariant nbest[N..] == old(nbest[N..]) && bestDist[N..] == old(bestDist[N..])
    {
      BlockBound(i, entries, len);
      BlockFits(i, len);
      var p := InnerProduct(x, codebook, i * len, len);
      var dist := 0.5 * E[i] - p;
      used, best := Consider(nbest, bestDist, N, used, i, dist, i, d, code, best);
    }
  }

  lemma NothingYet(d: seq<real>, code: int -> int, n: nat, nbest: seq<int>, dist: seq<real>)
    ensures FirstOf(At(d), Below(0), n, []) && Holds([], d, code, nbest, dist)
  {}

  function Abs(x: real): real { if x > 0.0 then x else -x }

  /** Half the codeword's energy less the size of the correlation: the better of the two signs. */
  function SignedDistance(x: seq<real>, c: seq<real>, E: seq<real>, i: int): real
    requires 0 <= i && (i + 1) * |x| <= |c| && i < |E|
  {
    BlockFits(i, |x|);
    0.5 * E[i] - Abs(Dot(x, c, i * |x|, |x|))
  }

  function SignedDistances(x: seq<real>, c: seq<real>, E: seq<real>, n: nat): (d: seq<real>)
    requires n * |x| <= |c| && n <= |E|
    ensures |d| == n
  {
    seq(n, i requires 0 <= i < n => (BlockBound(i, n, |x|); SignedDistance(x, c, E, i)))
  }

  /** A codeword and its better sign: entries is added for minus. */
  function SignCode(x: seq<real>, c: seq<real>, entries: nat): int -> int
    requires entries * |x| <= |c|
  {
    i =>
      if 0 <= i < entries then
        BlockBound(i, entries, |x|);
        BlockFits(i, |x|);
        if Dot(x, c, i * |x|, |x|) > 0.0 then i else i + entries
      else i
  }

  /** The same with a free sign for every codeword. */
  method VqNbestSign(x: seq<real>, codebook: seq<real>, len: nat, entries: nat, E: seq<real>, N: int,
                     nbest: array<int>, bestDist: array<real>) returns (ghost best: seq<int>)
    requires len == |x| && entries * len <= |codebook| && entries <= |E|
    requires 1 <= N <= nbest.Length && N <= bestDist.Length
    modifies nbest, bestDist
    ensures FirstOf(At(SignedDistances(x, codebook, E, entries)), Below(entries), N, best)
    ensures Holds(best, SignedDistances(x, codebook, E, entries), SignCode(x, codebook, entries), nbest[..],
        bestDist[..])
    ensures nbest[N..] == old(nbest[N..]) && bestDist[N..] == old(bestDist[N..])
  {
    hide FirstOf, Below, Product, Holds;
    ghost var d := SignedDistances(x, codebook, E, entries);
    ghost var code := SignCode(x, codebook, entries);
    var used := 0;
    best := [];
    NothingYet(d, code, N, nbest[..], bestDist[..]);
    for i := 0 to entries
      invariant if i < N then used == i else used >= N
      invariant FirstOf(At(d), Below(i), N, best) && Holds(best, d, code, nbest[..], bestDist[..])
      invariant nbest[N..] == old(nbest[N..]) && bestDist[N..] == old(bestDist[N..])
    {
      BlockBound(i, entries, len);
      BlockFits(i, len);
      var dist := InnerProduct(x, codebook, i * len, len);
      var sign;
      if dist > 0.0 {
        sign := 0;
        dist := -dist;
      } else {
        sign := 1;
      }
      dist := dist + 0.5 * E[i];
      used, best := Consider(nbest, bestDist, N, used, i, dist, if sign == 1 then i + entries else i, d, code, best);
    }
  }
}
