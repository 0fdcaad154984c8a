/** Open-loop pitch search of ltp.c, float build: the lags with the best prediction gain. */
module PitchSearch {
  import opened Signals
  import opened VectorQuantizer

  /** The sum of x[a + t] * y[b + t] over t < n. */
  function Correlate(x: seq<real>, a: nat, y: seq<real>, b: nat, n: nat): real
    requires a + n <= |x| && b + n <= |y|
  {
    if n == 0 then 0.0 else Correlate(x, a, y, b, n - 1) + Product(x[a + n - 1], y[b + n - 1])
  }

  function Square(x: real): (q: real)
    ensures q >= 0.0
  {
    Product(x, x)
  }

  lemma {:induction false} EnergyNotNegative(s: seq<real>, a: nat, n: nat)
    requires a + n <= |s|
    ensures Correlate(s, a, s, a, n) >= 0.0
  {
    if n > 0 {
      EnergyNotNegative(s, a, n - 1);
      assert Square(s[a + n - 1]) >= 0.0;
    }
  }

  /** Moving the window back by one takes a sample in at the front and leaves one out at the back. */
  lemma {:induction false} WindowSlides(s: seq<real>, a: nat, n: nat)
    requires a + 1 + n <= |s|
    ensures Correlate(s, a, s, a, n) == Correlate(s, a + 1, s, a + 1, n) + Square(s[a]) - Square(s[a + n])
  {
    hide Product;
    if n > 0 {
      WindowSlides(s, a, n - 1);
    }
  }

  /** The search's input: the signal's sample 0 is s[origin], and the lags start to end reach back from it. */
  datatype Search = Search(s: seq<real>, origin: nat, start: nat, end: nat, len: nat) {
    ghost predicate Valid() {
      start <= end <= origin && origin + len <= |s|
    }

    function Lags(): nat
      requires start <= end
    {
      end - start + 1
    }

    /** What inner_prod sees of the window: it works in blocks of four. */
    function Whole(): (n: nat)
      ensures n <= len
    {
      len / 4 * 4
    }

    /** The energy of the signal delayed by the lag with the given index. */
    function Energy(k: nat): real
      requires Valid() && k < Lags()
    {
      Correlate(s, origin - start - k, s, origin - start - k, len)
    }

    function Correlation(k: nat, n: nat): real
      requires Valid() && k < Lags() && n <= len
    {
      Correlate(s, origin, s, origin - start - k, n)
    }

    /** The energies as the code slides them from lag to lag, clamped at zero. */
    function Slid(k: nat): (e: real)
      requires Valid() && k < Lags()
    {
      if k == 0 then Correlate(s, origin - start, s, origin - start, Whole())
      else
        var e := Slid(k - 1) + Square(s[origin - start - k]) - Square(s[origin - start - k + len]);
        if e < 0.0 then 0.0 else e
    }

    function Correlations(): (c: seq<real>)
      requires Valid()
      ensures |c| == Lags()
    {
      seq(Lags(), k requires 0 <= k < Lags() => Correlation(k, Whole()))
    }

    function Energies(): (e: seq<real>)
      requires Valid()
      ensures |e| == Lags()
    {
      seq(Lags(), k requires 0 <= k < Lags() => Slid(k))
    }
  }

  lemma {:induction false} SlidNotNegative(p: Search, k: nat)
    requires p.Valid() && k < p.Lags()
    ensures p.Slid(k) >= 0.0
  {
    if k == 0 {
      EnergyNotNegative(p.s, p.origin - p.start, p.Whole());
    }
  }

  /** For a length in whole blocks every energy is that of its own window, computed directly: the clamp never acts. */
  lemma {:induction false} SlidIsEnergy(p: Search, k: nat)
    requires p.Valid() && k < p.Lags() && p.len % 4 == 0
    ensures p.Slid(k) == p.Energy(k) && p.Correlation(k, p.Whole()) == p.Correlation(k, p.len)
    ensures k > 0 ==>
      p.Slid(k - 1) + Square(p.s[p.origin - p.start - k]) - Square(p.s[p.origin - p.start - k + p.len]) >= 0.0
  {
    hide Correlate, Square;
    assert p.Whole() == p.len;
    if k > 0 {
      SlidIsEnergy(p, k - 1);
      WindowSlides(p.s, p.origin - p.start - k, p.len);
      EnergyNotNegative(p.s, p.origin - p.start - k, p.len);
    }
  }

  /** For any other length the last samples are left out: a constant signal already shows it. */
  lemma BlocksOnly(len: nat)
    ensures len % 4 == 0 <==>
      forall p: Search :: p.Valid() && p.len == len ==> p.Slid(0) == p.Energy(0)
  {
    if len % 4 == 0 {
      forall p: Search | p.Valid() && p.len == len
        ensures p.Slid(0) == p.Energy(0)
      {
        SlidIsEnergy(p, 0);
      }
    } else {
      var p := Search(seq(len, _ => 1.0), 0, 0, 0, len);
      OnesCorrelate(p.s, p.Whole());
      OnesCorrelate(p.s, len);
      assert p.Valid() && p.Slid(0) != p.Energy(0);
    }
  }

  lemma {:induction false} OnesCorrelate(s: seq<real>, n: nat)
    requires n <= |s| && forall i :: 0 <= i < |s| ==> s[i] == 1.0
    ensures Correlate(s, 0, s, 0, n) == n as real
  {
    if n > 0 {
      OnesCorrelate(s, n - 1);
    }
  }

  // ----- the order -----

  /** For a length in whole blocks lags are ordered by the gain of their own windows. */
  lemma LossIsDirect(p: Search, k: nat)
    requires p.Valid() && k < p.Lags() && p.len % 4 == 0
    ensures Loss(p.Correlations(), p.Energies())(k) == -Ratio(Square(p.Correlation(k, p.len)), p.Energy(k) + 1.0)
  {
    SlidIsEnergy(p, k);
    hide Correlate, Square, Ratio;
  }

  /** Lag a predicts the len samples from s[origin] better than lag b, or as well and is shorter: squared correlation
      with the window a samples back over the energy of that window plus one, compared by products. */
  predicate Ahead(s: seq<real>, origin: nat, len: nat, a: nat, b: nat)
    requires a <= origin && b <= origin && origin + len <= |s|
  {
    var c, e := Correlate(s, origin, s, origin - a, len), Correlate(s, origin - a, s, origin - a, len);
    var d, f := Correlate(s, origin, s, origin - b, len), Correlate(s, origin - b, s, origin - b, len);
    var x, y := Product(Product(c, c), f + 1.0), Product(Product(d, d), e + 1.0);
    x > y || (x == y && a < b)
  }

  /** For a length in whole blocks the order of the indices is that of the lags. */
  lemma OrderOfLags(p: Search, i: nat, j: nat)
    requires p.Valid() && i < p.Lags() && j < p.Lags() && p.len % 4 == 0
    ensures Precedes(Loss(p.Correlations(), p.Energies()), i, j)
      <==> Ahead(p.s, p.origin, p.len, p.start + i, p.start + j)
  {
    LossIsDirect(p, i);
    LossIsDirect(p, j);
    EnergyNotNegative(p.s, p.origin - p.start - i, p.len);
    EnergyNotNegative(p.s, p.origin - p.start - j, p.len);
    hide Correlate, Ratio, Product, Loss;
    var x, y := Square(p.Correlation(i, p.len)), Square(p.Correlation(j, p.len));
    CrossMultiplied(x, p.Energy(i) + 1.0, y, p.Energy(j) + 1.0);
    CrossMultiplied(y, p.Energy(j) + 1.0, x, p.Energy(i) + 1.0);
  }

  /** A signal that repeats itself after T samples correlates with the window T back as with itself. */
  lemma {:induction false} PeriodIsLag(s: seq<real>, origin: nat, len: nat, T: nat)
    requires T <= origin && origin + len <= |s| && forall t :: origin <= t < origin + len ==> s[t] == s[t - T]
    ensures Correlate(s, origin, s, origin - T, len) == Correlate(s, origin, s, origin, len)
    ensures Correlate(s, origin - T, s, origin - T, len) == Correlate(s, origin, s, origin, len)
  {
    hide Product;
    if len > 0 {
      PeriodIsLag(s, origin, len - 1, T);
      assert s[origin + len - 1 - T] == s[origin + len - 1];
    }
  }

  /** Less is better: the gain a lag achieves, negated. */
  function Loss(c: seq<real>, e: seq<real>): int -> real {
    i => if 0 <= i < |c| && i < |e| then -Ratio(Square(c[i]), e[i] + 1.0) else 0.0
  }

  function Ratio(a: real, b: real): real { if b == 0.0 then 0.0 else a / b }

  /** Comparing products replaces comparing quotients. */
  lemma CrossMultiplied(a: real, b: real, c: real, d: real)
    requires b > 0.0 && d > 0.0
    ensures Product(a, d) > Product(c, b) <==> Ratio(a, b) > Ratio(c, d)
  {
    var x, y := a / b, c / d;
    assert a == x * b && c == y * d;
    Scaled(x, y, b, d);
  }

  lemma Scaled(x: real, y: real, b: real, d: real)
    requires b > 0.0 && d > 0.0
    ensures Product(x * b, d) > Product(y * d, b) <==> x > y
  {
    var bd := b * d;
    assert Product(x * b, d) - Product(y * d, b) == (x - y) * bd;
    assert bd > 0.0;
    SignOf(x - y, bd);
  }

  lemma SignOf(x: real, y: real)
    requires y > 0.0
    ensures x * y > 0.0 <==> x > 0.0
  {
    assert x <= 0.0 ==> x * y <= 0.0;
  }

  /** What the three arrays hold: the entries of best, and below them the initial values. */
  ghost predicate Listed(best: seq<int>, c: seq<real>, e: seq<real>, start: int, N: nat, score: seq<real>,
                         ener: seq<real>, pitch: seq<int>)
    requires |c| == |e|
  {
    && |best| <= N <= |score| && N <= |ener| && N <= |pitch|
    && (forall k :: 0 <= k < |best| ==> 0 <= best[k] < |c|)
    && (forall k :: 0 <= k < |best| ==> score[k] == Square(c[best[k]]) && ener[k] == e[best[k]] + 1.0)
    && (forall k :: 0 <= k < |best| ==> pitch[k] == start + best[k])
    && (forall k :: |best| <= k < N ==> score[k] == -1.0 && ener[k] == 0.0 && pitch[k] == start)
  }

  /** The code's test: does a lag with squared correlation tmp and energy e come before the entry? */
  predicate Beats(tmp: real, e: real, score: real, ener: real) { Product(tmp, ener) > Product(score, 1.0 + e) }

  /** It is the order of the losses, and an unused entry is always beaten. */
  lemma BeatsIsOrder(best: seq<int>, c: seq<real>, e: seq<real>, start: int, N: nat, score: seq<real>, ener: seq<real>,
                     pitch: seq<int>, i: nat, j: nat)
    requires |c| == |e| && Listed(best, c, e, start, N, score, ener, pitch) && i < |c| && j < N
    requires forall k :: 0 <= k < |e| ==> e[k] >= 0.0
    ensures Beats(Square(c[i]), e[i], score[j], ener[j]) <==> (j >= |best| || Loss(c, e)(i) < Loss(c, e)(best[j]))
  {
    if j < |best| {
      CrossMultiplied(Square(c[i]), e[i] + 1.0, Square(c[best[j]]), e[best[j]] + 1.0);
      hide Square, Ratio;
    }
  }

  // ----- the code -----

  /** inner_prod */
  method InnerProd(x: seq<real>, a: nat, y: seq<real>, b: nat, len: nat) returns (sum: real)
    requires a + len <= |x| && b + len <= |y|
    ensures sum == Correlate(x, a, y, b, len / 4 * 4)
  {
    hide Product;
    sum := 0.0;
    var i := 0;
    for block := 0 to len / 4
      invariant i == 4 * block && sum == Correlate(x, a, y, b, i)
    {
      var part := Product(x[a + i], y[b + i]);
      part := part + Product(x[a + i + 1], y[b + i + 1]);
      part := part + Product(x[a + i + 2], y[b + i + 2]);
      part := part + Product(x[a + i + 3], y[b + i + 3]);
      FourMore(x, a, y, b, i);
      sum := sum + part;
      i := i + 4;
    }
  }

  lemma FourMore(x: seq<real>, a: nat, y: seq<real>, b: nat, n: nat)
    requires a + n + 4 <= |x| && b + n + 4 <= |y|
    ensures Correlate(x, a, y, b, n + 4) == Correlate(x, a, y, b, n) + (Product(x[a + n], y[b + n])
      + Product(x[a + n + 1], y[b + n + 1]) + Product(x[a + n + 2], y[b + n + 2]) + Product(x[a + n + 3], y[b + n + 3]))
  {
    hide Product;
    assert Correlate(x, a, y, b, n + 2) == Correlate(x, a, y, b, n + 1) + Product(x[a + n + 1], y[b + n + 1]);
    assert Correlate(x, a, y, b, n + 3) == Correlate(x, a, y, b, n + 2) + Product(x[a + n + 2], y[b + n + 2]);
  }

  /** pitch_xcorr: the windows are met from the longest lag to the shortest. */
  method PitchXcorr(p: Search, corr: array<real>)
    requires p.Valid() && p.Lags() <= corr.Length
    modifies corr
    ensures corr[..p.Lags()] == p.Correlations()
  {
    hide Correlate;
    var n := p.end - p.start + 1;
    for i := 0 to n
      invariant forall k :: n - i <= k < n ==> corr[k] == p.Correlation(k, p.Whole())
    {
      corr[n - 1 - i] := InnerProd(p.s, p.origin, p.s, p.origin - p.end + i, p.len);
    }
  }

  /** The energy of every lag from that of the one before. */
  method SlidingEnergy(p: Search, energy: array<real>)
    requires p.Valid() && p.Lags() <= energy.Length
    modifies energy
    ensures energy[..p.Lags()] == p.Energies()
  {
    hide Correlate, Square;
    energy[0] := InnerProd(p.s, p.origin - p.start, p.s, p.origin - p.start, p.len);
    for i := p.start to p.end
      invariant forall k :: 0 <= k <= i - p.start ==> energy[k] == p.Slid(k)
    {
      energy[i - p.start + 1] := energy[i - p.start]
        + Square(p.s[p.origin - i - 1]) - Square(p.s[p.origin - i + p.len - 1]);
      if energy[i - p.start + 1] < 0.0 {
        energy[i - p.start + 1] := 0.0;
      }
    }
  }

  /** t is s with the entries from k to N - 2 moved up by one. */
  ghost predicate Opened<T>(s: seq<T>, t: seq<T>, N: int, k: int) {
    && |s| == |t| && 0 <= k < N <= |s|
    && (forall m :: 0 <= m < |s| && (m <= k || m >= N) ==> t[m] == s[m])
    && (forall m :: k < m < N ==> t[m] == s[m - 1])
  }

  /** Store a lag at place j, the entries from there moving down one place. */
  method ShiftIn(score: array<real>, ener: array<real>, pitch: array<int>, N: int, j: int, tmp: real, e: real, lag: int)
    requires 0 <= j < N <= score.Length && N <= ener.Length && N <= pitch.Length && score != ener
    modifies score, ener, pitch
    ensures Shifted(old(score[..]), score[..], N, j, tmp) && Shifted(old(ener[..]), ener[..], N, j, e)
    ensures Shifted(old(pitch[..]), pitch[..], N, j, lag)
  {
    ghost var sc, en, pi := score[..], ener[..], pitch[..];
    var k := N - 1;
    while k > j
      invariant j <= k < N
      invariant Opened(sc, score[..], N, k) && Opened(en, ener[..], N, k) && Opened(pi, pitch[..], N, k)
    {
      score[k] := score[k - 1];
      ener[k] := ener[k - 1];
      pitch[k] := pitch[k - 1];
      k := k - 1;
    }
    score[j] := tmp;
    ener[j] := e;
    pitch[j] := lag;
  }

  /** The first entry the lag beats. */
  method FirstBeaten(score: array<real>, ener: array<real>, N: int, tmp: real, e: real) returns (j: int)
    requires 1 <= N <= score.Length && N <= ener.Length && Beats(tmp, e, score[N - 1], ener[N - 1])
    ensures 0 <= j < N && Beats(tmp, e, score[j], ener[j])
    ensures forall m :: 0 <= m < j ==> !Beats(tmp, e, score[m], ener[m])
  {
    hide Beats;
    j := 0;
    while j < N - 1 && !Beats(tmp, e, score[j], ener[j])
      invariant 0 <= j < N && forall m :: 0 <= m < j ==> !Beats(tmp, e, score[m], ener[m])
    {
      j := j + 1;
    }
  }

  lemma InsertedIsFirst(c: seq<real>, e: seq<real>, best: seq<int>, N: nat, i: nat, j: nat)
    requires FirstOf(Loss(c, e), Below(i), N, best) && j < N && j <= |best|
    requires forall m :: 0 <= m < j ==> Loss(c, e)(best[m]) <= Loss(c, e)(i)
    requires j < |best| ==> Loss(c, e)(i) < Loss(c, e)(best[j])
    ensures FirstOf(Loss(c, e), Below(i + 1), N, Inserted(best, N, i, j))
  {
    hide Loss;
    var d := Loss(c, e);
    forall m | j <= m < |best|
      ensures d(i) < d(best[m])
    {
      assert m > j ==> Precedes(d, best[j], best[m]);
    }
    hide FirstOf, Inserted;
    InsertKeepsFirst(d, Below(i), N, best, i, j);
    BelowNext(i);
  }

  lemma SkipFirst(c: seq<real>, e: seq<real>, best: seq<int>, N: nat, i: nat)
    requires FirstOf(Loss(c, e), Below(i), N, best) && |best| == N > 0 && Loss(c, e)(best[N - 1]) <= Loss(c, e)(i)
    ensures FirstOf(Loss(c, e), Below(i + 1), N, best)
  {
    hide FirstOf, Loss;
    SkipKeepsFirst(Loss(c, e), Below(i), N, best, i);
    BelowNext(i);
  }

  /** The first entry beaten is the lag's place. */
  lemma PlaceFound(best: seq<int>, c: seq<real>, e: seq<real>, start: int, N: nat, score: seq<real>, ener: seq<real>,
                   pitch: seq<int>, i: nat, j: nat)
    requires |c| == |e| && Listed(best, c, e, start, N, score, ener, pitch) && i < |c| && j < N
    requires (forall k :: 0 <= k < |e| ==> e[k] >= 0.0) && FirstOf(Loss(c, e), Below(i), N, best)
    requires Beats(Square(c[i]), e[i], score[j], ener[j])
    requires forall m :: 0 <= m < j ==> !Beats(Square(c[i]), e[i], score[m], ener[m])
    ensures j <= |best| && FirstOf(Loss(c, e), Below(i + 1), N, Inserted(best, N, i, j))
  {
    hide Beats, Square, Loss, FirstOf, Below, Inserted;
    if |best| < N {
      BeatsIsOrder(best, c, e, start, N, score, ener, pitch, i, |best|);
    }
    BeatsIsOrder(best, c, e, start, N, score, ener, pitch, i, j);
    forall m | 0 <= m < j
      ensures Loss(c, e)(best[m]) <= Loss(c, e)(i)
    {
      BeatsIsOrder(best, c, e, start, N, score, ener, pitch, i, m);
    }
    InsertedIsFirst(c, e, best, N, i, j);
  }

  /** A lag that does not beat the last entry changes nothing. */
  lemma NoPlace(best: seq<int>, c: seq<real>, e: seq<real>, start: int, N: nat, score: seq<real>, ener: seq<real>,
                pitch: seq<int>, i: nat)
    requires |c| == |e| && Listed(best, c, e, start, N, score, ener, pitch) && i < |c| && N > 0
    requires (forall k :: 0 <= k < |e| ==> e[k] >= 0.0) && FirstOf(Loss(c, e), Below(i), N, best)
    requires !Beats(Square(c[i]), e[i], score[N - 1], ener[N - 1])
    ensures FirstOf(Loss(c, e), Below(i + 1), N, best)
  {
    hide Beats, Square, Loss, FirstOf, Below;
    BeatsIsOrder(best, c, e, start, N, score, ener, pitch, i, N - 1);
    SkipFirst(c, e, best, N, i);
  }

  lemma ListedInserted(best: seq<int>, c: seq<real>, e: seq<real>, start: int, N: nat, score: seq<real>,
                       ener: seq<real>, pitch: seq<int>, score': seq<real>, ener': seq<real>, pitch': seq<int>, i: nat,
                       j: nat)
    requires |c| == |e| && Listed(best, c, e, start, N, score, ener, pitch) && i < |c| && j <= |best| && j < N
    requires Shifted(score, score', N, j, Square(c[i])) && Shifted(ener, ener', N, j, e[i] + 1.0)
    requires Shifted(pitch, pitch', N, j, start + i)
    ensures Listed(Inserted(best, N, i, j), c, e, start, N, score', ener', pitch')
  {
    hide Square;
    var r := Inserted(best, N, i, j);
    forall k | 0 <= k < |r|
      ensures r[k] == if k < j then best[k] else if k == j then i else best[k - 1]
    {}
  }

  /** One lag is compared with the list so far. */
  method Consider(score: array<real>, ener: array<real>, pitch: array<int>, N: int, i: nat, start: int, corr: seq<real>,
                  energy: seq<real>, ghost best: seq<int>)
    returns (ghost best': seq<int>)
    requires 1 <= N && |corr| == |energy| && i < |corr| && score != ener
    requires forall k :: 0 <= k < |energy| ==> energy[k] >= 0.0
    requires FirstOf(Loss(corr, energy), Below(i), N, best)
    requires Listed(best, corr, energy, start, N, score[..], ener[..], pitch[..])
    modifies score, ener, pitch
    ensures FirstOf(Loss(corr, energy), Below(i + 1), N, best')
    ensures Listed(best', corr, energy, start, N, score[..], ener[..], pitch[..])
  {
    hide Beats, Square, FirstOf, Below, Loss, Inserted, Shifted;
    ghost var sc, en, pi := score[..], ener[..], pitch[..];
    var tmp := Square(corr[i]);
    if Beats(tmp, energy[i], score[N - 1], ener[N - 1]) {
      var j := FirstBeaten(score, ener, N, tmp, energy[i]);
      PlaceFound(best, corr, energy, start, N, sc, en, pi, i, j);
      ShiftIn(score, ener, pitch, N, j, tmp, energy[i] + 1.0, start + i);
      best' := Inserted(best, N, i, j);
      ListedInserted(best, corr, energy, start, N, sc, en, pi, score[..], ener[..], pitch[..], i, j);
    } else {
      best' := best;
      NoPlace(best, corr, energy, start, N, sc, en, pi, i);
    }
  }

  /** The loop over the lags. */
  method FindBest(p: Search, score: array<real>, ener: array<real>, pitch: array<int>, N: int, corr: seq<real>,
                  energy: seq<real>)
    returns (ghost best: seq<int>)
    requires p.Valid() && 1 <= N && score != ener && corr == p.Correlations() && energy == p.Energies()
    requires Listed([], corr, energy, p.start, N, score[..], ener[..], pitch[..])
    modifies score, ener, pitch
    ensures FirstOf(Loss(corr, energy), Below(p.Lags()), N, best)
    ensures Listed(best, corr, energy, p.start, N, score[..], ener[..], pitch[..])
  {
    hide Beats, Square, FirstOf, Below, Loss, Correlate, Search.Slid;
    forall k | 0 <= k < |energy|
      ensures energy[k] >= 0.0
    {
      SlidNotNegative(p, k);
    }
    best := [];
    NoneYet(corr, energy, N);
    for i := 0 to p.end - p.start + 1
      invariant FirstOf(Loss(corr, energy), Below(i), N, best)
      invariant Listed(best, corr, energy, p.start, N, score[..], ener[..], pitch[..])
    {
      best := Consider(score, ener, pitch, N, i, p.start, corr, energy, best);
    }
  }

  lemma NoneYet(c: seq<real>, e: seq<real>, n: nat)
    ensures FirstOf(Loss(c, e), Below(0), n, [])
  {}

  /** The first n lags in that order. */
  ghost predicate FirstLags(p: Search, n: nat, lags: seq<int>)
    requires p.Valid()
  {
    && |lags| == (if n < p.end - p.start + 1 then n else p.end - p.start + 1)
    && (forall k :: 0 <= k < |lags| ==> p.start <= lags[k] <= p.end)
    && (forall k, l :: 0 <= k < l < |lags| ==> Ahead(p.s, p.origin, p.len, lags[k], lags[l]))
    && (forall lag, k :: p.start <= lag <= p.end && lag !in lags && 0 <= k < |lags| ==>
          Ahead(p.s, p.origin, p.len, lags[k], lag))
  }

  lemma LagsMirror(best: seq<int>, lags: seq<int>, start: int, i: int)
    requires |lags| == |best| && forall k :: 0 <= k < |best| ==> lags[k] == start + best[k]
    ensures i in best ==> start + i in lags
  {
    if i in best {
      var m :| 0 <= m < |best| && best[m] == i;
      assert lags[m] == start + i;
    }
  }

  lemma LagsInOrder(p: Search, n: nat, best: seq<int>, lags: seq<int>)
    requires p.Valid() && p.len % 4 == 0 && FirstOf(Loss(p.Correlations(), p.Energies()), Below(p.Lags()), n, best)
    requires |lags| == |best| && forall k :: 0 <= k < |best| ==> lags[k] == p.start + best[k]
    ensures FirstLags(p, n, lags)
  {
    hide Loss, Ahead, Precedes, Correlate, Search.Slid;
    var d := Loss(p.Correlations(), p.Energies());
    forall k, l | 0 <= k < l < |lags|
      ensures Ahead(p.s, p.origin, p.len, lags[k], lags[l])
    {
      OrderOfLags(p, best[k], best[l]);
    }
    forall lag, k | p.start <= lag <= p.end && lag !in lags && 0 <= k < |lags|
      ensures Ahead(p.s, p.origin, p.len, lags[k], lag)
    {
      LagsMirror(best, lags, p.start, lag - p.start);
      OrderOfLags(p, best[k], lag - p.start);
    }
  }

  /** open_loop_nbest_pitch without the gains: the first N lags of the stable sort of all by squared correlation over
      energy plus one, the best first; entries beyond the number of lags keep the first lag. */
  method OpenLoopNbestPitch(p: Search, N: int, pitch: array<int>) returns (ghost best: seq<int>)
    requires p.Valid() && 1 <= N <= pitch.Length
    modifies pitch
    ensures FirstOf(Loss(p.Correlations(), p.Energies()), Below(p.Lags()), N, best)
    ensures |best| <= N && (forall k :: 0 <= k < |best| ==> pitch[k] == p.start + best[k])
    ensures forall k :: |best| <= k < N ==> pitch[k] == p.start
    ensures p.len % 4 == 0 ==> FirstLags(p, N, pitch[..|best|])
  {
    hide Beats, Square, FirstOf, Below, Loss, Correlate, Search.Slid, FirstLags;
    var n := p.end - p.start + 1;
    var score, ener := new real[N], new real[N];
    var energy, corr := new real[n], new real[n];
    for i := 0 to N
      invariant forall k :: 0 <= k < i ==> score[k] == -1.0 && ener[k] == 0.0 && pitch[k] == p.start
    {
      score[i], ener[i], pitch[i] := -1.0, 0.0, p.start;
    }
    SlidingEnergy(p, energy);
    PitchXcorr(p, corr);
    assert corr[..] == corr[..n] && energy[..] == energy[..n];
    best := FindBest(p, score, ener, pitch, N, corr[..], energy[..]);
    if p.len % 4 == 0 {
      LagsInOrder(p, N, best, pitch[..|best|]);
    }
  }
}
