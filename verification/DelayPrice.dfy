/** What the estimate of compute_opt_delay comes to: how much delay a late packet is worth. */
module DelayPrice {
  import opened DelayEstimate
  import opened JitterTime
  import opened MachineWords
  import opened Remainders
  import opened Timings

  // ----- estimates from one and two timings -----

  /** There is only one way to sort. */
  lemma {:induction false} SortedSame(s: seq<int>, t: seq<int>)
    requires Sorted(s) && Sorted(t) && multiset(s) == multiset(t)
    ensures s == t
  {
    assert |s| == |multiset(s)| == |multiset(t)| == |t|;
    if s != [] {
      LeastFirst(s, t);
      LeastFirst(t, s);
      WithoutFirst(s);
      WithoutFirst(t);
      SortedSame(s[1..], t[1..]);
    }
  }

  lemma LeastFirst(s: seq<int>, t: seq<int>)
    requires Sorted(t) && s != [] && t != [] && multiset(s) == multiset(t)
    ensures t[0] <= s[0]
  {
    assert s[0] in multiset(t);
  }

  lemma WithoutFirst(s: seq<int>)
    requires s != []
    ensures s == [s[0]] + s[1..] && multiset(s[1..]) == multiset(s) - multiset{s[0]}
  {
    assert s == [s[0]] + s[1..];
  }

  /** With little data the merge visits all timings in order. */
  lemma Visited(V: seq<int>, s: seq<int>)
    requires TopTimings(V, multiset(s)) && Sorted(s) && |s| < TOP_DELAY && forall t :: t in s ==> t < NEVER
    ensures V == s
  {
    assert |multiset(s)| == |s|;
    forall t | t in multiset(s)
      ensures t < NEVER
    {
      assert t in s;
    }
    TopIsAll(V, multiset(s));
    SortedSame(V, s);
  }

  /** A single timing: the delay is made long enough for it, never shorter. */
  lemma OneTiming(st: Statistics, e: Estimate, a: int)
    requires st.step > 0 && IsEstimate(st, e) && st.received == multiset{a} && RoundDown(a, st.step) >= -32768
    requires a < NEVER
    ensures e.opt == (if RoundDown(a, st.step) < 0 then RoundDown(a, st.step) else 0) && e.autoTradeoff == 1
  {
    var V, first, cost :| EstimatedFrom(st, e, V, first, cost);
    Visited(V, [a]);
    RoundDownIsFloor(a, st.step);
    var f := LateFactor(st.latencyTradeoff, st.autoTradeoff, st.windowSize, 1);
    assert Delays(V, st.step) == [RoundDown(a, st.step)];
    NoneLate(RoundDown(a, st.step), f);
    hide Cost, RoundDown, LateFactor;
  }

  lemma NoneLate(d: int, f: real)
    ensures Cost([d], f, 0) == -d
  {
    assert Penalty(f, 0) == 0.0;
  }

  /** Two timings: the later one decides while losing a packet costs more than the delay. */
  lemma TwoTimings(st: Statistics, e: Estimate, a: int, b: int)
    requires st.step > 0 && IsEstimate(st, e) && st.received == multiset{a, b} && a <= b < NEVER
    requires -32768 <= RoundDown(a, st.step) < 0
    requires LateFactor(st.latencyTradeoff, st.autoTradeoff, st.windowSize, 2)
      >= (RoundDown(b, st.step) - RoundDown(a, st.step)) as real
    ensures e.opt == RoundDown(a, st.step) && e.autoTradeoff == 1 + Quotient(b - a, TOP_DELAY)
  {
    hide Cost, RoundDown, LateFactor, Quotient, FirstBest, TopTimings;
    var V, first, cost :| EstimatedFrom(st, e, V, first, cost);
    assert multiset([a, b]) == multiset{a, b};
    Visited(V, [a, b]);
    var f := LateFactor(st.latencyTradeoff, st.autoTradeoff, st.windowSize, 2);
    var D := [RoundDown(a, st.step), RoundDown(b, st.step)];
    assert Delays(V, st.step) == D;
    OneLate(D, f);
    FirstIsBest(D, f, first, cost);
    hide Cost, RoundDown, LateFactor, Quotient;
  }

  lemma OneLate(D: seq<int>, f: real)
    requires |D| >= 2 && D[0] < 0 && f >= (D[1] - D[0]) as real
    ensures Cost(D, f, 0) == -D[0] && Cost(D, f, 1) >= -D[0]
  {
    assert Penalty(f, 0) == 0.0 && Penalty(f, 1) == f;
    assert !AnyReached(D, 1);
  }

  /** Three timings: the latest decides while losing one packet, or two, costs more than the delay. */
  lemma ThreeTimings(st: Statistics, e: Estimate, a: int, b: int, c: int)
    requires st.step > 0 && IsEstimate(st, e) && st.received == multiset{a, b, c} && a < b <= c < NEVER
    requires -32768 <= RoundDown(a, st.step) < 0
    requires var f := LateFactor(st.latencyTradeoff, st.autoTradeoff, st.windowSize, 3);
      && f >= (RoundDown(b, st.step) - RoundDown(a, st.step)) as real
      && 2.0 * f >= (RoundDown(c, st.step) - RoundDown(a, st.step)) as real && f >= 0.0
    ensures e.opt == RoundDown(a, st.step)
  {
    hide Cost, RoundDown, LateFactor, Quotient, FirstBest, TopTimings;
    var V, first, cost :| EstimatedFrom(st, e, V, first, cost);
    assert multiset([a, b, c]) == multiset{a, b, c};
    Visited(V, [a, b, c]);
    var f := LateFactor(st.latencyTradeoff, st.autoTradeoff, st.windowSize, 3);
    var D := [RoundDown(a, st.step), RoundDown(b, st.step), RoundDown(c, st.step)];
    assert Delays(V, st.step) == D;
    OneLate(D, f);
    TwoLate(D, f);
    FirstIsBest(D, f, first, cost);
  }

  lemma FirstIsBest(D: seq<int>, f: real, opt: int, bestCost: int)
    requires |D| >= 1 && -32768 <= D[0] < 0 && FirstBest(D, f, |D|, opt, bestCost) && Cost(D, f, 0) == -D[0]
    requires forall i :: 0 <= i < |D| ==> Cost(D, f, i) >= -D[0]
    ensures opt == D[0]
  {
    hide Cost;
  }

  lemma TwoLate(D: seq<int>, f: real)
    requires |D| == 3 && D[0] < 0 && f >= 0.0 && 2.0 * f >= (D[2] - D[0]) as real
    ensures Cost(D, f, 2) >= -D[0]
  {
    assert Penalty(f, 2) == 2.0 * f && Penalty(f, 6) == 6.0 * f;
    assert Late(D, 2) == 2 || Late(D, 2) == 6;
  }

  // ----- any number of timings -----

  lemma RealFloor(x: real, k: int)
    ensures x.Floor < k <==> x < k as real
  {}

  /** A delay that is not the first costs less than it exactly if it gains more than the packets that come too late for
      it are worth. */
  lemma CheaperIff(D: seq<int>, f: real, i: nat)
    requires i < |D| && f >= 0.0 && D[0] < 0
    ensures Cost(D, f, 0) == -D[0]
    ensures Cost(D, f, i) < -D[0] <==> f * (Late(D, i) as real) < (D[i] - D[0]) as real
    ensures Cost(D, f, i) < -D[0] ==> D[i] != D[0]
  {
    assert Penalty(f, 0) == 0.0;
    NotNegative(f, Late(D, i) as real);
    RealFloor(-(D[i] as real) + Penalty(f, Late(D, i)), -D[0]);
    hide Late, AnyReached;
  }

  lemma NotNegative(f: real, x: real)
    requires f >= 0.0 && x >= 0.0
    ensures f * x >= 0.0
  {}

  /** So the first, longest delay is chosen if and only if no other one gains that much. */
  lemma FirstIff(D: seq<int>, f: real, opt: int, bestCost: int)
    requires D != [] && f >= 0.0 && -32768 <= D[0] < 0 && FirstBest(D, f, |D|, opt, bestCost)
    ensures opt in D
    ensures opt == D[0] <==> forall i :: 0 <= i < |D| ==> f * (Late(D, i) as real) >= (D[i] - D[0]) as real
  {
    forall i | 0 <= i < |D|
      ensures Cost(D, f, 0) == -D[0]
      ensures Cost(D, f, i) < -D[0] <==> f * (Late(D, i) as real) < (D[i] - D[0]) as real
      ensures Cost(D, f, i) < -D[0] ==> D[i] != D[0]
    {
      CheaperIff(D, f, i);
    }
    hide Cost;
    var m :| 0 <= m < |D| && IsBest(D, f, |D|, m, bestCost) && opt == D[m];
    assert bestCost <= Cost(D, f, 0);
    assert m > 0 ==> bestCost < Cost(D, f, 0);
  }

  lemma Exactly16(x: int)
    requires -32768 <= x <= 32767
    ensures Wrap16(x) == x
  {
    QuotientUnique(x + 32768, 0, x + 32768, 65536);
  }

  /** The same of the estimate made from the timings s. */
  lemma EstimateFirst(st: Statistics, e: Estimate, s: seq<int>, D: seq<int>, f: real)
    requires st.step > 0 && IsEstimate(st, e) && st.received == multiset(s) && Sorted(s) && 0 < |s| < TOP_DELAY
    requires (forall t :: t in s ==> t < NEVER) && D == Delays(s, st.step)
    requires D[0] < 0 && forall i :: 0 <= i < |D| ==> -32768 <= D[i] <= 32767
    requires f == LateFactor(st.latencyTradeoff, st.autoTradeoff, st.windowSize, |s|) && f >= 0.0
    ensures e.opt == D[0] <==> forall i :: 0 <= i < |s| ==> f * (Late(D, i) as real) >= (D[i] - D[0]) as real
  {
    hide Cost, RoundDown, LateFactor, Quotient, FirstBest, TopTimings, Wrap16, Delays, Late;
    assert |multiset(s)| == |s|;
    var V, first, cost :| EstimatedFrom(st, e, V, first, cost);
    Visited(V, s);
    FirstIff(D, f, first, cost);
    Exactly16(first);
  }

  lemma DelaysAre(s: seq<int>, step: int)
    requires step > 0
    ensures |Delays(s, step)| == |s| && forall i :: 0 <= i < |s| ==> Delays(s, step)[i] == RoundDown(s[i], step)
  {
    hide RoundDown;
  }

  lemma RoundedRange(x: int, step: int)
    requires step > 0
    ensures RoundDown(x, step) <= x && (RoundDown(x, step) >= 0 <==> x >= 0)
  {
    RoundDownIsFloor(x, step);
    FloorSign(x, step, x / step);
    hide RoundDown;
  }

  lemma FloorSign(x: int, step: int, q: int)
    requires step > 0 && q * step <= x < q * step + step
    ensures q * step >= 0 <==> x >= 0
  {
    assert q >= 0 ==> q * step >= 0;
    assert q <= -1 ==> (q + 1) * step <= 0;
  }

  /** How many packets come too late when room is made for the i-th timing only: those before it, and four more if one
      of them had come in time. */
  function Missed(s: seq<int>, i: nat): int
    requires i <= |s|
  {
    if i > 0 && s[i - 1] >= 0 then i + 4 else i
  }

  lemma LateIsMissed(s: seq<int>, step: int, i: nat)
    requires step > 0 && Sorted(s) && i <= |s|
    ensures Late(Delays(s, step), i) == Missed(s, i)
  {
    hide RoundDown;
    forall k | 0 <= k < |s|
      ensures Delays(s, step)[k] >= 0 <==> s[k] >= 0
    {
      RoundedRange(s[k], step);
    }
  }

  lemma ShareIff(a: int, n: int, i: int, d: int)
    requires n > 0
    ensures (a as real / n as real) * (i as real) >= d as real <==> a * i >= n * d
  {
    var q, x := a as real / n as real, i as real;
    assert q * (n as real) == a as real;
    Scaled(q, n as real, x, d as real);
    assert a as real * x == (a * i) as real && (n as real) * (d as real) == (n * d) as real;
  }

  lemma Scaled(q: real, n: real, x: real, d: real)
    requires n > 0.0
    ensures q * x >= d <==> (q * n) * x >= n * d
  {
    assert (q * n) * x - n * d == n * (q * x - d);
    var y := q * x - d;
    assert y >= 0.0 ==> n * y >= 0.0;
    assert y < 0.0 ==> n * y < 0.0;
  }

  lemma ShareNotNegative(a: int, n: int)
    requires a >= 0 && n > 0
    ensures a as real / n as real >= 0.0
  {}

  lemma WholePrice(a: int, n: int)
    requires a >= 0 && n > 0
    ensures Quotient(a, n) == a / n >= 0
  {
    var q := a / n;
    WholeParts(a, n, q);
    assert q < 0 ==> (q + 1) * n <= 0;
  }

  lemma WholeParts(a: int, n: int, q: int)
    requires n > 0 && q == a / n
    ensures q * n <= a < (q + 1) * n
  {}

  lemma ProductsNotNegative(a: int, b: int)
    requires a >= 0 && b >= 0
    ensures a * b >= 0
  {}

  /** So many packets are worth a gain in delay, at the price of price / n for each. */
  predicate Worth(price: int, packets: int, n: int, gain: int) { price * packets >= n * gain }

  /** With a price of a / n the first, longest delay is chosen exactly when every run of latest packets is worth it. */
  lemma EstimateWorth(st: Statistics, e: Estimate, s: seq<int>, a: int, n: int)
    requires st.step > 0 && IsEstimate(st, e) && st.received == multiset(s) && Sorted(s) && 0 < |s| < TOP_DELAY
    requires s[0] < 0 && RoundDown(s[0], st.step) >= -32768 && forall i :: 0 <= i < |s| ==> s[i] < NEVER
    requires a >= 0 && n > 0
    requires LateFactor(st.latencyTradeoff, st.autoTradeoff, st.windowSize, |s|) == a as real / n as real
    ensures e.opt == RoundDown(s[0], st.step) <==>
      forall i :: 0 <= i < |s| ==> Worth(a, Missed(s, i), n, RoundDown(s[i], st.step) - RoundDown(s[0], st.step))
  {
    hide RoundDown, Delays, LateFactor, IsEstimate, Worth, Late, Missed;
    var D, f := Delays(s, st.step), a as real / n as real;
    ShareNotNegative(a, n);
    DelaysAre(s, st.step);
    DelaysInRange(s, D, st.step);
    EstimateFirst(st, e, s, D, f);
    forall i | 0 <= i < |s|
      ensures f * (Late(D, i) as real) >= (D[i] - D[0]) as real
        <==> Worth(a, Missed(s, i), n, RoundDown(s[i], st.step) - RoundDown(s[0], st.step))
    {
      LateIsMissed(s, st.step, i);
      WorthIff(a, n, Missed(s, i), D[i] - D[0]);
    }
  }

  lemma DelaysInRange(s: seq<int>, D: seq<int>, step: int)
    requires step > 0 && Sorted(s) && s != [] && D == Delays(s, step) && forall t :: t in s ==> t < NEVER
    requires RoundDown(s[0], step) >= -32768
    ensures D[0] < 0 <==> s[0] < 0
    ensures forall i :: 0 <= i < |D| ==> -32768 <= D[i] <= 32767
  {
    hide RoundDown;
    forall i | 0 <= i < |D|
      ensures D[0] <= D[i] <= 32767 && (D[i] < 0 <==> s[i] < 0)
    {
      RoundedRange(s[i], step);
      Ascending(s[0], s[i], step);
      assert s[i] in s;
    }
  }

  lemma Ascending(x: int, y: int, step: int)
    requires step > 0 && x <= y
    ensures RoundDown(x, step) <= RoundDown(y, step)
  {
    RoundDownIsFloor(x, step);
    RoundDownIsFloor(y, step);
    hide RoundDown;
    FloorsAscend(x, y, step, x / step, y / step);
  }

  lemma Gap(p: int, q: int, step: int)
    requires step > 0
    ensures p > q ==> p * step >= q * step + step
    ensures p <= q ==> p * step <= q * step
  {
    var d := p - q;
    assert p * step == q * step + d * step;
    assert d >= 1 ==> (d - 1) * step >= 0;
    assert d <= 0 ==> d * step <= 0;
  }

  lemma FloorsAscend(x: int, y: int, step: int, p: int, q: int)
    requires step > 0 && x <= y && p * step <= x && y < q * step + step
    ensures p * step <= q * step
  {
    Gap(p, q, step);
  }

  lemma WorthIff(a: int, n: int, i: int, d: int)
    requires n > 0
    ensures (a as real / n as real) * (i as real) >= d as real <==> Worth(a, i, n, d)
  {
    ShareIff(a, n, i, d);
  }

  /** A tradeoff set by the application, and n timings, fewer than 40, the first one late: the estimate makes room for
      it if and only if no later timing saves more delay than the packets given up for it are worth, at
      100 * tradeoff / n each.  Four more count as given up once one of them had come in time. */
  lemma TradeoffPrice(st: Statistics, e: Estimate, s: seq<int>)
    requires st.step > 0 && IsEstimate(st, e) && st.received == multiset(s) && Sorted(s) && 0 < |s| < TOP_DELAY
    requires st.latencyTradeoff > 0
    requires s[0] < 0 && RoundDown(s[0], st.step) >= -32768 && forall i :: 0 <= i < |s| ==> s[i] < NEVER
    ensures e.opt == RoundDown(s[0], st.step) <==>
      forall i :: 0 <= i < |s| ==>
        st.latencyTradeoff * 100 * (if i > 0 && s[i - 1] >= 0 then i + 4 else i)
          >= |s| * (RoundDown(s[i], st.step) - RoundDown(s[0], st.step))
  {
    hide RoundDown, IsEstimate, Quotient;
    EstimateWorth(st, e, s, st.latencyTradeoff * 100, |s|);
  }

  /** Without one, the price of a packet is the automatic tradeoff's share. */
  lemma AutomaticPrice(st: Statistics, e: Estimate, s: seq<int>)
    requires st.step > 0 && IsEstimate(st, e) && st.received == multiset(s) && Sorted(s) && 0 < |s| < TOP_DELAY
    requires st.latencyTradeoff == 0 && st.autoTradeoff >= 0 && st.windowSize >= 0
    requires s[0] < 0 && RoundDown(s[0], st.step) >= -32768 && forall i :: 0 <= i < |s| ==> s[i] < NEVER
    ensures e.opt == RoundDown(s[0], st.step) <==>
      forall i :: 0 <= i < |s| ==>
        st.autoTradeoff * st.windowSize / |s| * (if i > 0 && s[i - 1] >= 0 then i + 4 else i)
          >= RoundDown(s[i], st.step) - RoundDown(s[0], st.step)
  {
    ProductsNotNegative(st.autoTradeoff, st.windowSize);
    hide RoundDown, IsEstimate, Quotient;
    WholePrice(st.autoTradeoff * st.windowSize, |s|);
    EstimateWorth(st, e, s, st.autoTradeoff * st.windowSize / |s|, 1);
  }
}
