/** compute_opt_delay of jitter.c, and the three rotating windows it works on. */
module DelayEstimate {
  import opened JitterTime
  import opened MachineWords
  import opened Timings

  const MAX_COST := 0x7fff_ffff

  /** Conversion of a float to an int: toward zero. */
  function Truncate(x: real): int { if x >= 0.0 then x.Floor else -((-x).Floor) }

  /** The rounded delay of each visited timing. */
  function Delays(V: seq<int>, step: int): (r: seq<int>)
    requires step > 0
    ensures |r| == |V|
  {
    seq(|V|, i requires 0 <= i < |V| => RoundDown(V[i], step))
  }

  predicate AnyReached(D: seq<int>, n: nat)
    requires n <= |D|
  {
    exists k :: 0 <= k < n && D[k] >= 0
  }

  /** How many packets are late at the i-th delay: those visited before, and four more once a delay was not negative. */
  function Late(D: seq<int>, i: nat): int
    requires i <= |D|
  {
    i + if AnyReached(D, i) then 4 else 0
  }

  function Cost(D: seq<int>, lateFactor: real, i: nat): int
    requires i < |D|
  {
    Truncate(-(D[i] as real) + Penalty(lateFactor, Late(D, i)))
  }

  function Penalty(f: real, n: int): real { f * (n as real) }

  /** opt is the first delay of least cost among the first n, or zero if none costs less than the initial bound. */
  ghost predicate FirstBest(D: seq<int>, lateFactor: real, n: nat, opt: int, bestCost: int)
    requires n <= |D|
  {
    || (opt == 0 && bestCost == MAX_COST && forall i :: 0 <= i < n ==> Cost(D, lateFactor, i) >= MAX_COST)
    || exists m :: 0 <= m < n && IsBest(D, lateFactor, n, m, bestCost) && opt == D[m]
  }

  ghost predicate IsBest(D: seq<int>, lateFactor: real, n: nat, m: nat, bestCost: int)
    requires m < n <= |D|
  {
    && Cost(D, lateFactor, m) == bestCost < MAX_COST
    && (forall i :: 0 <= i < n ==> bestCost <= Cost(D, lateFactor, i))
    && (forall i :: 0 <= i < m ==> bestCost < Cost(D, lateFactor, i))
  }

  lemma BestStep(D: seq<int>, lateFactor: real, n: nat, opt: int, bestCost: int)
    requires n < |D| && FirstBest(D, lateFactor, n, opt, bestCost)
    ensures var c := Cost(D, lateFactor, n);
      if c < bestCost then FirstBest(D, lateFactor, n + 1, D[n], c) else FirstBest(D, lateFactor, n + 1, opt, bestCost)
  {
    hide Cost;
    var c := Cost(D, lateFactor, n);
    if c < bestCost {
      assert IsBest(D, lateFactor, n + 1, n, c);
    } else if !(opt == 0 && bestCost == MAX_COST && forall i :: 0 <= i < n ==> Cost(D, lateFactor, i) >= MAX_COST) {
      var m :| 0 <= m < n && IsBest(D, lateFactor, n, m, bestCost) && opt == D[m];
      assert IsBest(D, lateFactor, n + 1, m, bestCost);
    }
  }

  lemma LatePrefix(D: seq<int>, d: int, i: nat)
    requires i <= |D|
    ensures Late(D + [d], i) == Late(D, i)
  {
    assert forall k :: 0 <= k < i ==> (D + [d])[k] == D[k];
  }

  /** A delay more does not change what was said of those before. */
  lemma BestPrefix(D: seq<int>, d: int, lateFactor: real, opt: int, bestCost: int)
    requires FirstBest(D, lateFactor, |D|, opt, bestCost)
    ensures FirstBest(D + [d], lateFactor, |D|, opt, bestCost)
  {
    var D' := D + [d];
    forall i | 0 <= i < |D|
      ensures Cost(D', lateFactor, i) == Cost(D, lateFactor, i)
    {
      LatePrefix(D, d, i);
    }
    hide Cost;
    if !(opt == 0 && bestCost == MAX_COST && forall i :: 0 <= i < |D| ==> Cost(D, lateFactor, i) >= MAX_COST) {
      var m :| 0 <= m < |D| && IsBest(D, lateFactor, |D|, m, bestCost) && opt == D[m];
      assert IsBest(D', lateFactor, |D|, m, bestCost);
    }
  }

  lemma LateStep(D: seq<int>, d: int)
    ensures AnyReached(D + [d], |D| + 1) == (AnyReached(D, |D|) || d >= 0)
    ensures Late(D + [d], |D| + 1) == Late(D, |D|) + 1 + (if d >= 0 && !AnyReached(D, |D|) then 4 else 0)
  {
    var D' := D + [d];
    assert D'[|D|] == d;
    assert forall k :: 0 <= k < |D| ==> D'[k] == D[k];
  }

  /** The cost search so far: the best delay and its cost, how many packets are late, and whether the penalty was
      taken. */
  datatype Search = Search(opt: int, bestCost: int, late: int, penaltyTaken: bool)

  /** The loop body of compute_opt_delay for a rounded delay d. */
  function Account(s: Search, d: int, lateFactor: real): Search {
    var c := Truncate(-(d as real) + Penalty(lateFactor, s.late));
    var penalty := d >= 0 && !s.penaltyTaken;
    Search(if c < s.bestCost then d else s.opt, if c < s.bestCost then c else s.bestCost,
           s.late + 1 + (if penalty then 4 else 0), s.penaltyTaken || penalty)
  }

  ghost predicate Searching(D: seq<int>, lateFactor: real, s: Search) {
    FirstBest(D, lateFactor, |D|, s.opt, s.bestCost) && s.late == Late(D, |D|) && s.penaltyTaken == AnyReached(D, |D|)
  }

  lemma SearchStep(D: seq<int>, d: int, lateFactor: real, s: Search)
    requires Searching(D, lateFactor, s)
    ensures Searching(D + [d], lateFactor, Account(s, d, lateFactor))
  {
    BestPrefix(D, d, lateFactor, s.opt, s.bestCost);
    LatePrefix(D, d, |D|);
    LateStep(D, d);
    BestStep(D + [d], lateFactor, |D|, s.opt, s.bestCost);
    hide FirstBest, Late, AnyReached;
  }

  lemma SearchOne(V: seq<int>, v: int, step: int, lateFactor: real, s: Search)
    requires step > 0 && Searching(Delays(V, step), lateFactor, s)
    ensures Searching(Delays(V + [v], step), lateFactor, Account(s, RoundDown(v, step), lateFactor))
  {
    assert Delays(V + [v], step) == Delays(V, step) + [RoundDown(v, step)];
    hide Delays, Searching, Account, RoundDown;
    SearchStep(Delays(V, step), RoundDown(v, step), lateFactor, s);
  }

  lemma SearchStart(lateFactor: real)
    ensures forall step :: step > 0 ==> Searching(Delays([], step), lateFactor, Search(0, MAX_COST, 0, false))
  {}

  lemma SearchFound(D: seq<int>, lateFactor: real, s: Search)
    requires Searching(D, lateFactor, s)
    ensures FirstBest(D, lateFactor, |D|, s.opt, s.bestCost)
  {}

  /** The price of one late packet. */
  function LateFactor(latencyTradeoff: int, autoTradeoff: int, windowSize: int, total: int): real
    requires total > 0
  {
    if latencyTradeoff != 0 then (latencyTradeoff * 100) as real / total as real
    else Quotient(autoTradeoff * windowSize, total) as real
  }

  /** What the function returns and the automatic tradeoff it leaves behind. */
  datatype Estimate = Estimate(opt: int, autoTradeoff: int)

  /** The estimate the visited timings call for. */
  ghost predicate Explains(e: Estimate, V: seq<int>, step: int, lateFactor: real, total: int, opt: int, bestCost: int)
    requires step > 0
  {
    && FirstBest(Delays(V, step), lateFactor, |V|, opt, bestCost)
    && e.opt == (if total < TOP_DELAY && Wrap16(opt) > 0 then 0 else Wrap16(opt))
    && e.autoTradeoff == 1 + Quotient(if V == [] then 0 else V[|V| - 1] - V[0], TOP_DELAY)
  }

  /** What an estimate depends on. */
  datatype Statistics = Statistics(received: multiset<int>, step: int, latencyTradeoff: int, autoTradeoff: int,
      windowSize: int)

  /** The estimate is zero without data; else it is the first cheapest delay among the 40 smallest timings of all that
      were received in the current and the two previous windows. */
  ghost predicate IsEstimate(st: Statistics, e: Estimate)
    requires st.step > 0
  {
    if |st.received| == 0 then e == Estimate(0, st.autoTradeoff)
    else exists V, first, cost :: EstimatedFrom(st, e, V, first, cost)
  }

  ghost predicate EstimatedFrom(st: Statistics, e: Estimate, V: seq<int>, first: int, cost: int)
    requires st.step > 0 && |st.received| > 0
  {
    && TopTimings(V, st.received)
    && Explains(e, V, st.step, LateFactor(st.latencyTradeoff, st.autoTradeoff, st.windowSize, |st.received|),
        |st.received|, first, cost)
  }

  predicate OnlyZeros(m: multiset<int>) { forall t :: t in m ==> t == 0 }

  /** When everything arrives exactly on time there is nothing to adjust. */
  lemma OnTimeNoChange(st: Statistics, e: Estimate)
    requires st.step > 0 && IsEstimate(st, e) && OnlyZeros(st.received)
    ensures e.opt == 0
  {
    if |st.received| > 0 {
      var V, first, cost :| EstimatedFrom(st, e, V, first, cost);
      forall i | 0 <= i < |V|
        ensures Delays(V, st.step)[i] == 0
      {
        assert V[i] in multiset(V);
      }
      hide Cost;
    }
  }

  /** The windows, the current one first, after one more timing: a full current window first becomes a previous one,
      and the oldest is forgotten. */
  function Recorded(v: seq<multiset<int>>, t: int, subwindowSize: int): seq<multiset<int>>
    requires |v| == MAX_BUFFERS
  {
    if |v[0]| >= subwindowSize then [multiset{t}, v[0], v[1]] else [v[0] + multiset{t}, v[1], v[2]]
  }

  function NoTimings(): seq<multiset<int>> { [multiset{}, multiset{}, multiset{}] }

  function AllOf(v: seq<multiset<int>>): multiset<int>
    requires |v| == MAX_BUFFERS
  {
    v[0] + v[1] + v[2]
  }

  function AllShifted(ls: seq<seq<int>>, amount: int): (r: seq<seq<int>>) {
    seq(|ls|, i requires 0 <= i < |ls| => Shifted(ls[i], amount))
  }

  /** The six lists one after the other. */
  function Joined(ls: seq<seq<int>>): (s: seq<int>)
    requires |ls| == 2 * MAX_BUFFERS
  {
    ls[0] + ls[1] + ls[2] + ls[3] + ls[4] + ls[5]
  }

  /** A shift moves every timing. */
  lemma JoinedShift(ls: seq<seq<int>>, amount: int)
    requires |ls| == 2 * MAX_BUFFERS
    ensures Joined(AllShifted(ls, amount)) == Shifted(Joined(ls), amount)
  {
    ShiftJoins(ls[0], ls[1], amount);
    ShiftJoins(ls[0] + ls[1], ls[2], amount);
    ShiftJoins(ls[0] + ls[1] + ls[2], ls[3], amount);
    ShiftJoins(ls[0] + ls[1] + ls[2] + ls[3], ls[4], amount);
    ShiftJoins(ls[0] + ls[1] + ls[2] + ls[3] + ls[4], ls[5], amount);
    hide Shifted;
  }

  lemma ShiftJoins(a: seq<int>, b: seq<int>, amount: int)
    ensures Shifted(a + b, amount) == Shifted(a, amount) + Shifted(b, amount)
  {}

  /** With little data and no timing out of range, the merge visits everything. */
  lemma TopIsAll(V: seq<int>, all: multiset<int>)
    requires TopTimings(V, all) && |all| < TOP_DELAY && forall t :: t in all ==> t < NEVER
    ensures multiset(V) == all
  {
    assert all == multiset(V) + (all - multiset(V));
    var rest := all - multiset(V);
    assert forall t :: t in rest ==> t in all;
    assert forall t :: t !in rest;
  }

  class Windows {
    const tb: seq<TimingBuffer>
    var timeBuffers: seq<TimingBuffer>

    ghost predicate Distinct() {
      && |tb| == MAX_BUFFERS
      && tb[0] != tb[1] && tb[0] != tb[2] && tb[1] != tb[2]
      && tb[0].timing != tb[1].timing && tb[0].timing != tb[2].timing && tb[1].timing != tb[2].timing
    }

    ghost function Repr(): set<object> {
      if |tb| == MAX_BUFFERS then {tb[0], tb[1], tb[2], tb[0].timing, tb[1].timing, tb[2].timing} else {}
    }

    /** The pointers are a permutation of the three buffers. */
    ghost predicate Permuted()
      requires Distinct()
      reads this
    {
      && |timeBuffers| == MAX_BUFFERS
      && timeBuffers[0] != timeBuffers[1] && timeBuffers[0] != timeBuffers[2] && timeBuffers[1] != timeBuffers[2]
      && timeBuffers[0] in tb && timeBuffers[1] in tb && timeBuffers[2] in tb
    }

    ghost predicate Valid()
      reads this, Repr()
    {
      Distinct() && Permuted() && forall j :: 0 <= j < MAX_BUFFERS ==> tb[j].Valid()
    }

    /** All timings of each window, the current one first. */
    ghost function View(): (v: seq<multiset<int>>)
      requires Valid()
      reads this, Repr()
      ensures |v| == MAX_BUFFERS
    {
      [timeBuffers[0].All(), timeBuffers[1].All(), timeBuffers[2].All()]
    }

    /** All timings of the current and the two previous windows. */
    ghost function Received(): multiset<int>
      requires Valid()
      reads this, Repr()
    {
      tb[0].All() + tb[1].All() + tb[2].All()
    }

    ghost function Total(): int
      requires Valid()
      reads this, Repr()
    {
      tb[0].currCount + tb[1].currCount + tb[2].currCount
    }

    constructor ()
      ensures Valid() && View() == NoTimings() && fresh(Repr())
    {
      hide TimingBuffer.Valid, TimingBuffer.All;
      var a := new TimingBuffer();
      var b := new TimingBuffer();
      var c := new TimingBuffer();
      tb := [a, b, c];
      timeBuffers := [a, b, c];
    }

    /** Every window starts over, and the pointers go back to the buffers' own order. */
    method Reset()
      requires Valid()
      modifies this, Repr()
      ensures Valid() && View() == NoTimings()
    {
      hide TimingBuffer.Valid, TimingBuffer.All;
      tb[0].Init();
      tb[1].Init();
      tb[2].Init();
      timeBuffers := tb;
    }

    /** The pointers see the same windows as the buffers. */
    lemma ReceivedByWindow()
      requires Valid()
      ensures Received() == AllOf(View()) && Total() == |Received()|
    {
      hide TimingBuffer.Valid, TimingBuffer.All;
      AnyOrder(tb[0].All(), tb[1].All(), tb[2].All());
    }

    static lemma AnyOrder(a: multiset<int>, b: multiset<int>, c: multiset<int>)
      ensures a + b + c == a + c + b == b + a + c == b + c + a == c + a + b == c + b + a
    {}

    /** The nearest value a timing can hold. */
    static function Clamp(timing: int): (t: int)
      ensures -32767 <= t <= 32767
      ensures (t < timing ==> t == 32767) && (t > timing ==> t == -32767)
    {
      if timing < -32767 then -32767 else if timing > 32767 then 32767 else timing
    }

    /** update_timings */
    method UpdateTimings(timing: int, subwindowSize: int)
      requires Valid()
      modifies this, Repr()
      ensures Valid() && View() == Recorded(old(View()), Clamp(timing), subwindowSize)
    {
      hide TimingBuffer.Valid, TimingBuffer.All;
      var t := Clamp(timing);
      if timeBuffers[0].currCount >= subwindowSize {
        Rotate();
        assert multiset{} + multiset{t} == multiset{t};
      }
      AddCurrent(t);
    }

    method AddCurrent(t: int)
      requires Valid()
      modifies Repr()
      ensures Valid() && View() == [old(View())[0] + multiset{t}, old(View())[1], old(View())[2]]
    {
      hide TimingBuffer.Valid, TimingBuffer.All;
      timeBuffers[0].Add(t);
    }

    /** The current window becomes a previous one, and the oldest is forgotten to make room for a new current one. */
    method Rotate()
      requires Valid()
      modifies this, Repr()
      ensures Valid() && View() == [multiset{}, old(View())[0], old(View())[1]]
    {
      hide TimingBuffer.Valid, TimingBuffer.All;
      var tmp := timeBuffers[2];
      timeBuffers := [tmp, timeBuffers[0], timeBuffers[1]];
      timeBuffers[0].Init();
    }

    /** Every timing of the three windows: what was kept, then what was not. */
    ghost function Lists(): (ls: seq<seq<int>>)
      requires Valid()
      reads this, Repr()
      ensures |ls| == 2 * MAX_BUFFERS
    {
      [tb[0].Kept(), tb[1].Kept(), tb[2].Kept(), tb[0].dropped, tb[1].dropped, tb[2].dropped]
    }

    /** The lists hold what the windows saw. */
    lemma ListsAreAll()
      requires Valid()
      ensures AllOf(View()) == multiset(Joined(Lists()))
    {
      ReceivedByWindow();
      Regroup3(multiset(tb[0].Kept()), multiset(tb[1].Kept()), multiset(tb[2].Kept()),
               multiset(tb[0].dropped), multiset(tb[1].dropped), multiset(tb[2].dropped));
      hide View;
    }

    static lemma Regroup3(a: multiset<int>, b: multiset<int>, c: multiset<int>, d: multiset<int>, e: multiset<int>,
                          f: multiset<int>)
      ensures (a + d) + (b + e) + (c + f) == a + b + c + d + e + f
    {}

    /** shift_timings */
    method ShiftTimings(amount: int)
      requires Valid()
      modifies Repr()
      ensures Valid() && Lists() == AllShifted(old(Lists()), amount)
    {
      hide TimingBuffer.Valid, TimingBuffer.All, TimingBuffer.Kept, Shifted;
      timeBuffers[0].Shift(amount);
      timeBuffers[1].Shift(amount);
      timeBuffers[2].Shift(amount);
    }

    ghost function KeptLists(): (ks: seq<seq<int>>)
      requires Valid()
      reads this, Repr()
      ensures |ks| == MAX_BUFFERS
    {
      [tb[0].Kept(), tb[1].Kept(), tb[2].Kept()]
    }

    /** The three windows as the merge lemmas see them. */
    lemma WindowsKeep()
      requires Valid()
      ensures AllKeep(KeptLists(), [tb[0].dropped, tb[1].dropped, tb[2].dropped],
          [tb[0].currCount, tb[1].currCount, tb[2].currCount])
      ensures AllArrived(KeptLists(), [tb[0].dropped, tb[1].dropped, tb[2].dropped]) == Received()
    {
      hide Keeps, Arrived;
    }

    /** The window whose next timing is smallest. */
    method PickLatest(pos: seq<int>) returns (next: int, latest: int)
      requires Valid() && |pos| == MAX_BUFFERS && forall j :: 0 <= j < MAX_BUFFERS ==> 0 <= pos[j] <= tb[j].filled
      ensures -1 <= next < MAX_BUFFERS
      ensures next == -1 ==> forall j :: 0 <= j < MAX_BUFFERS ==> !Head(KeptLists(), pos, j)
      ensures next != -1 ==> Latest(KeptLists(), pos, next) && latest == KeptLists()[next][pos[next]]
    {
      hide Keeps;
      next, latest := -1, NEVER;
      ghost var ks := KeptLists();
      for j := 0 to MAX_BUFFERS
        invariant -1 <= next < MAX_BUFFERS
        invariant next == -1 ==> latest == NEVER && forall i :: 0 <= i < j ==> !Head(ks, pos, i)
        invariant next != -1 ==> Head(ks, pos, next) && latest == ks[next][pos[next]]
        invariant next != -1 ==> forall i :: 0 <= i < j && Head(ks, pos, i) ==> latest <= ks[i][pos[i]]
      {
        assert ks[j] == tb[j].timing[..tb[j].filled];
        if pos[j] < tb[j].filled && tb[j].timing[pos[j]] < latest {
          next := j;
          latest := tb[j].timing[pos[j]];
        }
      }
    }

    /** compute_opt_delay */
    method ComputeOptDelay(delayStep: int, latencyTradeoff: int, autoTradeoff: int, windowSize: int)
      returns (e: Estimate)
      requires Valid() && delayStep > 0
      ensures IsEstimate(Statistics(AllOf(View()), delayStep, latencyTradeoff, autoTradeoff, windowSize), e)
    {
      hide Keeps, FirstBest, RoundDown, TopTimings, LateFactor, TimingBuffer.Valid, TimingBuffer.All;
      var total := tb[0].currCount + tb[1].currCount + tb[2].currCount;
      ReceivedByWindow();
      if total == 0 {
        return Estimate(0, autoTradeoff);
      }
      var lateFactor := LateFactor(latencyTradeoff, autoTradeoff, windowSize, total);
      ghost var V, cost;
      var opt, best, worst;
      opt, best, worst, V, cost := VisitLatest(delayStep, lateFactor);
      var short := Wrap16(opt);
      e := Estimate(if total < TOP_DELAY && short > 0 then 0 else short, 1 + Quotient(best - worst, TOP_DELAY));
      ghost var st := Statistics(AllOf(View()), delayStep, latencyTradeoff, autoTradeoff, windowSize);
      assert EstimatedFrom(st, e, V, opt, cost);
    }

    /** The loop over the latest packets. */
    method VisitLatest(delayStep: int, lateFactor: real)
      returns (opt: int, best: int, worst: int, ghost V: seq<int>, ghost cost: int)
      requires Valid() && delayStep > 0
      ensures TopTimings(V, Received()) && FirstBest(Delays(V, delayStep), lateFactor, |V|, opt, cost)
      ensures if V == [] then best == worst == 0 else worst == V[0] && best == V[|V| - 1]
    {
      hide Keeps, FirstBest, Late, AnyReached, Cost, RoundDown, Merging, Searching, TopTimings, TimingBuffer.Valid;
      hide Head, Latest;
      V := [];
      opt, best, worst := 0, 0, 0;
      var pos, search := [0, 0, 0], Search(0, MAX_COST, 0, false);
      ghost var ks := KeptLists();
      KeptSorted();
      MergeStart(ks);
      SearchStart(lateFactor);
      var i := 0;
      while i < TOP_DELAY
        invariant 0 <= i <= TOP_DELAY && |V| == i && KeptLists() == ks
        invariant Merging(ks, pos, V)
        invariant Searching(Delays(V, delayStep), lateFactor, search)
        invariant if V == [] then best == worst == 0 else worst == V[0] && best == V[|V| - 1]
      {
        PositionsOk(pos, V);
        var next, latest := PickLatest(pos);
        if next == -1 {
          break;
        }
        if i == 0 {
          worst := latest;
        }
        best := latest;
        MergeStep(ks, pos, V, next);
        SearchOne(V, latest, delayStep, lateFactor, search);
        V := V + [latest];
        pos := pos[next := pos[next] + 1];
        search := Account(search, RoundDown(latest, delayStep), lateFactor);
        i := i + 1;
      }
      if i < TOP_DELAY {
        PositionsOk(pos, V);
      }
      opt, cost := search.opt, search.bestCost;
      WindowsKeep();
      MergeIsTop(ks, [tb[0].dropped, tb[1].dropped, tb[2].dropped], [tb[0].currCount, tb[1].currCount, tb[2].currCount],
          pos, V);
      SearchFound(Delays(V, delayStep), lateFactor, search);
    }

    lemma KeptSorted()
      requires Valid()
      ensures forall j :: 0 <= j < MAX_BUFFERS ==> Sorted(KeptLists()[j])
    {}

    lemma PositionsOk(pos: seq<int>, V: seq<int>)
      requires Valid() && Merging(KeptLists(), pos, V)
      ensures |pos| == MAX_BUFFERS && forall j :: 0 <= j < MAX_BUFFERS ==> 0 <= pos[j] <= tb[j].filled
      ensures |V| == 0 ==> V == []
    {
      hide Keeps;
      assert KeptLists()[0] == tb[0].Kept() && KeptLists()[1] == tb[1].Kept() && KeptLists()[2] == tb[2].Kept();
    }

    static lemma MergeStart(ks: seq<seq<int>>)
      requires |ks| == MAX_BUFFERS && forall j :: 0 <= j < MAX_BUFFERS ==> Sorted(ks[j])
      ensures Merging(ks, [0, 0, 0], [])
    {
      assert ks[0][..0] == [] && ks[1][..0] == [] && ks[2][..0] == [];
    }
  }
}
