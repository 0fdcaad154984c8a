/** A run of the jitter buffer of jitter.c in which what has been played moves back: an adjustment that is still owed is
    forgotten when another is made before the next get. */
module JitterSetback {
  import opened DelayEstimate
  import opened DelayPrice
  import opened JitterBuffers
  import opened JitterRuns
  import opened JitterTime
  import opened MachineWords
  import opened PacketSlots
  import opened Remainders
  import opened Timings

  // ----- the run -----

  /** Between two calls: played up to pointer, expecting next, with the given timings and the given interpolation
      owed. */
  ghost predicate At(jb: JitterBuffer, step: int, pointer: int, next: int, owed: int, received: multiset<int>)
    reads jb, jb.windows, jb.windows.Repr()
  {
    && jb.Valid() && !jb.resetState && jb.lostCount == 0 && jb.bufferMargin == 0 && jb.buffered == 0 && jb.autoAdjust
    && jb.delayStep == step && jb.windowSize == 1000 && jb.subwindowSize == 333 && jb.latencyTradeoff == 0
    && jb.pointerTimestamp == pointer && jb.nextStop == next && jb.interpRequested == owed
    && AllOf(jb.windows.View()) == received
  }

  lemma RecordedAll(v: seq<multiset<int>>, t: int, subwindowSize: int)
    requires |v| == MAX_BUFFERS && |AllOf(v)| < subwindowSize
    ensures AllOf(Recorded(v, t, subwindowSize)) == AllOf(v) + multiset{t}
  {}

  /** A packet that comes after its time leaves its lateness behind. */
  method PutLate(jb: JitterBuffer, late: int, step: nat, ghost pointer: int, next: int, ghost owed: int,
                 ghost received: multiset<int>)
    requires At(jb, step, pointer, next, owed, received) && |received| < 333 && 0 < late <= 32767
    modifies jb.Repr()
    ensures At(jb, step, pointer, next, owed, received + multiset{-late}) && jb.autoTradeoff == old(jb.autoTradeoff)
  {
    hide JitterBuffer.Valid, Windows.Valid, Windows.View, PutIs, LT32, Recorded, AllOf;
    jb.Settings();
    OrderAgrees(next - late, next);
    RecordedAll(jb.windows.View(), -late, 333);
    ghost var at, noted := jb.Put(Packet([], next - late, step, 0, 0));
  }

  /** The first tick with data: two late packets, the second by one. */
  method TickOnTwo(jb: JitterBuffer, step: int, ghost pointer: int, ghost next: int, ghost late: int)
    requires At(jb, step, pointer, next, 0, multiset{-late, -1}) && jb.autoTradeoff == INITIAL_TRADEOFF
    requires step > 0 && late % step == 0 && 0 < late <= 32767
    modifies jb.Repr()
    ensures At(jb, step, pointer - late, pointer - late, late, multiset{0, late - 1})
    ensures jb.autoTradeoff == 1 + (late - 1) / TOP_DELAY
  {
    hide JitterBuffer.Valid, Windows.Valid, Windows.View, Windows.Lists, IsEstimate, RoundDown, AllShifted, Joined;
    hide AllOf;
    hide LateFactor, Quotient;
    jb.Settings();
    ghost var stats, lists := jb.Stats(), jb.windows.Lists();
    jb.windows.ListsAreAll();
    ghost var opt := jb.Tick();
    jb.Settings();
    FirstPrice(late, step);
    TwoTimings(stats, Estimate(opt, jb.autoTradeoff), -late, -1);
    jb.windows.ListsAreAll();
    PairShift(lists, late, -late, -1);
  }

  /** At first losing a packet costs more than any delay. */
  lemma FirstPrice(late: int, step: int)
    requires step > 0 && late % step == 0 && 0 < late <= 32767
    ensures RoundDown(-late, step) == -late && Quotient(late - 1, TOP_DELAY) == (late - 1) / TOP_DELAY
    ensures LateFactor(0, INITIAL_TRADEOFF, 1000, 2) >= (RoundDown(-1, step) - RoundDown(-late, step)) as real
  {
    RoundDownIsFloor(-late, step);
    RoundDownIsFloor(-1, step);
    NegatedMultiple(late, step);
    hide RoundDown;
    assert LateFactor(0, INITIAL_TRADEOFF, 1000, 2) == 16000000.0;
  }

  lemma NegatedMultiple(late: int, step: int)
    requires step > 0 && late % step == 0
    ensures -late / step * step == -late
  {
    QuotientUnique(-late, -(late / step), 0, step);
  }

  lemma PairShift(lists: seq<seq<int>>, amount: int, t: int, u: int)
    requires |lists| == 2 * MAX_BUFFERS && multiset(Joined(lists)) == multiset{t, u}
    ensures multiset(Joined(AllShifted(lists, amount))) == multiset{t + amount, u + amount}
  {
    hide *;
    JoinedShift(lists, amount);
    OnlyTwo(Joined(lists), t, u);
    ShiftedPair(Joined(lists), amount, t, u);
  }

  lemma ShiftedPair(s: seq<int>, amount: int, t: int, u: int)
    requires s == [t, u] || s == [u, t]
    ensures multiset(Shifted(s, amount)) == multiset{t + amount, u + amount}
  {
    assert Shifted(s, amount) == [s[0] + amount, s[1] + amount];
  }

  lemma OnlyTwo(s: seq<int>, t: int, u: int)
    requires multiset(s) == multiset{t, u}
    ensures s == [t, u] || s == [u, t]
  {
    assert |s| == |multiset(s)| == 2;
    assert s == [s[0], s[1]];
    assert s[0] in multiset(s) && s[1] in multiset(s);
    assert multiset(s) == multiset{s[0], s[1]};
  }

  /** What the first adjustment leaves as the price of a late packet is enough for another of its size. */
  lemma SecondPrice(late1: int, late2: int, step: int)
    requires step > 0 && late2 % step == 0 && 0 < late2 <= late1
    ensures RoundDown(-late2, step) == -late2 && RoundDown(0, step) == 0 && RoundDown(late1 - 1, step) < late1
    ensures LateFactor(0, 1 + (late1 - 1) / TOP_DELAY, 1000, 3) >= late1 as real
  {
    hide RoundDown, LateFactor, Quotient;
    RoundedThree(late1, late2, step);
    Priced(late1, (late1 - 1) / TOP_DELAY);
    PriceOfThree(1 + (late1 - 1) / TOP_DELAY);
  }

  lemma RoundedThree(late1: int, late2: int, step: int)
    requires step > 0 && late2 % step == 0 && 0 < late2 <= late1
    ensures RoundDown(-late2, step) == -late2 && RoundDown(0, step) == 0 && RoundDown(late1 - 1, step) < late1
  {
    hide *;
    RoundDownIsFloor(-late2, step);
    RoundDownIsFloor(0, step);
    RoundDownIsFloor(late1 - 1, step);
    NegatedMultiple(late2, step);
  }

  lemma PriceOfThree(autoTradeoff: nat)
    ensures LateFactor(0, autoTradeoff, 1000, 3) == (autoTradeoff * 1000 / 3) as real
  {}

  lemma Priced(late: int, q: int)
    requires late > 0 && q == (late - 1) / TOP_DELAY
    ensures q >= 0 && (1 + q) * 1000 / 3 >= late
  {}

  /** A tick after a late packet, an adjustment of late1 being owed. */
  method TickOnThree(jb: JitterBuffer, step: int, ghost pointer: int, ghost next: int, ghost late1: int,
                     ghost late2: int)
    returns (ghost opt: int)
    requires At(jb, step, pointer, next, late1, multiset{-late2, 0, late1 - 1})
    requires jb.autoTradeoff == 1 + (late1 - 1) / TOP_DELAY
    requires step > 0 && late2 % step == 0 && 0 < late2 <= late1 <= 32767
    modifies jb.Repr()
    ensures jb.Valid() && opt == -late2 && jb.Progress() == old(jb.Progress()) - late1
  {
    hide JitterBuffer.Valid, Windows.Valid, Windows.View, Windows.Lists, IsEstimate, RoundDown, AllShifted, AllOf;
    hide LateFactor;
    jb.Settings();
    ghost var stats := jb.Stats();
    opt := jb.Tick();
    SecondPrice(late1, late2, step);
    ThreeTimings(stats, Estimate(opt, jb.autoTradeoff), -late2, 0, late1 - 1);
  }

  /** From a new buffer: a packet, put and played, and a tick. */
  method Begin(start: int, step: nat) returns (jb: JitterBuffer)
    requires 0 < step < HALF_RANGE
    ensures fresh(jb) && fresh(jb.Repr()) && At(jb, step, start + step, start + step, 0, multiset{})
    ensures jb.autoTradeoff == INITIAL_TRADEOFF
  {
    hide JitterBuffer.Valid, Windows.Valid, Windows.View, Windows.Lists, AllShifted, OnlyZeros, NoPackets;
    jb := new JitterBuffer(step);
    var p := Packet([], start, step, 0, 0);
    PlayFirst(jb, p);
    jb.Settings();
    assert AllOf(NoTimings()) == multiset{};
    ghost var stats := jb.Stats();
    ghost var opt := jb.Tick();
  }

  method PlayFirst(jb: JitterBuffer, p: Packet)
    requires jb.Valid() && jb.resetState && jb.lostCount == 0 && jb.interpRequested == 0 && jb.packets == NoPackets()
    requires 0 < p.span < HALF_RANGE
    requires jb.windows.View() == NoTimings() && jb.bufferMargin == 0
    modifies jb`packets, jb`arrival, jb`accepted, jb`discarded, jb`pointerTimestamp, jb`nextStop, jb`buffered
    modifies jb`resetState, jb`lostCount, jb`autoTradeoff, jb`returned, jb`lastReturned, jb`interpRequested
    modifies jb.windows, jb.windows.Repr()
    ensures jb.Valid() && !jb.resetState && jb.lostCount == 0 && jb.interpRequested == 0 && jb.buffered == 0
    ensures jb.pointerTimestamp == p.End() && jb.windows.View() == NoTimings()
    ensures jb.autoTradeoff == old(jb.autoTradeoff)
  {
    hide JitterBuffer.Valid, Windows.Valid, Windows.View, Windows.Lists, NoPackets, PutIs, Chosen, Recorded, NoTimings;
    hide JitterBuffer.LostAs, LossReport;
    jb.Settings();
    ghost var at, late := jb.Put(p);
    OnlyPacket(p, at, jb.resetState, jb.pointerTimestamp, jb.delayStep, jb.packets);
    OrderAgrees(p.timestamp, p.timestamp);
    OrderAgrees(0, 0);
    ghost var s := jb.packets;
    ghost var how, pointer;
    var r;
    r, how, pointer := jb.Get(p.span, 0, false);
    OnlyChoice(p, if how.Played? then how.at else -1, s, p.span);
  }

  /** Put, get, a tick, two late packets, a tick, one more late packet, a tick: the first adjustment is forgotten when
      the second is made, and what was played moves back by it. */
  method Setback(start: int, step: nat, late1: int, late2: int) returns (jb: JitterBuffer, ghost before: int)
    requires step > 0 && late1 % step == late2 % step == 0 && 0 < late2 <= late1 <= 32767
    ensures fresh(jb) && jb.Valid() && jb.Progress() == before - late1
  {
    hide At;
    StepFits(step, late1);
    jb := Begin(start, step);
    var next := start + step;
    PutLate(jb, late1, step, next, next, 0, multiset{});
    PutLate(jb, 1, step, next, next, 0, multiset{} + multiset{-late1});
    assert multiset{} + multiset{-late1} + multiset{-1} == multiset{-late1, -1};
    TickOnTwo(jb, step, next, next, late1);
    next := next - late1;
    PutLate(jb, late2, step, next, next, late1, multiset{0, late1 - 1});
    assert multiset{0, late1 - 1} + multiset{-late2} == multiset{-late2, 0, late1 - 1};
    before := jb.Progress();
    ghost var opt := TickOnThree(jb, step, next, next, late1, late2);
  }

  lemma StepFits(step: int, late: int)
    requires step > 0 && late % step == 0 && 0 < late <= 32767
    ensures step <= late
  {}
}
