/** What the jitter buffer guarantees over whole runs. */
module JitterRuns {
  import opened DelayEstimate
  import opened JitterBuffers
  import opened JitterTime
  import opened MachineWords
  import opened PacketSlots
  import opened Timings
  import opened Wrappers

  // ----- one get -----

  /** Reports are honest: once a get searches, it returns a packet exactly when a stored one overlaps the span asked
      for, and the packet returned is one that does. */
  lemma GetIsHonest(how: Outcome, r: Got, before: Slots, after: Slots, resetState: bool, pointer: int, span: int,
                    concealment: int, base: int)
    requires concealment > 0 && GotAs(how, r, before, after, resetState, 0, pointer, span, concealment)
    requires !how.Unsynced?
    requires span > 0 && InWindow(before, base, pointer, span)
    requires forall j :: 0 <= j < |before| && before[j].Some? ==> before[j].value.span > 0
    ensures r.status == Ok <==>
      exists j :: 0 <= j < |before| && before[j].Some? && Overlaps(before[j].value, pointer, span)
    ensures r.status == Ok ==> how.Played? && 0 <= how.at < |before| && before[how.at].Some?
    ensures r.status == Ok ==> Overlaps(before[how.at].value, pointer, span)
  {
    hide Chosen, Overlaps, InWindow, SyncedTo;
    ChosenOverlaps(before, if how.Played? then how.at else -1, base, pointer, span);
  }

  /** Playing a packet never moves back. */
  lemma PlayedMovesOn(s: Slots, i: int, base: int, pointer: int, span: int)
    requires Chosen(s, i, pointer, span) && i != -1 && span >= 0 && InWindow(s, base, pointer, span)
    ensures 0 <= i < |s| && s[i].Some? && pointer <= s[i].value.End()
  {
    ChosenFits(s, i, pointer, span);
    FitsInOrder(s[i].value, base, pointer, span);
    hide Chosen, Exact, Covers, Reaches, StartsIn;
    var k :| Fits(k, s[i].value, pointer, span);
    assert k == IsExact || k == IsCovering || k == IsReaching || k == IsStarting;
  }

  // ----- one put -----

  /** A put throws a packet that could still be played out if and only if all the slots held such packets before it, and
      then it is the earliest of them; every other one is still in its slot. */
  lemma EvictsEarliest(s: Slots, p: Packet, at: int, pointer: int, step: int, after: Slots, base: int)
    requires PutIs(s, p, at, false, pointer, step, after) && at != -1
    requires base <= pointer < base + HALF_RANGE
    requires forall i :: 0 <= i < |s| && s[i].Some? ==>
      base <= s[i].value.timestamp && s[i].value.timestamp + s[i].value.span < base + HALF_RANGE
    ensures 0 <= at < |s| == |after| && after[at] == Some(p)
    ensures s[at].Some? && s[at].value.timestamp + s[at].value.span > pointer
      <==> forall j :: 0 <= j < |s| ==> s[j].Some? && s[j].value.timestamp + s[j].value.span > pointer
    ensures s[at].Some? && s[at].value.timestamp + s[at].value.span > pointer ==>
      forall j :: 0 <= j < |s| && s[j].Some? ==> s[at].value.timestamp <= s[j].value.timestamp
    ensures forall j :: 0 <= j < |s| && j != at && s[j].Some? ==>
      after[j] == if s[j].value.timestamp + s[j].value.span > pointer then s[j] else None
  {
    forall j | 0 <= j < |s| && s[j].Some?
      ensures GT32(s[j].value.timestamp + s[j].value.span, pointer)
        == (s[j].value.timestamp + s[j].value.span > pointer)
    {
      OrderAgrees(s[j].value.timestamp + s[j].value.span, pointer);
    }
    hide LT32, GT32, EarliestIndex;
    if s[at].Some? && s[at].value.timestamp + s[at].value.span > pointer {
      forall j | 0 <= j < |s| && s[j].Some?
        ensures s[at].value.timestamp <= s[j].value.timestamp
      {
        EarliestIsEarliest(s, |s|, base, j);
      }
    }
  }

  lemma PutStaysInWindow(s: Slots, p: Packet, at: int, pointer: int, step: int, after: Slots, base: int, span: int)
    requires PutIs(s, p, at, false, pointer, step, after)
    requires InWindow(s, base, pointer, span) && base <= p.timestamp && p.End() < base + HALF_RANGE
    ensures InWindow(after, base, pointer, span)
  {
    hide LT32, GT32, EarliestIndex;
  }

  // ----- forward progress -----

  /** Any number of puts, one get, and a tick: without a reset, what has been played never moves back, an interpolation
      still owed counted in. */
  method Round(jb: JitterBuffer, ps: seq<Packet>, span: int, capacity: nat, wantOffset: bool, ghost base: int)
    returns (r: Got)
    requires jb.Valid() && !jb.resetState && jb.lostCount <= LOST_LIMIT && span >= 0
    requires InWindow(jb.packets, base, jb.pointerTimestamp, span)
    requires forall p :: p in ps ==> base <= p.timestamp && p.End() < base + HALF_RANGE
    modifies jb.Repr()
    ensures jb.Valid() && !jb.resetState && jb.Progress() >= old(jb.Progress())
  {
    hide JitterBuffer.Valid, Windows.Valid, Windows.View, Windows.Lists, PutIs, InWindow;
    hide JitterBuffer.AdjustedAs;
    Puts(jb, ps, span, base);
    ghost var before := jb.Progress();
    r := GetOnce(jb, span, capacity, wantOffset, base);
    ghost var opt := jb.Tick();
  }

  /** What one round is given: packets to put, the span to get, and where the timestamps in play start. */
  datatype Turn = Turn(ps: seq<Packet>, span: int, base: int)

  /** A round that resets nothing and whose timestamps lie within half the 32-bit range. */
  predicate Ready(jb: JitterBuffer, t: Turn)
    reads jb
  {
    && !jb.resetState && jb.lostCount <= LOST_LIMIT && t.span >= 0
    && InWindow(jb.packets, t.base, jb.pointerTimestamp, t.span)
    && forall i :: 0 <= i < |t.ps| ==> t.base <= t.ps[i].timestamp && t.ps[i].End() < t.base + HALF_RANGE
  }

  /** Over any run of rounds, as long as each is ready when its turn comes, what has been played never moves back. */
  method Rounds(jb: JitterBuffer, turns: seq<Turn>, capacity: nat, wantOffset: bool)
    returns (rs: seq<Got>, ghost track: seq<int>)
    requires jb.Valid()
    modifies jb.Repr()
    ensures jb.Valid() && |rs| <= |turns| && (|rs| < |turns| ==> !Ready(jb, turns[|rs|]))
    ensures |track| == |rs| + 1 && track[0] == old(jb.Progress()) && track[|rs|] == jb.Progress()
    ensures Sorted(track)
  {
    hide JitterBuffer.Valid, InWindow;
    rs, track := [], [jb.Progress()];
    while |rs| < |turns| && Ready(jb, turns[|rs|])
      invariant jb.Valid() && |rs| <= |turns|
      invariant |track| == |rs| + 1 && track[0] == old(jb.Progress()) && track[|rs|] == jb.Progress() && Sorted(track)
      decreases |turns| - |rs|
    {
      var t := turns[|rs|];
      var r := Round(jb, t.ps, t.span, capacity, wantOffset, t.base);
      rs, track := rs + [r], track + [jb.Progress()];
    }
  }

  method Puts(jb: JitterBuffer, ps: seq<Packet>, ghost span: int, ghost base: int)
    requires jb.Valid() && !jb.resetState && jb.lostCount <= LOST_LIMIT
    requires InWindow(jb.packets, base, jb.pointerTimestamp, span)
    requires forall p :: p in ps ==> base <= p.timestamp && p.End() < base + HALF_RANGE
    modifies jb.Repr()
    ensures jb.Valid() && !jb.resetState && jb.Progress() == old(jb.Progress())
    ensures InWindow(jb.packets, base, jb.pointerTimestamp, span)
  {
    hide JitterBuffer.Valid, Windows.Valid, Windows.View, Windows.Lists, PutIs, InWindow;
    for i := 0 to |ps|
      invariant jb.Valid() && !jb.resetState && jb.lostCount == old(jb.lostCount) && jb.Progress() == old(jb.Progress())
      invariant InWindow(jb.packets, base, jb.pointerTimestamp, span)
    {
      ghost var s := jb.packets;
      ghost var at, late := jb.Put(ps[i]);
      PutStaysInWindow(s, ps[i], at, jb.pointerTimestamp, jb.delayStep, jb.packets, base, span);
    }
  }

  method GetOnce(jb: JitterBuffer, span: int, capacity: nat, wantOffset: bool, ghost base: int) returns (r: Got)
    requires jb.Valid() && !jb.resetState && span >= 0 && InWindow(jb.packets, base, jb.pointerTimestamp, span)
    modifies jb.Repr()
    ensures jb.Valid() && !jb.resetState && jb.Progress() >= old(jb.Progress()) && jb.interpRequested == 0
  {
    hide JitterBuffer.Valid, Windows.Valid, Windows.View, Windows.Lists, Chosen, InWindow, IsEstimate, RoundDown;
    jb.Settings();
    ghost var s, pointer := jb.packets, jb.pointerTimestamp;
    ghost var how, searched;
    r, how, searched := jb.Get(span, capacity, wantOffset);
    if how.Played? {
      PlayedMovesOn(s, how.at, base, pointer, span);
    } else if how.Lost? && how.opt >= 0 {
      RoundedNotNegative(span, jb.concealmentSize);
    }
  }

  lemma RoundedNotNegative(span: int, step: int)
    requires span >= 0 && step > 0
    ensures RoundDown(span, step) >= 0
  {
    RoundDownIsFloor(span, step);
    NotNegative(span, step, span / step);
  }

  lemma NotNegative(span: int, step: int, q: int)
    requires span >= 0 && step > 0 && q * step <= span < q * step + step
    ensures q * step >= 0
  {}

  // ----- the steady stream -----

  /** Nothing stored, nothing owed, everything so far exactly on time. */
  ghost predicate Calm(jb: JitterBuffer)
    reads jb, jb.windows, jb.windows.Repr()
  {
    && jb.Valid() && jb.packets == NoPackets() && jb.interpRequested == 0 && jb.bufferMargin == 0 && jb.autoAdjust
    && OnlyZeros(AllOf(jb.windows.View()))
  }

  /** Calm, and either not synced yet or expecting a packet of the given timestamp. */
  ghost predicate Running(jb: JitterBuffer, due: int)
    reads jb, jb.windows, jb.windows.Repr()
  {
    Calm(jb) && (!jb.resetState ==> jb.pointerTimestamp == jb.nextStop == due)
  }

  lemma ZerosRecorded(v: seq<multiset<int>>, subwindowSize: int)
    requires |v| == MAX_BUFFERS && OnlyZeros(AllOf(v))
    ensures OnlyZeros(AllOf(Recorded(v, 0, subwindowSize)))
  {
    assert AllOf(Recorded(v, 0, subwindowSize)) <= AllOf(v) + multiset{0};
  }

  /** One packet in an empty store goes to the first slot, and a get for it finds it there. */
  lemma OnlyPacket(p: Packet, at: int, resetState: bool, pointer: int, step: int, after: Slots)
    requires PutIs(NoPackets(), p, at, resetState, pointer, step, after)
    requires !resetState ==> pointer == p.timestamp && 0 < step && p.span + step < HALF_RANGE
    ensures at == 0 && after == NoPackets()[0 := Some(p)] && OldestIndex(after, |after|) == 0
    ensures after[0 := None] == NoPackets()
  {
    if !resetState {
      OrderAgrees(p.End() + step, pointer);
    }
    hide LT32, GT32, EarliestIndex;
    FirstFree(after, at, p);
    OldestOfOne(after, |after|);
  }

  lemma FirstFree(after: Slots, at: int, p: Packet)
    requires |after| == MAX_BUFFER_SIZE && 0 <= at < |after| && after[at] == Some(p)
    requires forall i :: 0 <= i < |after| && i != at ==> after[i].None?
    requires forall k :: 0 <= k < at ==> after[k].Some?
    ensures at == 0 && after == NoPackets()[0 := Some(p)] && after[0 := None] == NoPackets()
  {
    assert after[0].Some?;
  }

  lemma {:induction false} OldestOfOne(s: Slots, n: nat)
    requires 1 <= n <= |s| && s[0].Some? && forall i :: 1 <= i < |s| ==> s[i].None?
    ensures OldestIndex(s, n) == 0
  {
    if n > 1 {
      OldestOfOne(s, n - 1);
    }
  }

  lemma OnlyChoice(p: Packet, i: int, s: Slots, span: int)
    requires s == NoPackets()[0 := Some(p)] && Chosen(s, i, p.timestamp, span) && 0 <= span <= p.span < HALF_RANGE
    ensures i == 0
  {
    OrderAgrees(p.End(), p.timestamp + span);
    OrderAgrees(p.timestamp, p.timestamp);
    assert FirstFit(IsExact, s, 0, p.timestamp, span);
    assert forall j :: FirstFit(IsExact, s, j, p.timestamp, span) ==> j == 0;
  }

  /** The packet due is stored, alone, and is not late. */
  ghost predicate Holding(jb: JitterBuffer, p: Packet)
    reads jb, jb.windows, jb.windows.Repr()
  {
    && jb.Valid() && jb.packets == NoPackets()[0 := Some(p)] && jb.interpRequested == 0 && jb.bufferMargin == 0
    && jb.autoAdjust
    && OnlyZeros(AllOf(jb.windows.View())) && jb.arrival[0] == (if jb.resetState then 0 else p.timestamp)
    && (!jb.resetState ==> jb.pointerTimestamp == p.timestamp)
  }

  method PutDue(jb: JitterBuffer, p: Packet)
    requires Running(jb, p.timestamp) && jb.lostCount <= LOST_LIMIT && 0 < p.span && p.span + jb.delayStep < HALF_RANGE
    modifies jb.Repr()
    ensures Holding(jb, p) && jb.delayStep == old(jb.delayStep) > 0
  {
    hide JitterBuffer.Valid, Windows.Valid, Windows.View, NoPackets, PutIs, LT32, Recorded, OnlyZeros, AllOf;
    hide Stored, GT32, EarliestIndex;
    jb.Settings();
    OrderAgrees(p.timestamp, p.timestamp);
    ghost var at, late := jb.Put(p);
    OnlyPacket(p, at, jb.resetState, jb.pointerTimestamp, jb.delayStep, jb.packets);
  }

  method GetDue(jb: JitterBuffer, p: Packet, capacity: nat, wantOffset: bool) returns (r: Got)
    requires Holding(jb, p) && 0 < p.span < HALF_RANGE
    modifies jb.Repr()
    ensures Calm(jb) && !jb.resetState && jb.lostCount == jb.buffered == 0 && jb.pointerTimestamp == p.End()
    ensures r == Handed(p, capacity, 0) && jb.delayStep == old(jb.delayStep)
  {
    hide JitterBuffer.Valid, Windows.Valid, Windows.View, Windows.Lists, NoPackets, Chosen, Recorded, OnlyZeros, AllOf;
    hide EQ32;
    hide JitterBuffer.LostAs, LossReport;
    jb.Settings();
    OrderAgrees(p.timestamp, p.timestamp);
    OrderAgrees(0, 0);
    ghost var s, v := jb.packets, jb.windows.View();
    HoldingOne(s, p);
    ghost var how, pointer;
    r, how, pointer := jb.Get(p.span, capacity, wantOffset);
    OnlyChoice(p, if how.Played? then how.at else -1, s, p.span);
    ZerosRecorded(v, jb.subwindowSize);
  }

  lemma HoldingOne(s: Slots, p: Packet)
    requires s == NoPackets()[0 := Some(p)]
    ensures OldestIndex(s, |s|) == 0 && s[0 := None] == NoPackets()
  {
    OldestOfOne(s, |s|);
  }

  method TickIdle(jb: JitterBuffer) returns (ghost opt: int)
    requires Calm(jb) && !jb.resetState && jb.buffered == 0
    modifies jb.Repr()
    ensures Running(jb, jb.pointerTimestamp) && !jb.resetState && opt == 0
    ensures jb.concealmentSize == old(jb.concealmentSize)
    ensures jb.pointerTimestamp == old(jb.pointerTimestamp) && jb.lostCount == old(jb.lostCount)
    ensures jb.delayStep == old(jb.delayStep)
  {
    hide JitterBuffer.Valid, Windows.Valid, Windows.View, Windows.Lists, NoPackets, OnlyZeros, AllOf, IsEstimate;
    jb.Settings();
    ghost var stats := jb.Stats();
    opt := jb.Tick();
    OnTimeNoChange(stats, Estimate(opt, jb.autoTradeoff));
  }

  /** A packet put just before the get it is due at is returned by it, and the tick that follows adjusts nothing. */
  method Deliver(jb: JitterBuffer, p: Packet, capacity: nat, wantOffset: bool) returns (r: Got, ghost opt: int)
    requires Running(jb, p.timestamp) && jb.lostCount <= LOST_LIMIT && 0 < p.span && p.span + jb.delayStep < HALF_RANGE
    modifies jb.Repr()
    ensures Running(jb, p.End()) && !jb.resetState && jb.lostCount == 0 && jb.delayStep == old(jb.delayStep)
    ensures r == Handed(p, capacity, 0) && opt == 0
  {
    hide Calm, Holding;
    PutDue(jb, p);
    r := GetDue(jb, p, capacity, wantOffset);
    opt := TickIdle(jb);
  }

  /** Packet k of a steady stream. */
  ghost predicate Stream(ps: seq<Packet>, start: int, span: int) {
    forall k :: 0 <= k < |ps| ==> ps[k].span == span && ps[k].timestamp == Due(start, k, span)
  }

  function Due(start: int, k: int, span: int): int { start + k * span }

  lemma DueNext(start: int, k: int, span: int)
    ensures Due(start, k, span) + span == Due(start, k + 1, span)
  {}

  /** Playing a stream as it comes, from a calm buffer: every get returns its packet, and no tick ever adjusts the
      delay. */
  method Play(jb: JitterBuffer, ps: seq<Packet>, ghost start: int, span: int, capacity: nat, wantOffset: bool)
    returns (rs: seq<Got>, ghost opts: seq<int>)
    requires Running(jb, start) && jb.lostCount <= LOST_LIMIT && 0 < span && span + jb.delayStep < HALF_RANGE
    requires Stream(ps, start, span)
    modifies jb.Repr()
    ensures Running(jb, Due(start, |ps|, span)) && jb.delayStep == old(jb.delayStep)
    ensures if ps == [] then jb.lostCount == old(jb.lostCount) else !jb.resetState && jb.lostCount == 0
    ensures |rs| == |opts| == |ps| && forall k :: 0 <= k < |ps| ==> rs[k] == Handed(ps[k], capacity, 0) && opts[k] == 0
  {
    hide Calm, Handed, Due;
    rs, opts := [], [];
    DueStart(start, span);
    for k := 0 to |ps|
      invariant Running(jb, Due(start, k, span)) && jb.delayStep == old(jb.delayStep) && jb.lostCount <= LOST_LIMIT
      invariant if k == 0 then jb.lostCount == old(jb.lostCount) else !jb.resetState && jb.lostCount == 0
      invariant |rs| == |opts| == k && forall i :: 0 <= i < k ==> rs[i] == Handed(ps[i], capacity, 0) && opts[i] == 0
    {
      DueNext(start, k, span);
      ghost var opt;
      var r;
      r, opt := Deliver(jb, ps[k], capacity, wantOffset);
      rs, opts := rs + [r], opts + [opt];
    }
  }

  lemma DueStart(start: int, span: int)
    ensures Due(start, 0, span) == start
  {}

  /** What the application reads. */
  lemma HandedReads(p: Packet, r: Got, capacity: nat)
    requires r == Handed(p, capacity, 0)
    ensures r.status == Ok && r.timestamp == p.timestamp && r.span == p.span && r.sequence == p.sequence
    ensures r.userData == p.userData && r.offset == 0
    ensures r.data == if |p.data| <= capacity then p.data else p.data[..capacity]
  {}

  lemma AllRead(ps: seq<Packet>, rs: seq<Got>, start: int, span: int, capacity: nat)
    requires Stream(ps, start, span) && |rs| == |ps|
    requires forall k :: 0 <= k < |ps| ==> rs[k] == Handed(ps[k], capacity, 0)
    ensures forall k :: 0 <= k < |ps| ==> rs[k].status == Ok && rs[k].timestamp == start + k * span
    ensures forall k :: 0 <= k < |ps| ==> rs[k].span == span && rs[k].offset == 0
    ensures forall k :: 0 <= k < |ps| ==> rs[k].sequence == ps[k].sequence && rs[k].userData == ps[k].userData
    ensures forall k :: 0 <= k < |ps| && |ps[k].data| <= capacity ==> rs[k].data == ps[k].data
  {
    hide Handed;
    forall k | 0 <= k < |ps|
      ensures rs[k].status == Ok && rs[k].timestamp == start + k * span && rs[k].span == span && rs[k].offset == 0
      ensures rs[k].sequence == ps[k].sequence && rs[k].userData == ps[k].userData
      ensures |ps[k].data| <= capacity ==> rs[k].data == ps[k].data
    {
      HandedReads(ps[k], rs[k], capacity);
    }
  }

  /** The same from a buffer just made: get k returns packet k, with the timestamp it was due at. */
  method PlayFromInit(stepSize: int, ps: seq<Packet>, ghost start: int, span: int, capacity: nat, wantOffset: bool)
    returns (jb: JitterBuffer, rs: seq<Got>, ghost opts: seq<int>)
    requires 0 < stepSize && 0 < span && span + stepSize < HALF_RANGE && Stream(ps, start, span)
    ensures fresh(jb.Repr()) && Running(jb, Due(start, |ps|, span)) && jb.delayStep == stepSize && jb.lostCount == 0
    ensures |rs| == |opts| == |ps| && forall k :: 0 <= k < |ps| ==> opts[k] == 0
    ensures forall k :: 0 <= k < |ps| ==> rs[k].status == Ok && rs[k].timestamp == start + k * span
    ensures forall k :: 0 <= k < |ps| ==> rs[k].span == span && rs[k].offset == 0
    ensures forall k :: 0 <= k < |ps| ==> rs[k].sequence == ps[k].sequence && rs[k].userData == ps[k].userData
    ensures forall k :: 0 <= k < |ps| && |ps[k].data| <= capacity ==> rs[k].data == ps[k].data
    ensures ps != [] ==> !jb.resetState
  {
    hide JitterBuffer.Valid, Windows.Valid, Windows.View, Handed, Due, NoPackets, Stream;
    jb := new JitterBuffer(stepSize);
    assert OnlyZeros(AllOf(NoTimings()));
    rs, opts := Play(jb, ps, start, span, capacity, wantOffset);
    AllRead(ps, rs, start, span, capacity);
  }

  // ----- the sender falls silent -----

  lemma AllMissing(rs: seq<Got>, start: int, step: int)
    requires forall k :: 0 <= k < |rs| ==> rs[k] == Report(Missing, Due(start, k, step), step)
    ensures forall k :: 0 <= k < |rs| ==>
      rs[k].status == Missing && rs[k].data == [] && rs[k].timestamp == start + k * step && rs[k].span == step
  {}

  /** Each get of the silence reports a loss and moves on by the concealed span. */
  method Silence(jb: JitterBuffer, span: int, n: nat) returns (rs: seq<Got>)
    requires Calm(jb) && !jb.resetState
    modifies jb.Repr()
    ensures Calm(jb) && !jb.resetState && jb.lostCount == old(jb.lostCount) + n && |rs| == n
    ensures jb.concealmentSize == old(jb.concealmentSize) > 0
    ensures var step := RoundDown(span, jb.concealmentSize);
      forall k :: 0 <= k < n ==>
        && rs[k].status == Missing && rs[k].data == [] && rs[k].timestamp == old(jb.pointerTimestamp) + k * step
        && rs[k].span == step
  {
    hide JitterBuffer.Valid, Windows.View, OnlyZeros, AllOf, NoPackets, Due, RoundDown;
    jb.Settings();
    rs := [];
    ghost var start, step := jb.pointerTimestamp, RoundDown(span, jb.concealmentSize);
    DueStart(start, step);
    for k := 0 to n
      invariant Calm(jb) && !jb.resetState && jb.lostCount == old(jb.lostCount) + k && |rs| == k
      invariant jb.concealmentSize == old(jb.concealmentSize) && jb.pointerTimestamp == Due(start, k, step)
      invariant forall i :: 0 <= i < k ==> rs[i] == Report(Missing, Due(start, i, step), step)
    {
      DueNext(start, k, step);
      var r := LoseOnce(jb, span);
      rs := rs + [r];
    }
    AllMissing(rs, start, step);
  }

  method LoseOnce(jb: JitterBuffer, span: int) returns (r: Got)
    requires Calm(jb) && !jb.resetState && jb.concealmentSize > 0
    modifies jb.Repr()
    ensures Calm(jb) && !jb.resetState && jb.lostCount == old(jb.lostCount) + 1
    ensures jb.concealmentSize == old(jb.concealmentSize)
    ensures r == Report(Missing, old(jb.pointerTimestamp), RoundDown(span, jb.concealmentSize))
    ensures jb.pointerTimestamp == old(jb.pointerTimestamp) + RoundDown(span, jb.concealmentSize)
  {
    hide Calm, RoundDown;
    r := GetNothing(jb, span);
    ghost var opt := TickIdle(jb);
  }

  method GetNothing(jb: JitterBuffer, span: int) returns (r: Got)
    requires Calm(jb) && !jb.resetState && jb.concealmentSize > 0
    modifies jb.Repr()
    ensures Calm(jb) && !jb.resetState && jb.lostCount == old(jb.lostCount) + 1
    ensures jb.concealmentSize == old(jb.concealmentSize)
    ensures r == Report(Missing, old(jb.pointerTimestamp), RoundDown(span, jb.concealmentSize)) && jb.buffered == 0
    ensures jb.pointerTimestamp == old(jb.pointerTimestamp) + RoundDown(span, jb.concealmentSize)
  {
    hide JitterBuffer.Valid, Windows.Valid, Windows.View, Windows.Lists, Chosen, OnlyZeros, AllOf, IsEstimate;
    hide RoundDown;
    jb.Settings();
    ghost var stats := jb.Stats();
    ghost var how, pointer;
    r, how, pointer := jb.Get(span, 0, false);
    if how.Lost? {
      OnTimeNoChange(stats, Estimate(how.opt, jb.autoTradeoff));
    }
  }

  /** After more than twenty losses in a row the next packet put restarts the buffer, and the get after that plays
      it. */
  method Resync(jb: JitterBuffer, p: Packet, span: int, capacity: nat, wantOffset: bool) returns (r: Got)
    requires jb.Valid() && jb.lostCount > LOST_LIMIT && jb.interpRequested == 0 && 0 <= span <= p.span < HALF_RANGE
    modifies jb.Repr()
    ensures jb.Valid() && !jb.resetState && jb.lostCount == 0 && jb.pointerTimestamp == p.End()
    ensures jb.packets == NoPackets()
    ensures r.status == Ok && r.timestamp == p.timestamp && r.span == p.span && r.sequence == p.sequence
    ensures r.userData == p.userData && r.offset == 0
    ensures r.data == if |p.data| <= capacity then p.data else p.data[..capacity]
  {
    hide JitterBuffer.Valid, Windows.Valid, Windows.View, Windows.Lists, NoPackets, PutIs, LT32, Stored, GT32;
    hide JitterBuffer.ViewAfterPut;
    jb.Settings();
    ghost var at, late := jb.Put(p);
    r := GetStored(jb, p, span, capacity, wantOffset);
  }

  /** The first get, with one packet stored. */
  method GetStored(jb: JitterBuffer, p: Packet, span: int, capacity: nat, wantOffset: bool) returns (r: Got)
    requires jb.Valid() && jb.resetState && jb.packets == NoPackets()[0 := Some(p)] && jb.interpRequested == 0
    requires 0 <= span <= p.span < HALF_RANGE
    modifies jb.Repr()
    ensures jb.Valid() && !jb.resetState && jb.lostCount == 0 && jb.pointerTimestamp == p.End()
    ensures jb.packets == NoPackets()
    ensures r.status == Ok && r.timestamp == p.timestamp && r.span == p.span && r.sequence == p.sequence
    ensures r.userData == p.userData && r.offset == 0
    ensures r.data == if |p.data| <= capacity then p.data else p.data[..capacity]
  {
    hide JitterBuffer.Valid, Windows.Valid, Windows.View, Windows.Lists, NoPackets, Chosen, EQ32, JitterBuffer.LostAs;
    hide LossReport, JitterBuffer.PlayedAs, JitterBuffer.ViewAfterPlay, Handed, IsEstimate;
    jb.Settings();
    OrderAgrees(p.timestamp, p.timestamp);
    ghost var s := jb.packets;
    HoldingOne(s, p);
    ghost var how, pointer;
    r, how, pointer := jb.Get(span, capacity, wantOffset);
    OnlyChoice(p, if how.Played? then how.at else -1, s, span);
  }

  /** The two together, for streams and silences of any length: a steady stream, more than twenty gets without a packet,
      and a packet from wherever the sender is by then. */
  method FrozenSender(stepSize: int, ps: seq<Packet>, ghost start: int, span: int, n: nat, p: Packet, capacity: nat)
    returns (r: Got)
    requires 0 < stepSize && 0 < span && span + stepSize < HALF_RANGE && Stream(ps, start, span) && ps != []
    requires n > LOST_LIMIT && span <= p.span < HALF_RANGE
    ensures r.status == Ok && r.timestamp == p.timestamp && r.span == p.span && r.sequence == p.sequence
    ensures r.userData == p.userData && r.offset == 0
    ensures r.data == if |p.data| <= capacity then p.data else p.data[..capacity]
  {
    hide JitterBuffer.Valid, Windows.View, Handed, Due, Stream, NoPackets, RoundDown;
    var jb, rs;
    ghost var opts;
    jb, rs, opts := PlayFromInit(stepSize, ps, start, span, capacity, false);
    var losses := Silence(jb, span, n);
    r := Resync(jb, p, span, capacity, false);
  }
}
